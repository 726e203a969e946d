# krunc: a verified model

krunc creates Linux containers from a kernel module. A command-line runtime translates
an OCI configuration into a binary specification and hands it to the module over
`/dev/krunc`; the module decodes it, clones a paused init, and on START lets that init
set up its mounts and execute. This project models

- the container lifecycle as a step system over every interleaving: the registry and
  its operations, the gates that paused inits poll, the tasks, and the 64-slot
  exit-watch table filled by a kprobe on `do_exit` (`WatchTable`, `Registry`,
  `Lifecycle`, `LifecycleInvariant`, `LifecycleRuns`, `LifecycleLife`, `LifecycleSlots`);
- the binary specification: the encoder, the strict userspace decoder, and the kernel's
  own decoder, which has other limits and clips lists (`Bytes`, `Utf8`, `Wire`, `TagBits`,
  `AbiFormat`, `AbiCodec`, `AbiProofs`, `AbiRoundTrip`, `AbiBounds`, `AbiMessages`, `KernelFormat`,
  `KernelCodec`, `KernelProofs`, `KernelBounds`, `KernelRecords`);
- what the init does between its gate and `execve`, with every kernel call free to fail
  (`Setup`, `SetupProofs`, `SetupEffects`), and the tree of mounts it leaves (`MountTree`, `SetupRoot`,
  `SetupMounts`, `SetupConfinement`);
- from the configuration to that init: the program, its identity and its limits
  (`ProgramPipeline`), sysctls to the files written (`Sysctl`, `SysctlNames`,
  `SysctlWrites`, `SysctlProofs`, `SysctlPipeline`), mount options to the options in force
  (`MountOptions`, `Words`, `MountPipeline`), masked and read-only paths to the calls made
  (`PathPipeline`), and capability names to the sets held
  (`Capabilities`);
- the text commands (`TextCommands`, `RunLine`);
- the command-line processes as a protocol over kernel ids, state files, id maps and
  guarded cgroups (`CliProtocol`, `CliRuns`).

Where the source works in place (readers, writers, the registry vector, the watch table,
the init, the parsers' loops) there is a class or a method with the same loops, proved
equal to a function; the properties are then proved about the functions. The two step
systems are functions from states to states: a step that is not possible in a state leaves
it as it is, so "every run" means every sequence of steps.

Some places where the code does not do what its own comments say or its sample expects
are stated as results, each with the exact condition under which it does and an input for
which it does not:

- `DomainSpec::validate` does not bound all that the decoder bounds
  (`AbiRoundTrip.RoundTrip`, `AbiRoundTrip.ValidateGap`);
- the text plane's `kill` loses an exit-watch slot (`LifecycleSlots.TextKillLeaks`,
  `LifecycleSlots.SlotsConserved`) and leaves an init that was not started without an end
  (`LifecycleSlots.TextKillEndsIff`, `LifecycleSlots.TextKillExample`);
- a read-only path lifts the masks below it and hides the mounts below it, being bound
  after them and without them (`SetupConfinement.HiddenIff`,
  `SetupConfinement.MaskExample`, `SetupMounts.MountKept`, `SetupConfinement.MountLost`),
  and if its remount fails what is below it is writable (`SetupConfinement.ReadOnlyIff`,
  `SetupConfinement.NestedExample`);
- a bind mount does not get its other options, since a bind and a flag change cannot be
  combined in one call (`SetupMounts.MountInForce`, `SetupMounts.RbindRoExample`);
- of more than 31 masked, read-only or sysctl entries the kernel silently keeps 31
  (`PathPipeline.MaskedIff`, `PathPipeline.LastMaskedDropped`);
- an init whose credentials could not be applied executes with those it had
  (`Capabilities.NamedCapabilities`, `Capabilities.NamesNotHeld`);
- a `delete` that cannot open the device disarms a container the kernel can still release
  (`CliProtocol.ReleasedIsPrepared`, `CliProtocol.RaceReleasesUnguarded`);
- a `create` looks for the state file before it makes the container and writes it after, so
  one that was already under way takes over a container saved meanwhile
  (`CliRuns.SavedUntilRemoved`, `CliRuns.LateCreateTakesOver`);
- `run` removes what it created but, unlike `delete`, not its guard
  (`CliRuns.RunCommand`, `CliRuns.DeleteCommand`).

## Model

| member | source | states |
|---|---|---|
| LifecycleInvariant.StepKeeps | module/krunc.rs:367-468 | Every step of every interleaving (clone, number, watch, push, START, STATE, KILL, DELETE, text kill, gate read, exec, exit, both halves of the kprobe, `exit_state`, reap) keeps the global invariant tying ids, pids, gates, slots, recorded codes and past answers together |
| LifecycleRuns.GateStep | module/krunc.rs:367-380 | A gate goes from WAIT to START exactly by a START of its registered container, from WAIT to DOOM exactly by a DELETE of it while unstarted, and otherwise keeps its value |
| LifecycleRuns.GateOnce | module/krunc.rs:216-221 | Over any run a gate changes at most once |
| LifecycleRuns.StartedGate | module/krunc.rs:367-380 | A gate reads START if and only if some step of the run was a START of the container registered with it at that moment |
| LifecycleRuns.ReleasedByStart | module/krunc.rs:1280-1298 | An init past its gate, in setup or executing, implies such a START ran |
| LifecycleRuns.DeletedNeverExecs | module/krunc.rs:445-468 | The init of a container deleted before it was started never reaches setup or exec in any continuation |
| LifecycleRuns.CreatedUntilStart | module/krunc.rs:398-426 | `started` holds exactly when a START was applied, and STATE answers CREATED exactly until then |
| LifecycleRuns.IdsNotReused | module/krunc.rs:1051-1066 | An id whose container is gone is never registered again |
| LifecycleRuns.AnswersMonotone | module/krunc.rs:387-426 | Successive STATE answers for one id never go back in CREATED, RUNNING, STOPPED, keep the pid, and never change a reported exit word, watched or not |
| LifecycleRuns.ExitExact | module/krunc.rs:387-426 | A task watched before its exit began is reported, once ended and until deleted, as STOPPED with exactly the word given to `do_exit`, also after it is reaped |
| LifecycleRuns.ExitRecorded | module/krunc_helper.c:331-355 | The kprobe's lock-free early return never loses an exit that was watched in time |
| LifecycleLife.ExitReported | module/krunc.rs:387-426 | From the moment a watched init past its gate exits with some status, whatever runs then: once it has ended every answer until its deletion is STOPPED with that status |
| LifecycleLife.WatchedIff | module/krunc_helper.c:265-287 | An init is watched in time if and only if fewer than 64 slots are in use and it has not begun to exit |
| LifecycleLife.WholeLife | module/krunc.rs:367-468 | From any state with a free slot, a life without anything in between is answered CREATED, RUNNING, then STOPPED with its exit status, also when reaped, and after its deletion registry and slots are as before |
| LifecycleLife.DoomedLeaves | module/krunc.rs:1280-1298 | An init deleted before it was started leaves with status 0 at its next look at the gate |
| LifecycleLife.ProbeRecords | module/krunc_helper.c:331-355 | The lock-free check and the recording together change the table as recording at once would; the check alone ends it exactly if no slot is in use |
| LifecycleSlots.SlotsConserved | module/krunc_helper.c:265-303 | In every run the slots in use are one to one with the registered or in-flight containers whose watch succeeded, plus the lost ones; the numbers agree if and only if no step of the run was a text `kill` that leaks; watching fails exactly when 64 slots are held or lost |
| LifecycleSlots.TextKillLeaks | module/krunc.rs:484-494 | A text `kill` leaves a slot in use that no container or creation has the pid of, exactly when its pid is that of a registered, watched container whose task is not gone |
| LifecycleSlots.LostForGood | module/krunc.rs:484-494 | A lost slot stays in use and without an owner for ever |
| LifecycleSlots.TextKillStrands | module/krunc.rs:484-494 | After a text `kill` of any container that was not started its init is at its gate, which reads WAIT, for ever |
| LifecycleSlots.RegisteredCanEnd | module/krunc.rs:445-468 | The init of any registered container can end: by DELETE if it was not started, by a signal if it was |
| LifecycleSlots.TextKillEndsIff | module/krunc.rs:484-494 | After a text `kill` of a registered container its init can still end if and only if the container was started; before it, it always can |
| LifecycleSlots.PausedExists | module/krunc.rs:1047-1065 | A create from the initial state reaches a registered, watched, unstarted container with its init at the gate |
| LifecycleSlots.TextKillExample | module/krunc.rs:484-494 | From there a text `kill` loses the slot and strands the init in every continuation |
| WatchTable.Table.WatchPid | module/krunc_helper.c:265-287 | Takes the first free slot, or fails with -ENOSPC and changes nothing |
| WatchTable.Table.UnwatchPid | module/krunc_helper.c:290-304 | Frees every slot of the pid and no other, and the counter stays the number of slots in use |
| WatchTable.Table.GetExitCode | module/krunc_helper.c:308-326 | Returns the code of the first recorded slot of the pid, if any |
| WatchTable.Table.DoExitPre | module/krunc_helper.c:331-355 | Records the code in the awaiting slot of the pid; returning early on a zero counter makes no difference |
| WatchTable.AsMapSize | module/krunc_helper.c:254-262 | The counter is the size of the map the table stands for |
| WatchTable.WatchRefines | module/krunc_helper.c:265-287 | On the map from pids to optional codes, watching adds the pid, and fails exactly at 64 keys |
| WatchTable.UnwatchRefines | module/krunc_helper.c:290-304 | Unwatching removes the pid from the map |
| WatchTable.RecordRefines | module/krunc_helper.c:331-355 | Recording fills in a missing code and never overwrites one |
| WatchTable.CodeRefines | module/krunc_helper.c:308-326 | Reading a code is looking it up in the map |
| Registry.Containers.StartContainer | module/krunc.rs:367-380 | START on the vector is START on the registry by id: ENOENT without effect, or gate stored and `started` set |
| Registry.Containers.ContainerState | module/krunc.rs:398-426 | STATE on the vector: the first observed exit is cached, the recorded code before the zombie's word |
| Registry.AnsweredWord | module/krunc.rs:398-426 | The status of a container that has ended: what was seen before, else what was recorded, else the zombie's, else 0; and what was seen is kept |
| Registry.Containers.DeleteContainer | module/krunc.rs:445-468 | DELETE on the vector: dooms an unstarted gate, unwatches the pid, removes the entry and only it |
| Registry.Containers.Push | module/krunc.rs:1055-1065 | A new entry is added to the registry by id |
| Registry.Containers.Retain | module/krunc.rs:492-492 | The text `kill` drops exactly the entries of its pid |
| Registry.ByIdUpdate | module/krunc.rs:367-380 | Updating one element of a vector with unique ids updates that id alone |
| Registry.ByIdRemove | module/krunc.rs:447-465 | Removing one element of a vector with unique ids removes that id alone |
| AbiCodec.DecodeBuffer | userspace/krunc-abi/src/lib.rs:564-660 | The cursor-based decoder computes the decoding function, errors included |
| AbiCodec.EncodeSpec | userspace/krunc-abi/src/lib.rs:374-458 | The buffer-growing encoder computes the encoding function, errors included |
| AbiRoundTrip.ValidateBounds | userspace/krunc-abi/src/lib.rs:352-372 | Validation accepts exactly the specifications within the listed bounds, whatever the order of the checks, and its error names a length that is over its limit |
| AbiBounds.DecodedValidates | userspace/krunc-abi/src/lib.rs:349-372 | Validation never rejects what the decoder accepts: every decoded specification is within its bounds, and within the string bounds it does not check |
| AbiProofs.DecodeAccepts | userspace/krunc-abi/src/lib.rs:564-660 | The accepted language, exactly: within MAX_SPEC, framed sections with distinct small tags and readable known payloads, complete for the operation; the result is what they spell |
| AbiProofs.ExtensionRejected | userspace/krunc-abi/src/lib.rs:587-649 | No accepted buffer has an accepted strict extension: one that fits fails with exactly TrailingBytes, another with TooLarge |
| AbiProofs.PrefixRejected | userspace/krunc-abi/src/lib.rs:587-649 | No strict prefix of an accepted buffer is accepted |
| AbiProofs.OrderIndependent | userspace/krunc-abi/src/lib.rs:585-646 | Permuting the sections of an accepted buffer changes nothing |
| AbiProofs.UnknownIgnored | userspace/krunc-abi/src/lib.rs:585-646 | Inserting a section of an unknown, unseen tag anywhere, within bounds, changes nothing |
| AbiProofs.CopyRejected | userspace/krunc-abi/src/lib.rs:595-601 | Two sections of one tag below 64 are always rejected |
| TagBits.InsertHolds | userspace/krunc-abi/src/lib.rs:595-601 | The `u64` bitset is the set of tags seen |
| AbiRoundTrip.RoundTrip | userspace/krunc-abi/src/lib.rs:374-458 | An encoded specification decodes if and only if its unbounded lists hold short strings and Create has rootfs and argv; it decodes to itself with the capability words cleared if not marked present |
| AbiRoundTrip.SignRoundTrip | userspace/krunc-abi/src/lib.rs:431-434 | A negative `oom_score_adj` survives the casts through `u32` |
| AbiRoundTrip.EncodeInjective | userspace/krunc-abi/src/lib.rs:374-458 | On such specifications, encoding is injective in specification and operation |
| AbiRoundTrip.ValidateGap | userspace/krunc-abi/src/lib.rs:349-372 | `validate` does not check all the decoder does: one 4097-byte masked path encodes and does not decode |
| AbiRoundTrip.NoLossyCast | userspace/krunc-abi/src/lib.rs:297-346 | In a successful encoding every count and length written as `u32` is the true one, and so is the section count |
| Utf8.ValidIff | userspace/krunc-abi/src/lib.rs:503-508 | A byte string is text if and only if it is the concatenation of the encodings of some Unicode scalar values, by number of bytes and six bits a byte |
| AbiMessages.SmallDecodes | userspace/krunc-abi/src/lib.rs:564-665 | A Create message of one root file system and one program, written out byte by byte: it decodes to them if both are at most 4096 bytes of UTF-8 and the first is not empty, and otherwise fails with TooLarge, Utf8 or Missing, by the first of these that applies |
| AbiMessages.FullEncodes | userspace/krunc-abi/src/lib.rs:374-458 | The exact bytes of the encoding of a specification in which all seventeen sections are present: magic, version, order, tags, lengths, little-endian numbers |
| AbiMessages.OnlyNonDefault | userspace/krunc-abi/src/lib.rs:374-458 | A section is present exactly if its fields are not those of the default specification; those of the capabilities exactly if they are marked present |
| AbiMessages.FaultyHeader | userspace/krunc-abi/src/lib.rs:565-582 | Over 256 KiB fails with TooLarge; else the first fault in the header decides the error: too short, bad magic, version, operation or section count |
| AbiMessages.NextSection | userspace/krunc-abi/src/lib.rs:585-646 | After good sections, one of a tag below 64 that was there fails with Duplicate; any other one's own error or value counts |
| AbiMessages.AllSections | userspace/krunc-abi/src/lib.rs:647-659 | After good sections, Create without a rootfs fails with Missing("rootfs"), then without a program with Missing("argv"), and nothing else fails |
| Wire.ManyReadsBack | userspace/krunc-abi/src/lib.rs:503-561 | Reading n items inverts writing n items, for any item that can be read back |
| Wire.FoldIsBuild | userspace/krunc-abi/src/lib.rs:585-646 | Applying sections in turn builds one record from the set of known fields |
| Wire.FoldPermutes | userspace/krunc-abi/src/lib.rs:585-646 | The record does not depend on the order of the sections, for any decoder of this shape |
| Wire.WalkSplit | userspace/krunc-abi/src/lib.rs:587-646 | Every successful walk over a buffer read frames that make up exactly what it consumed |
| KernelCodec.DecodeBlob | module/krunc.rs:828-927 | The kernel's cursor-based decoder computes its decoding function, and its list loops take exactly the turns counted by `DecodeTurns` |
| KernelProofs.KernelRefines | module/krunc.rs:828-927 | Every buffer of at most 16 KiB that the userspace decoder accepts is decoded by the kernel to the image of the same specification: NUL-terminated, lists cut to 31, id maps dropped |
| KernelProofs.CreateRefines | module/krunc.rs:939-981 | Accepted as Create, it passes `create_from_blob` and becomes the container it describes |
| KernelProofs.ExtensionRejected | module/krunc.rs:867-925 | No accepted buffer has an accepted strict extension |
| KernelProofs.PrefixRejected | module/krunc.rs:867-925 | No strict prefix of an accepted buffer is accepted |
| KernelProofs.OrderIndependent | module/krunc.rs:866-920 | Permuting the sections of an accepted buffer changes nothing |
| KernelProofs.UnknownIgnored | module/krunc.rs:866-920 | Inserting a section of an unknown, unseen tag, within bounds, changes nothing |
| KernelProofs.CopyRejected | module/krunc.rs:866-885 | Two sections of one tag below 64 are always rejected |
| KernelBounds.KernelTakesEncoded | module/krunc.rs:939-981 | Of the encoder's own Create buffers the kernel takes exactly those within 16 KiB whose unbounded strings are short and that name a rootfs and a program |
| AbiMessages.SmallStarts | module/krunc.rs:939-981 | The small message, byte by byte, starts exactly that program in that root file system with all other arguments at their defaults, whether or not its texts are UTF-8; without a root file system it is EINVAL |
| AbiMessages.KernelErrors | module/krunc.rs:828-981 | Every refusal of the kernel's decoding and its checks is EINVAL |
| KernelRecords.DecodedShaped | module/krunc.rs:745-823 | Whatever the buffer, a decoded record has at most 31 strings a list, 32 limits and 64 mounts, and every text ends in its terminator |
| KernelRecords.StartedShaped | module/krunc.rs:939-981 | What is started has 1 to 31 terminated arguments, a root file system and a host name |
| KernelBounds.DecodedFits | module/krunc.rs:745-823 | The text of a specification the kernel decodes, the terminator of each string included, is never longer than the buffer |
| AbiBounds.DecodedFits | userspace/krunc-abi/src/lib.rs:503-561 | Nor is that of a specification the userspace decoder returns |
| KernelBounds.SectionTurnsBounded | module/krunc.rs:745-823 | A list loop takes at most one turn for every four bytes of its payload, whatever count it is given |
| KernelBounds.WalkTurnsBounded | module/krunc.rs:866-920 | All list loops of a walk together take at most one turn for every four bytes, accepted or not |
| KernelBounds.DecodeTurnsBounded | module/krunc.rs:828-927 | And so do those of a whole decoding |
| Setup.Init.ContainerEntry | module/krunc.rs:1269-1510 | The init makes exactly the calls of its plan, stopping where a fatal call fails, for every pattern of answers |
| Setup.Init.ApplyMounts | module/krunc.rs:1164-1196 | Every configured mount is attempted in order, whatever fails |
| Setup.Init.ApplyDefaultDevices | module/krunc.rs:1211-1264 | The default nodes and links are made exactly when a fresh tmpfs is configured on /dev |
| Setup.Init.ApplySysctls | module/krunc.rs:1124-1162 | Every entry that splits is written, in order |
| Setup.Init.ApplyPathConfinement | module/krunc.rs:1076-1114 | A mask falls back to a read-only tmpfs, a read-only path is remounted only after its bind |
| SetupProofs.FailClosed | module/krunc.rs:1300-1460 | Exec succeeds only past the gate, with an argv, and after user-namespace credentials, rootfs bind, chroot and seal succeeded, where they are called for |
| SetupProofs.Otherwise | module/krunc.rs:1293-1298 | Every other end is a termination: doomed, with 0 and no other call; without argv, with -22; else right after a fatal call failed, with its error |
| SetupProofs.InOrder | module/krunc.rs:1300-1505 | An init that execs did the calls of its stages one stage after the other, nothing else, none left out |
| SetupProofs.EffectsInOrder | module/krunc.rs:1300-1505 | The calls of an init that execs come in the order in which they are due: host name, user-namespace credentials, rootfs bind, chroot, private tree, configured mounts, devices, sysctl files, masks, read-only paths, limits, seal, credentials, exec |
| SetupProofs.SysctlsBeforeConfinement | module/krunc.rs:1389-1400 | No sysctl file is written after a mask or read-only call, unless that same call is also configured as a mount |
| SetupProofs.PlayedExecs | module/krunc.rs:1424-1502 | The last calls are the successful seal, if the root is to be read-only, the credentials and exec, with none in between |
| SetupEffects.ExecutedIff | module/krunc.rs:1269-1510 | The traces of the inits that execute, exactly: with given answers an init executes with the trace t if and only if t carries these answers and is, call by call and field by field, the host name without its terminator, user-namespace credentials, a private tree and rootfs bind, chroot, a private tree, each configured mount after its directory, the eleven default nodes and links if a tmpfs is configured on /dev, each sysctl's value to the file of its name, masks with their fallback, read-only paths with their remount, each limit with its resource, soft and hard value, the OOM score, the seal, the credentials and exec |
| SetupEffects.StoppedAt | module/krunc.rs:1300-1505 | A started init that does not execute did all stages before one of the five that can fail, field by field the same, and stopped there with the failed call's error, or with -22 without a program |
| SetupEffects.LastCalls | module/krunc.rs:1448-1502 | Exec gets all arguments up to 32, else the first 32, and likewise the environment, or the four default entries if there is none; the call before it gets the capability sets, user, group and flag |
| ProgramPipeline.SpecificationArrives | module/krunc.rs:939-981 | Of a specification the kernel takes, the init gets each field: the first 31 of each list of strings, terminated, all limits and mounts, the five default namespaces if none is asked for, a host name or "krunc", and the two flag bits in their places |
| ProgramPipeline.ProgramExecuted | module/krunc.rs:1448-1502 | From the configuration to exec: the program gets the first 31 configured arguments and environment entries, and right before it the configured sets, user, group and no-new-privileges flag are applied |
| MountTree.KeptIff | module/krunc.rs:1164-1196 | A mount is still the one a lookup of its place reaches if and only if nothing was mounted on the place or above it later |
| MountTree.ShownIff | module/krunc.rs:1080-1113 | A place shows a mount if and only if nothing was mounted on it or above it later but binds of the place onto itself |
| SetupRoot.RootReadOnlyIff | module/krunc.rs:1424-1442 | The root of an init that execs is read-only if and only if that was asked for, or the last successful remount of "/" made it so, or it was so before and there was none |
| SetupRoot.RootAsConfigured | module/krunc.rs:1326-1347 | With no configured remount of "/": exactly if it was asked for, or the rootfs lay on a read-only mount |
| SetupRoot.RootPathReadOnly | module/krunc.rs:1098-1113 | A successful remount of "/" by the read-only paths makes the root read-only |
| SetupMounts.MountKept | module/krunc.rs:1164-1196 | A configured mount that succeeded is the one reached at exec if and only if no later mount, mask or bind on its place or above it succeeded |
| SetupMounts.MountInForce | module/krunc.rs:1164-1196 | With nothing later configured on its place or above, it is reached with its own source, type and flags; its options are in force if and only if its flags do not combine a bind with options |
| SetupConfinement.MountLost | module/krunc.rs:1098-1106 | A configured mount on or below a read-only path that was bound is no longer reached |
| SetupMounts.RbindRoIsWritable | userspace/krunc-oci/src/lib.rs:924-927 | So a mount with the options rbind and ro is not read-only |
| SetupMounts.RbindRoExample | userspace/krunc-oci/src/lib.rs:924-927 | A container whose only mount is such a bind executes with it writable, every call having succeeded |
| SetupConfinement.MaskAttempted | module/krunc.rs:1080-1096 | Each masked path is bound over with /dev/null or, where that fails, covered with an empty read-only tmpfs |
| SetupConfinement.HiddenIff | module/krunc.rs:1076-1114 | A place is hidden at exec if and only if some successful mask on it or above it was not lifted by a later bind, onto itself, of a directory properly above that mask |
| SetupConfinement.PathMasked | module/krunc.rs:1076-1114 | By the configuration: a masked path one of whose calls succeeded is hidden at exec if no read-only path is properly above it |
| SetupConfinement.HiddenAsConfigured | module/krunc.rs:1076-1114 | With every call succeeding: a place is hidden if and only if some masked path on it or above it has no read-only path properly above |
| SetupConfinement.MaskLifted | module/krunc.rs:1098-1106 | A place is not hidden if above every mask on it or above it a read-only path was bound |
| SetupConfinement.MaskExample | module/krunc.rs:1098-1106 | Masking /proc/kcore and making /proc read-only leaves /proc/kcore visible, every call having succeeded |
| SetupConfinement.ReadOnlyIff | module/krunc.rs:1098-1113 | A place on or below a bound read-only path is read-only at exec if and only if the remount after the last such bind succeeded |
| SetupConfinement.PathReadOnly | module/krunc.rs:1098-1113 | A read-only path, "/" included, of which both calls succeeded is read-only at exec unless a later one above it was bound and not remounted |
| SetupConfinement.NestedExample | module/krunc.rs:1098-1113 | With /proc/sys and /proc read-only and only the remount of /proc failing, /proc/sys is writable |
| PathPipeline.FirstMasked | module/krunc.rs:809-823 | From the configuration to exec: the masking stage tries exactly the first 31 masked paths |
| PathPipeline.FirstReadonly | module/krunc.rs:809-823 | And the next stage exactly the first 31 read-only paths |
| PathPipeline.MaskedIff | module/krunc.rs:809-823 | Of distinct masked paths the i-th is tried if and only if i is below 31 |
| PathPipeline.ManyMaskedTaken | userspace/krunc-abi/src/lib.rs:364-366 | A specification with 32 distinct masked paths encodes and is taken by the kernel |
| PathPipeline.LastMaskedDropped | module/krunc.rs:809-823 | And its 32nd masked path is never tried |
| Sysctl.TranslateSysctls | userspace/krunc-oci/src/lib.rs:736-748 | The sysctl block computes the translation, with the first failing entry as its error |
| SysctlProofs.RelPathIff | userspace/krunc-oci/src/lib.rs:857-874 | A name is accepted exactly if it is of the allowed characters and no component between dots and slashes is empty; the check for ".." never decides |
| SysctlProofs.BelowProcSys | userspace/krunc-oci/src/lib.rs:857-874 | The path resolves lexically to a strict descendant of /proc/sys, with no empty, "." or ".." component |
| SysctlProofs.NamespaceOwned | userspace/krunc-oci/src/lib.rs:842-851 | An accepted path is under net/ with a network namespace, or is one of the IPC paths with an IPC namespace |
| SysctlNames.EntryIff | userspace/krunc-oci/src/lib.rs:842-885 | One sysctl is accepted if and only if its name is of letters, digits and "./_-" with no empty component, starts with "net." with a network namespace or is "kernel.sem" or starts with "kernel.shm", "kernel.msg" or "fs.mqueue." with an IPC namespace, and its value has neither NUL nor line feed; the error names the name, or the value if only that is bad |
| SysctlNames.AcceptedIff | userspace/krunc-oci/src/lib.rs:736-748 | A table is accepted if and only if each entry is, and otherwise reported by its first bad one |
| SysctlNames.LinesOf | userspace/krunc-oci/src/lib.rs:738-748 | The strings of the specification are one "path=value" for each entry, every dot of the name a slash, in ascending order of path and value |
| SysctlNames.LeqIff | userspace/krunc-oci/src/lib.rs:747-747 | That order: a beginning comes first, else the smaller byte at the first difference |
| SysctlNames.ForwardExample | userspace/krunc-oci/src/lib.rs:1112-1116 | net.ipv4.ip_forward set to 1 with a network namespace becomes net/ipv4/ip_forward=1 |
| SysctlProofs.SplitFormatted | module/krunc.rs:1124-1162 | The kernel's split inverts the runtime's formatting |
| SysctlProofs.TranslationIsDeterministic | userspace/krunc-oci/src/lib.rs:738-748 | The specification does not depend on the order in which the map yields its entries |
| SysctlProofs.SortAscends | userspace/krunc-oci/src/lib.rs:747-747 | The entries end in ascending order |
| SysctlProofs.SortHas | userspace/krunc-oci/src/lib.rs:747-747 | Sorting keeps exactly the entries |
| SysctlWrites.SplitEntry | module/krunc.rs:1126-1149 | The loop for the first '=' and the slices around it compute the split |
| SysctlPipeline.EachEntryIsConfigured | module/krunc.rs:1124-1162 | Every entry the kernel decodes writes one configured sysctl, confined and with its exact value |
| SysctlPipeline.EachSysctlArrives | module/krunc.rs:809-823 | With at most 31 sysctls each of them reaches the kernel |
| SysctlPipeline.OnlySysctlsWritten | module/krunc.rs:1124-1162 | Whatever an init that execs wrote to a file was a configured sysctl, at its path and with its value |
| SysctlPipeline.EverySysctlWritten | module/krunc.rs:1124-1162 | And it tried to write every configured one, of up to 31 |
| SysctlPipeline.ValueLastWritten | module/krunc.rs:1124-1162 | The last value written to the file of a sysctl is its own if and only if no other sysctl of the same file has a greater one |
| SysctlPipeline.AllLastIff | userspace/krunc-oci/src/lib.rs:738-748 | Every sysctl has the last word on its file if and only if sysctls of one file agree |
| SysctlPipeline.NamesShareFiles | userspace/krunc-oci/src/lib.rs:857-874 | Two accepted names can name one file: net.a.b and net.a/b |
| SysctlPipeline.NamespacesHeld | userspace/krunc-oci/src/lib.rs:736-737 | The container is cloned into the namespaces its sysctls were checked against |
| SysctlPipeline.TranslatedIsText | userspace/krunc-oci/src/lib.rs:748-748 | Translated entries are valid UTF-8 if the values are |
| MountOptions.MountFlags | userspace/krunc-oci/src/lib.rs:542-603 | The fold over the options; `is_bind` exactly for bind or rbind |
| MountOptions.CheckMountOptions | userspace/krunc-oci/src/lib.rs:612-628 | Accepts exactly the lists of listed options; the error is one that is not |
| MountOptions.TablesAgree | userspace/krunc-oci/src/lib.rs:542-628 | The two tables of option strings agree: an option reaches the catch-all of the fold if and only if the check does not list it |
| MountOptions.ListedIff | userspace/krunc-oci/src/lib.rs:612-628 | An option is let through if and only if it is "defaults" or asks for the presence or absence of some flag |
| MountOptions.LastWriterWins | userspace/krunc-oci/src/lib.rs:542-603 | Each of the 64 bits is as the last option string that mentions it says |
| MountOptions.BindFlags | userspace/krunc-oci/src/lib.rs:591-599 | MS_BIND exactly for bind or rbind, MS_REC exactly for rbind, MS_SILENT never |
| MountPipeline.TranslateMount | userspace/krunc-oci/src/lib.rs:792-802 | A mount is translated exactly if its options are listed, a bind without a type |
| MountPipeline.MountArrives | module/krunc.rs:753-770 | A translated mount reaches the init's list at its index, its flags unchanged |
| MountPipeline.OptionsInForce | userspace/krunc-oci/src/lib.rs:542-603 | From the configured options to exec: on a mount that arrived, succeeded, and has nothing later on its place or above, an option is in force if and only if the last option that mentions it asks for it and none makes the mount a bind |
| Words.NumberBit | userspace/krunc-oci/src/lib.rs:542-603 | The bits of the `u64` are those of the word the options were folded into |
| Capabilities.CapsToMask | userspace/krunc-oci/src/lib.rs:505-512 | The mask's bits are exactly the named capabilities; the first unknown name is the error |
| Capabilities.MaskedHolds | module/krunc_helper.c:381-397 | The module drops the bits above the last capability and no others |
| Capabilities.NamedCapabilities | module/krunc_helper.c:381-428 | From the named capabilities through encoding, decoding and the last call before exec: each set then holds exactly the named ones if and only if that call succeeded or they were held before; without capabilities nothing changes |
| SetupProofs.CredsCanFail | module/krunc.rs:1448-1460 | For any answer of the credentials call an init executes right after it |
| Capabilities.NamesNotHeld | module/krunc.rs:1448-1460 | So a container can execute with capabilities its configuration does not name, if it held others before |
| Words.LowBits | module/krunc_helper.c:381-397 | Keeping the low bits of a word keeps just those |
| TextCommands.Trim | module/krunc.rs:546-562 | Cuts exactly the whitespace at both ends |
| TextCommands.TrimmedOnce | module/krunc.rs:546-562 | There is only one such cut |
| TextCommands.ParseI32 | module/krunc.rs:564-594 | Returns v if and only if the trimmed text is an optionally signed decimal denoting v and v fits |
| TextCommands.Accumulate | module/krunc.rs:577-586 | The accumulator's overflow checks never fail |
| TextCommands.RenderDenotes | module/krunc.rs:564-594 | Every integer's decimal rendering denotes it, so every `i32` is parsed back |
| TextCommands.ParseRunLine | module/krunc.rs:614-656 | The index loops compute the token fold |
| TextCommands.TokensOfSpread | module/krunc.rs:620-631 | Splitting undoes joining with any runs of whitespace |
| TextCommands.RunLineReadsBack | module/krunc.rs:614-656 | A rendered run line parses to host (or the default), rootfs and argv, the latter exec and the first 31 arguments in order |
| RunLine.AsksFor | module/krunc.rs:633-656 | For any tokens in any order and number: rootfs and program are the values of the last token with that key, EINVAL exactly if there is none of either; the host is that of the last "host" or "hostname", else "krunc"; the arguments are the first 31 "arg" values in order; no other token matters |
| RunLine.LineIsSpread | module/krunc.rs:620-631 | Every line is words each after its own run of whitespace |
| RunLine.LineAsksFor | module/krunc.rs:614-656 | And is answered as its words ask, however they are spaced |
| TextCommands.DrainInto | module/krunc.rs:929-935 | Moves all elements, in order, and leaves none |
| CliProtocol.StepKeeps | userspace/krunc-cli/src/main.rs:168-252 | Every step of every process keeps what makes a saved container prepared |
| CliProtocol.ReleasedIsPrepared | userspace/krunc-cli/src/main.rs:584-591 | Every init the kernel releases has its id maps written; and its cgroup guarded as asked if and only if no delete that could not open the device had disarmed it |
| CliProtocol.AllPrepared | userspace/krunc-cli/src/main.rs:584-591 | If every delete can open the device, every release is prepared |
| CliProtocol.RaceReleasesUnguarded | userspace/krunc-cli/src/main.rs:635-659 | From any state with a saved, registered container that opted in, a start and a delete that cannot open the device release it unguarded |
| CliProtocol.OptedInExists | userspace/krunc-cli/src/main.rs:168-252 | Such a state is reachable |
| CliRuns.SavedUntilRemoved | userspace/krunc-cli/src/main.rs:168-176 | Over any run: a saved container with no create of it under way, every command on it having read its state, keeps its state file, and every command on it keeps finding the same kernel id, until a step removes that file |
| CliRuns.CreatedIsSettled | userspace/krunc-cli/src/main.rs:168-252 | A create alone with its id leaves such a container |
| CliRuns.CreateRefused | userspace/krunc-cli/src/main.rs:174-176 | A create is begun if and only if its id is not saved |
| CliRuns.LateCreateTakesOver | userspace/krunc-cli/src/main.rs:168-252 | From any state in which a create passed that check and another container was then saved under the id, the create replaces its file, and the first stays registered |
| CliRuns.CreateCommand | userspace/krunc-cli/src/main.rs:168-252 | A whole create under a free id: one container more, registered, its maps written, its cgroup guarded as configured, saved under the id, and nothing else changed |
| CliRuns.FailedCreate | userspace/krunc-cli/src/main.rs:168-252 | A create that cannot write a map or cannot guard unregisters its container and saves nothing |
| CliRuns.HalfArmed | userspace/krunc-cli/src/main.rs:168-252 | Arming that fails after writing leaves the guard and takes the container back |
| CliRuns.StartCommand | userspace/krunc-cli/src/main.rs:584-591 | A whole start releases the saved container if it is registered, and changes nothing else |
| CliRuns.StartReleasesNothing | userspace/krunc-cli/src/main.rs:584-591 | Without the device, or after a kill from the text plane, it releases nothing |
| CliRuns.StateCommand | userspace/krunc-cli/src/main.rs:593-609 | A whole state command leaves the file as it was |
| CliRuns.DeleteCommand | userspace/krunc-cli/src/main.rs:635-659 | A whole delete unregisters the container, removes its guard and its file, and nothing else |
| CliRuns.DeleteWithoutDevice | userspace/krunc-cli/src/main.rs:635-659 | Without the device, and failing to disarm, it removes the file alone: the container stays registered and guarded, and no command finds it |
| CliRuns.RunCommand | userspace/krunc-cli/src/main.rs:358-388 | After its create a whole run releases the container and then unregisters it and removes its file, but not its guard |

## Left out

- JSON parsing, bundles and images, printing, exit annotations, signal names: the model starts from typed configuration values.
- Kernel internals (clone, exec, path lookup, credentials, kprobe set-up): steps, or calls with arbitrary answers.
- Allocation failure and faults copying from or to userspace: they would only add error branches.
- The `u64` id counter is unbounded, so its wrap-around is not modelled.
- Pids: `krunc_spawn` is assumed to return a pid that no live task, container, creation in progress or slot in use has. Reuse of a reaped pid that nothing refers to is covered.
- A task at its gate moves only on a gate read: a signal does not end `msleep` in kernel context, so KILL is a step without an effect of its own; on a started task its effect is an exit with any status.
- STATE is one step although it reads the task and then the watch table: deletion, the only thing that could take a code away, needs the lock STATE holds.
- The step systems hold the watch table as a map and the registry by id; the refinement lemmas of `WatchTable` and `Registry` connect those to the array and the vector.
- The OCI specification's own lifecycle errors: a second START succeeds and DELETE takes a running container, as in the code.
- The userspace `String` is a byte sequence; that Rust strings are valid UTF-8 is a hypothesis (`RustStrings`) of the round trip.
- SetupRoot.RootReadOnlyIff: assumes that a lookup of "/" stays at the root of the init and does not climb onto a mount over it, as the comment on the seal says (module/krunc.rs:1417-1421); a mount over "/" therefore hides nothing.
- MountTree.KeptIff: places are sequences of names, with empty ones and "." dropped; symbolic links and ".." are not followed. A recursive bind puts clones where it binds, and these count as other mounts.
- SetupMounts.MountInForce: what flags a bind inherits from its source is left out, and MS_MOVE counts as a new mount.
- SetupConfinement.HiddenIff: /dev/null is no mask of itself; a place is hidden as long as lookups of it meet a mask, whatever else may show the same file elsewhere.
- SetupProofs.FailClosed: says nothing about the result of `krunc_apply_creds`, which the code ignores, nor about process.user.
- SysctlPipeline.ValueLastWritten: speaks of writes whether they succeed or not, since the code goes on after a failed one.
- Capability names are an enumeration with a case for an unknown one, not strings.
- The order in which Rust sorts pairs of strings is modelled as insertion by the same ordering; the sort's algorithm is not.
- The loops over the default device tables are one loop over a list of calls.
- CliProtocol.ReleasedIsPrepared: containers have cgroups of their own and kernel ids are new; placing the init into its cgroup may fail with only a warning, so nothing is said about the init being in it, nor about hooks being attached.
- CliRuns.RunCommand: `run` without `--keep`.
- The command-line processes are step systems, not methods: what matters is how they interleave and that each may stop anywhere.
- BPF programs and their loaders, pty relay, cgroup files, status rendering, wait-for-exit, `krunc-bpf`, demos and scripts.
