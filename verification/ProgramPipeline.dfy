/** From the configuration to the program: what an init is started with, and what it
    executes under which identity and limits. */
module ProgramPipeline {
  import opened Bytes
  import opened Outcomes
  import opened KernelFormat
  import opened Setup
  import opened SetupProofs
  import opened SetupEffects
  import opened PathPipeline
  import A = AbiFormat
  import R = AbiRoundTrip
  import KernelBounds

  /** The first 31 texts, each with a terminator. */
  predicate First31(given: seq<bytes>, all: seq<bytes>) {
    && |given| == (if |all| <= 31 then |all| else 31)
    && forall i :: 0 <= i < |given| ==> given[i] == all[i] + [0]
  }

  predicate SameMount(given: MountSpec, m: A.Mount) {
    && given.destination == m.destination + [0] && given.fsType == m.fsType + [0]
    && given.source == m.source + [0] && given.flags == m.flags
  }

  predicate SameLists(args: ContainerArgs, spec: A.DomainSpec) {
    && First31(args.argv, spec.argv) && First31(args.envp, spec.env)
    && First31(args.masked, spec.maskedPaths) && First31(args.readonly, spec.readonlyPaths)
    && First31(args.sysctls, spec.sysctls)
    && args.rlimits == spec.rlimits
    && |args.mounts| == |spec.mounts|
    && forall i :: 0 <= i < |args.mounts| ==> SameMount(args.mounts[i], spec.mounts[i])
  }

  /** Without namespaces of its own a specification gets these: mount, UTS, IPC, PID and
      network. */
  predicate SameNamespaces(args: ContainerArgs, spec: A.DomainSpec) {
    && args.namespaces == (if spec.namespaces == 0 then 0x6C02_0000 else spec.namespaces)
    && (args.userns <==> spec.namespaces / 0x1000_0000 % 2 == 1)
  }

  predicate SameCaps(caps: CapSets, spec: A.DomainSpec) {
    && caps.present == spec.capsPresent
    && (spec.capsPresent ==>
          && caps.bounding == spec.capBounding && caps.effective == spec.capEffective
          && caps.permitted == spec.capPermitted && caps.inheritable == spec.capInheritable
          && caps.ambient == spec.capAmbient)
  }

  predicate SameIdentity(args: ContainerArgs, spec: A.DomainSpec) {
    && args.hostname == (if spec.hostname == [] then C("krunc") else spec.hostname + [0])
    && args.rootfs == spec.rootfs + [0]
    && args.uid == spec.uid && args.gid == spec.gid && args.oomScoreAdj == spec.oomScoreAdj
    && (args.noNewPrivs <==> spec.flags % 2 == 1) && (args.readonlyRootfs <==> spec.flags / 2 % 2 == 1)
  }

  /** A specification the kernel takes is what the init is started with, cut to the first
      31 strings of each list. */
  lemma SpecificationArrives(spec: A.DomainSpec, args: ContainerArgs)
    requires Taken(spec, args)
    ensures SameLists(args, spec) && SameNamespaces(args, spec) && SameCaps(args.caps, spec)
      && SameIdentity(args, spec)
  {
    hide A.Encode, CreateFromBlob, R.RustStrings;
    KernelBounds.KernelTakesEncoded(spec);
  }

  predicate Carries(spec: A.DomainSpec, creds: Call) {
    && creds.ApplyCreds? && SameCaps(creds.caps, spec) && creds.uid == spec.uid && creds.gid == spec.gid
    && (creds.noNewPrivs <==> spec.flags % 2 == 1)
  }

  predicate Runs(spec: A.DomainSpec, exec: Call) {
    && exec.Exec? && First31(exec.argv, spec.argv)
    && (if spec.env == [] then IsDefaultEnv(exec.envp) else First31(exec.envp, spec.env))
  }

  /** From the configuration to exec: the program gets the first 31 arguments and
      environment entries, and the call before exec the configured sets, user, group and
      flag. */
  lemma ProgramExecuted(spec: A.DomainSpec, args: ContainerArgs, answers: Answers)
    requires Taken(spec, args) && Executed(Trace(args, false, answers))
    ensures var t := Trace(args, false, answers);
      |t| >= 2 && Carries(spec, t[|t| - 2].call) && Runs(spec, t[|t| - 1].call)
  {
    hide Taken, Trace, Executed, SameNamespaces, SameCaps;
    SpecificationArrives(spec, args);
    LastCalls(args, answers);
  }
}
