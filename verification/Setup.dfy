/** `container_entry`: what the init does between its gate and `execve`, as the
    sequence of kernel calls it makes and how each answer is taken. */
module Setup {
  import opened Bytes
  import opened Outcomes
  import opened KernelFormat
  import SysctlWrites

  const MS_RDONLY: u64 := 1
  const MS_REMOUNT: u64 := 32
  const MS_BIND: u64 := 4096
  const MS_REC: u64 := 16384
  const MS_PRIVATE: u64 := 0x4_0000

  /** A NUL-terminated literal. */
  function C(text: string): bytes
    requires forall i | 0 <= i < |text| :: text[i] < 0x80 as char
  {
    ToCvec(Ascii(text))
  }

  const ROOT: bytes := [0x2F, 0]
  const DEV: bytes := [0x2F, 0x64, 0x65, 0x76, 0]
  const TMPFS: bytes := [0x74, 0x6D, 0x70, 0x66, 0x73, 0]

  datatype Call =
    | SetHostname(name: bytes)
    | UsernsCreds
    | Mount(src: Option<bytes>, dir: bytes, typ: Option<bytes>, flags: u64)
    | Chroot(path: bytes)
    | Mkdir(path: bytes)
    | Mknod(path: bytes, major: u32, minor: u32)
    | Symlink(path: bytes, target: bytes)
    | WriteFile(path: bytes, data: bytes)
    | SetRlimit(limit: Rlimit)
    | SetOomScore(adj: i32)
    | ApplyCreds(caps: CapSets, uid: u32, gid: u32, noNewPrivs: bool)
    | Exec(argv: seq<bytes>, envp: seq<bytes>)
    | Terminate(code: int)

  datatype Event = Event(call: Call, rc: int)

  /** What the code does with a call's answer. */
  datatype Reaction =
    | Ignore
    | Fatal
    | OnFailure(other: Call)
    | OnSuccess(next: Call)

  /** A call and what follows from its answer, or the end of the init. */
  datatype Act = Act(call: Call, reaction: Reaction) | Halt(code: int)

  /** The `n`-th kernel call answers `answers(n)`: zero is success. */
  type Answers = nat -> int

  function Perform(a: Act, answers: Answers, trace: seq<Event>): (seq<Event>, bool) {
    if a.Halt? then (trace + [Event(Terminate(a.code), 0)], false) else
    var rc := answers(|trace|);
    var t := trace + [Event(a.call, rc)];
    match a.reaction
    case Ignore => (t, true)
    case Fatal => if rc == 0 then (t, true) else (t + [Event(Terminate(rc), 0)], false)
    case OnFailure(c) => if rc == 0 then (t, true) else (t + [Event(c, answers(|t|))], true)
    case OnSuccess(c) => if rc != 0 then (t, true) else (t + [Event(c, answers(|t|))], true)
  }

  /** The trace after a plan, and whether the init got to its end. */
  function Play(plan: seq<Act>, answers: Answers, trace: seq<Event>): (seq<Event>, bool)
    decreases |plan|
  {
    if plan == [] then (trace, true) else
      var (t, on) := Perform(plan[0], answers, trace);
      if on then Play(plan[1..], answers, t) else (t, false)
  }

  lemma {:induction false} PlayConcat(p: seq<Act>, q: seq<Act>, answers: Answers, trace: seq<Event>)
    ensures Play(p + q, answers, trace) ==
      if Play(p, answers, trace).1 then Play(q, answers, Play(p, answers, trace).0) else Play(p, answers, trace)
    decreases |p|
  {
    hide Perform;
    if p == [] {
      assert p + q == q;
    } else {
      assert (p + q)[1..] == p[1..] + q;
      PlayConcat(p[1..], q, answers, Perform(p[0], answers, trace).0);
    }
  }

  lemma PlayOne(a: Act, answers: Answers, trace: seq<Event>)
    ensures Play([a], answers, trace) == Perform(a, answers, trace)
  {
  }

  // ---------------------------------------------------------------- plan

  function NonEmpty(c: bytes): Option<bytes> {
    if |c| > 1 then Some(c) else None
  }

  function MountActs(m: MountSpec): seq<Act> {
    if |m.destination| <= 1 then [] else
      (if |m.fsType| > 1 then [Act(Mkdir(m.destination), Ignore)] else [])
      + [Act(MountCall(m), Ignore)]
  }

  function MountCall(m: MountSpec): Call {
    Mount(NonEmpty(m.source), m.destination, NonEmpty(m.fsType), m.flags)
  }

  function SysctlActs(entry: bytes): seq<Act> {
    var w := SysctlWrites.Split(entry);
    if w.Some? then [Act(WriteFile(w.value.0, w.value.1), Ignore)] else []
  }

  /** "/dev/null" */
  function DevNull(): bytes {
    Path2([0x64, 0x65, 0x76], [0x6E, 0x75, 0x6C, 0x6C])
  }

  /** The NUL-terminated path of one name below "/", and of one below that. */
  function Path1(x: bytes): bytes {
    [0x2F] + x + [0]
  }

  function Path2(x: bytes, y: bytes): bytes {
    [0x2F] + x + [0x2F] + y + [0]
  }

  function MaskCall(p: bytes): Call {
    Mount(Some(DevNull()), p, None, MS_BIND)
  }

  function MaskElseCall(p: bytes): Call {
    Mount(Some(TMPFS), p, Some(TMPFS), MS_RDONLY)
  }

  function MaskActs(p: bytes): seq<Act> {
    if |p| <= 1 then [] else [Act(MaskCall(p), OnFailure(MaskElseCall(p)))]
  }

  function SelfBindCall(p: bytes): Call {
    Mount(Some(p), p, None, MS_BIND)
  }

  function ReadonlyCall(p: bytes): Call {
    Mount(None, p, None, MS_REMOUNT + MS_BIND + MS_RDONLY)
  }

  function ReadonlyActs(p: bytes): seq<Act> {
    if |p| <= 1 then [] else [Act(SelfBindCall(p), OnSuccess(ReadonlyCall(p)))]
  }

  function RlimitActs(r: Rlimit): seq<Act> {
    [Act(SetRlimit(r), Ignore)]
  }

  function LimitActs(rlimits: seq<Rlimit>, oom: Option<i32>): seq<Act> {
    Each(RlimitActs, rlimits) + (if oom.Some? then [Act(SetOomScore(oom.value), Ignore)] else [])
  }

  /** The acts for each element of a list, in order. */
  function Each<T>(acts: T -> seq<Act>, items: seq<T>): seq<Act> {
    if items == [] then [] else Each(acts, items[..|items| - 1]) + acts(items[|items| - 1])
  }

  function FreshDev(m: MountSpec): bool {
    m.destination == DEV && m.fsType == TMPFS
  }

  function DeviceActs(mounts: seq<MountSpec>): seq<Act> {
    if forall i :: 0 <= i < |mounts| ==> !FreshDev(mounts[i]) then [] else Each(CallAct, DefaultDevices())
  }

  function CallAct(c: Call): seq<Act> {
    [Act(c, Ignore)]
  }

  function DefaultDevices(): seq<Call> {
    [Mknod(C("/dev/null"), 1, 3), Mknod(C("/dev/zero"), 1, 5), Mknod(C("/dev/full"), 1, 7),
     Mknod(C("/dev/random"), 1, 8), Mknod(C("/dev/urandom"), 1, 9), Mknod(C("/dev/tty"), 5, 0),
     Symlink(C("/dev/fd"), C("/proc/self/fd")), Symlink(C("/dev/stdin"), C("/proc/self/fd/0")),
     Symlink(C("/dev/stdout"), C("/proc/self/fd/1")), Symlink(C("/dev/stderr"), C("/proc/self/fd/2")),
     Symlink(C("/dev/ptmx"), C("pts/ptmx"))]
  }

  const PRIVATE := Mount(None, ROOT, None, MS_REC + MS_PRIVATE)
  const SEAL := Mount(None, ROOT, None, MS_REMOUNT + MS_BIND + MS_RDONLY)

  /** The name without its terminator. */
  function HostCall(a: ContainerArgs): Call
    requires |a.hostname| > 1
  {
    SetHostname(a.hostname[..|a.hostname| - 1])
  }

  function BindRoot(a: ContainerArgs): Call {
    Mount(Some(a.rootfs), a.rootfs, None, MS_BIND + MS_REC)
  }

  function ExecCall(a: ContainerArgs): Call {
    Exec(Clip(a.argv, MAX_ARGS), if a.envp == [] then DefaultEnv() else Clip(a.envp, MAX_ARGS))
  }

  function DefaultEnv(): seq<bytes> {
    [C("PATH=/bin:/sbin:/usr/bin:/usr/sbin"), C("HOME=/"), C("TERM=linux"), C("container=krunc")]
  }

  function CredsCall(a: ContainerArgs): Call {
    ApplyCreds(a.caps, a.uid, a.gid, a.noNewPrivs)
  }

  /** The stages, in order: host name, user-namespace credentials, the rootfs as a mount of
      its own, chroot, a private tree, mounts, devices, sysctls, masks, read-only paths,
      limits, seal, credentials, exec. */
  function Stages(a: ContainerArgs): (s: seq<seq<Act>>)
    ensures |s| == 14
  {
    [ if |a.hostname| > 1 then [Act(HostCall(a), Ignore)] else [],
      if a.userns then [Act(UsernsCreds, Fatal)] else [],
      if a.readonlyRootfs then [Act(PRIVATE, Ignore), Act(BindRoot(a), Fatal)] else [],
      [Act(Chroot(a.rootfs), Fatal)],
      [Act(PRIVATE, Ignore)],
      Each(MountActs, a.mounts),
      DeviceActs(a.mounts),
      Each(SysctlActs, a.sysctls),
      Each(MaskActs, a.masked),
      Each(ReadonlyActs, a.readonly),
      LimitActs(a.rlimits, a.oomScoreAdj),
      if a.readonlyRootfs then [Act(SEAL, Fatal)] else [],
      [Act(CredsCall(a), Ignore)],
      if a.argv == [] then [Halt(-22)] else [Act(ExecCall(a), Fatal)] ]
  }

  function Join(s: seq<seq<Act>>): seq<Act> {
    if s == [] then [] else Join(s[..|s| - 1]) + s[|s| - 1]
  }

  function Plan(a: ContainerArgs, doomed: bool): seq<Act> {
    if doomed then [Halt(0)] else Join(Stages(a))
  }

  function Trace(a: ContainerArgs, doomed: bool, answers: Answers): seq<Event> {
    Play(Plan(a, doomed), answers, []).0
  }

  /** The first `k` stages. */
  function Upto(s: seq<seq<Act>>, k: nat, answers: Answers): (seq<Event>, bool)
    requires k <= |s|
  {
    Play(Join(s[..k]), answers, [])
  }

  lemma {:induction false} JoinAt(s: seq<seq<Act>>, k: nat)
    requires k <= |s|
    ensures exists rest :: Join(s) == Join(s[..k]) + rest
    decreases |s|
  {
    var n := |s|;
    if k == n {
      assert s[..n] == s;
      assert Join(s) == Join(s[..k]) + [];
    } else {
      JoinAt(s[..n - 1], k);
      assert s[..n - 1][..k] == s[..k];
      var rest :| Join(s[..n - 1]) == Join(s[..k]) + rest;
      assert Join(s) == Join(s[..k]) + (rest + s[n - 1]);
    }
  }

  /** One stage more; and if it stops, so does the whole. */
  lemma StageDone(s: seq<seq<Act>>, k: nat, answers: Answers)
    requires k < |s|
    ensures Upto(s, k + 1, answers) ==
      if Upto(s, k, answers).1 then Play(s[k], answers, Upto(s, k, answers).0) else Upto(s, k, answers)
    ensures !Upto(s, k + 1, answers).1 ==> Play(Join(s), answers, []) == Upto(s, k + 1, answers)
  {
    hide Play;
    assert s[..k + 1][..k] == s[..k];
    PlayConcat(Join(s[..k]), s[k], answers, []);
    JoinAt(s, k + 1);
    var rest :| Join(s) == Join(s[..k + 1]) + rest;
    PlayConcat(Join(s[..k + 1]), rest, answers, []);
  }

  // ------------------------------------------------------------ the init

  class Init {
    const answers: Answers
    var trace: seq<Event>

    constructor (answers: Answers)
      ensures this.answers == answers && trace == []
    {
      this.answers := answers;
      trace := [];
    }

    method Do(call: Call) returns (rc: int)
      modifies this
      ensures rc == answers(|old(trace)|) && trace == old(trace) + [Event(call, rc)]
    {
      rc := answers(|trace|);
      trace := trace + [Event(call, rc)];
    }

    /** `krunc_exit` does not return. */
    method Quit(code: int)
      modifies this
      ensures trace == old(trace) + [Event(Terminate(code), 0)]
    {
      trace := trace + [Event(Terminate(code), 0)];
    }

    method ApplyMounts(mounts: seq<MountSpec>)
      modifies this
      ensures (trace, true) == Play(Each(MountActs, mounts), answers, old(trace))
    {
      for i := 0 to |mounts|
        invariant (trace, true) == Play(Each(MountActs, mounts[..i]), answers, old(trace))
      {
        ghost var was := trace;
        var m := mounts[i];
        EachSnoc(MountActs, mounts, i, answers, old(trace));
        PlayOne(Act(Mkdir(m.destination), Ignore), answers, was);
        PlayConcat([Act(Mkdir(m.destination), Ignore)], [Act(MountCall(m), Ignore)], answers, was);
        if |m.destination| <= 1 {
          continue;
        }
        if |m.fsType| > 1 {
          var _ := Do(Mkdir(m.destination));
        }
        PlayOne(Act(MountCall(m), Ignore), answers, trace);
        var _ := Do(MountCall(m));
      }
      assert mounts[..|mounts|] == mounts;
    }

    method ApplyDefaultDevices(mounts: seq<MountSpec>)
      modifies this
      ensures (trace, true) == Play(DeviceActs(mounts), answers, old(trace))
    {
      var freshDev := false;
      for i := 0 to |mounts|
        invariant freshDev == exists j :: 0 <= j < i && FreshDev(mounts[j])
      {
        if mounts[i].destination == DEV && mounts[i].fsType == TMPFS {
          freshDev := true;
          break;
        }
      }
      if !freshDev {
        return;
      }
      var calls := DefaultDevices();
      for i := 0 to |calls|
        invariant (trace, true) == Play(Each(CallAct, calls[..i]), answers, old(trace))
      {
        EachSnoc(CallAct, calls, i, answers, old(trace));
        PlayOne(Act(calls[i], Ignore), answers, trace);
        var _ := Do(calls[i]);
      }
      assert calls[..|calls|] == calls;
    }

    method ApplySysctls(sysctls: seq<bytes>)
      modifies this
      ensures (trace, true) == Play(Each(SysctlActs, sysctls), answers, old(trace))
    {
      for i := 0 to |sysctls|
        invariant (trace, true) == Play(Each(SysctlActs, sysctls[..i]), answers, old(trace))
      {
        EachSnoc(SysctlActs, sysctls, i, answers, old(trace));
        var w := SysctlWrites.SplitEntry(sysctls[i]);
        if w.Some? {
          PlayOne(Act(WriteFile(w.value.0, w.value.1), Ignore), answers, trace);
          var _ := Do(WriteFile(w.value.0, w.value.1));
        }
      }
      assert sysctls[..|sysctls|] == sysctls;
    }

    method ApplyPathConfinement(masked: seq<bytes>, readonly: seq<bytes>)
      modifies this
      ensures Play(Each(MaskActs, masked), answers, old(trace)).1
      ensures (trace, true) ==
        Play(Each(ReadonlyActs, readonly), answers, Play(Each(MaskActs, masked), answers, old(trace)).0)
    {
      for i := 0 to |masked|
        invariant (trace, true) == Play(Each(MaskActs, masked[..i]), answers, old(trace))
      {
        EachSnoc(MaskActs, masked, i, answers, old(trace));
        var p := masked[i];
        if |p| <= 1 {
          continue;
        }
        PlayOne(MaskActs(p)[0], answers, trace);
        var rc := Do(Mount(Some(DevNull()), p, None, MS_BIND));
        if rc != 0 {
          rc := Do(Mount(Some(TMPFS), p, Some(TMPFS), MS_RDONLY));
        }
      }
      assert masked[..|masked|] == masked;
      ghost var was := trace;
      for i := 0 to |readonly|
        invariant (trace, true) == Play(Each(ReadonlyActs, readonly[..i]), answers, was)
      {
        EachSnoc(ReadonlyActs, readonly, i, answers, was);
        var p := readonly[i];
        if |p| <= 1 {
          continue;
        }
        PlayOne(ReadonlyActs(p)[0], answers, trace);
        var rc := Do(Mount(Some(p), p, None, MS_BIND));
        if rc == 0 {
          rc := Do(Mount(None, p, None, MS_REMOUNT + MS_BIND + MS_RDONLY));
        }
      }
      assert readonly[..|readonly|] == readonly;
    }

    method ApplyLimits(rlimits: seq<Rlimit>, oom: Option<i32>)
      modifies this
      ensures (trace, true) == Play(LimitActs(rlimits, oom), answers, old(trace))
    {
      for i := 0 to |rlimits|
        invariant (trace, true) == Play(Each(RlimitActs, rlimits[..i]), answers, old(trace))
      {
        EachSnoc(RlimitActs, rlimits, i, answers, old(trace));
        PlayOne(Act(SetRlimit(rlimits[i]), Ignore), answers, trace);
        var _ := Do(SetRlimit(rlimits[i]));
      }
      assert rlimits[..|rlimits|] == rlimits;
      PlayConcat(Each(RlimitActs, rlimits), if oom.Some? then [Act(SetOomScore(oom.value), Ignore)] else [],
        answers, old(trace));
      if oom.Some? {
        PlayOne(Act(SetOomScore(oom.value), Ignore), answers, trace);
        var _ := Do(SetOomScore(oom.value));
      }
    }

    /** Given what the gate read last. */
    method ContainerEntry(a: ContainerArgs, doomed: bool)
      requires trace == []
      modifies this
      ensures trace == Trace(a, doomed, answers)
    {
      hide Play, Stages, Join, Upto;
      if doomed {
        PlayOne(Halt(0), answers, trace);
        Quit(0);
        return;
      }
      StageNone(Stages(a), answers);
      var on := Enter(a);
      if on {
        Furnish(a);
        Finish(a);
      }
    }

    /** Host name, credentials, rootfs bind, chroot, private tree. */
    method Enter(a: ContainerArgs) returns (on: bool)
      requires (trace, true) == Upto(Stages(a), 0, answers)
      modifies this
      ensures if on then (trace, true) == Upto(Stages(a), 5, answers) else trace == Trace(a, false, answers)
    {
      hide Play, Stages, Each, Join, Upto;
      StagesBegin(a);
      PlayNone(answers);
      ghost var s, was := Stages(a), trace;
      if |a.hostname| > 1 {
        PlayOne(Act(HostCall(a), Ignore), answers, was);
        var _ := Do(HostCall(a));
      }
      Stage(s, 0, answers, was, trace, true);

      was := trace;
      PlayOne(Act(UsernsCreds, Fatal), answers, was);
      if a.userns {
        var rc := Do(UsernsCreds);
        if rc != 0 {
          Quit(rc);
          Stage(s, 1, answers, was, trace, false);
          return false;
        }
      }
      Stage(s, 1, answers, was, trace, true);

      was := trace;
      PlayTwo(Act(PRIVATE, Ignore), Act(BindRoot(a), Fatal), answers, was);
      if a.readonlyRootfs {
        var _ := Do(PRIVATE);
        var rc := Do(BindRoot(a));
        if rc != 0 {
          Quit(rc);
          Stage(s, 2, answers, was, trace, false);
          return false;
        }
      }
      Stage(s, 2, answers, was, trace, true);

      was := trace;
      PlayOne(Act(Chroot(a.rootfs), Fatal), answers, was);
      var rc := Do(Chroot(a.rootfs));
      if rc != 0 {
        Quit(rc);
        Stage(s, 3, answers, was, trace, false);
        return false;
      }
      Stage(s, 3, answers, was, trace, true);

      was := trace;
      PlayOne(Act(PRIVATE, Ignore), answers, was);
      rc := Do(PRIVATE);
      Stage(s, 4, answers, was, trace, true);
      on := true;
    }

    /** Mounts, devices, sysctls, masked and read-only paths, limits. */
    method Furnish(a: ContainerArgs)
      requires (trace, true) == Upto(Stages(a), 5, answers)
      modifies this
      ensures (trace, true) == Upto(Stages(a), 11, answers)
    {
      hide Play, Stages, Each, Join, Upto;
      StagesMiddle(a);
      ghost var s, was := Stages(a), trace;
      ApplyMounts(a.mounts);
      Stage(s, 5, answers, was, trace, true);
      was := trace;
      ApplyDefaultDevices(a.mounts);
      Stage(s, 6, answers, was, trace, true);
      was := trace;
      ApplySysctls(a.sysctls);
      Stage(s, 7, answers, was, trace, true);
      was := trace;
      ApplyPathConfinement(a.masked, a.readonly);
      ghost var masked := Play(Each(MaskActs, a.masked), answers, was).0;
      Stage(s, 8, answers, was, masked, true);
      Stage(s, 9, answers, masked, trace, true);
      was := trace;
      ApplyLimits(a.rlimits, a.oomScoreAdj);
      Stage(s, 10, answers, was, trace, true);
    }

    /** Seal, credentials, exec. */
    method Finish(a: ContainerArgs)
      requires (trace, true) == Upto(Stages(a), 11, answers)
      modifies this
      ensures trace == Trace(a, false, answers)
    {
      hide Play, Stages, Each, Join, Upto;
      StagesEnd(a);
      PlayNone(answers);
      ghost var s, was := Stages(a), trace;
      var rc;
      PlayOne(Act(SEAL, Fatal), answers, was);
      if a.readonlyRootfs {
        rc := Do(SEAL);
        if rc != 0 {
          Quit(rc);
          Stage(s, 11, answers, was, trace, false);
          return;
        }
      }
      Stage(s, 11, answers, was, trace, true);

      was := trace;
      PlayOne(Act(CredsCall(a), Ignore), answers, was);
      rc := Do(CredsCall(a));
      Stage(s, 12, answers, was, trace, true);

      was := trace;
      if a.argv == [] {
        PlayOne(Halt(-22), answers, was);
        Quit(-22);
        Stage(s, 13, answers, was, trace, false);
        return;
      }
      PlayOne(Act(ExecCall(a), Fatal), answers, was);
      rc := Do(ExecCall(a));
      if rc != 0 {
        Quit(rc);
      }
      Stage(s, 13, answers, was, trace, rc == 0);
    }
  }

  lemma StagesBegin(a: ContainerArgs)
    ensures var s := Stages(a);
      && s[0] == (if |a.hostname| > 1 then [Act(HostCall(a), Ignore)] else [])
      && s[1] == (if a.userns then [Act(UsernsCreds, Fatal)] else [])
      && s[2] == (if a.readonlyRootfs then [Act(PRIVATE, Ignore), Act(BindRoot(a), Fatal)] else [])
      && s[3] == [Act(Chroot(a.rootfs), Fatal)]
      && s[4] == [Act(PRIVATE, Ignore)]
  {
  }

  lemma StagesMiddle(a: ContainerArgs)
    ensures var s := Stages(a);
      && s[5] == Each(MountActs, a.mounts)
      && s[6] == DeviceActs(a.mounts)
      && s[7] == Each(SysctlActs, a.sysctls)
      && s[8] == Each(MaskActs, a.masked)
      && s[9] == Each(ReadonlyActs, a.readonly)
      && s[10] == LimitActs(a.rlimits, a.oomScoreAdj)
  {
  }

  lemma StagesEnd(a: ContainerArgs)
    ensures var s := Stages(a);
      && s[11] == (if a.readonlyRootfs then [Act(SEAL, Fatal)] else [])
      && s[12] == [Act(CredsCall(a), Ignore)]
      && s[13] == (if a.argv == [] then [Halt(-22)] else [Act(ExecCall(a), Fatal)])
  {
  }

  lemma PlayNone(answers: Answers)
    ensures forall t :: Play([], answers, t) == (t, true)
  {
  }

  lemma PlayTwo(a: Act, b: Act, answers: Answers, trace: seq<Event>)
    ensures Play([a, b], answers, trace) ==
      if Perform(a, answers, trace).1 then Perform(b, answers, Perform(a, answers, trace).0) else Perform(a,
        answers, trace)
  {
    assert [a, b] == [a] + [b];
    PlayConcat([a], [b], answers, trace);
    PlayOne(a, answers, trace);
    PlayOne(b, answers, Perform(a, answers, trace).0);
  }

  lemma StageNone(s: seq<seq<Act>>, answers: Answers)
    ensures Upto(s, 0, answers) == ([], true)
  {
  }

  lemma Stage(s: seq<seq<Act>>, k: nat, answers: Answers, before: seq<Event>, after: seq<Event>, on: bool)
    requires k < |s| && Upto(s, k, answers) == (before, true) && Play(s[k], answers, before) == (after, on)
    ensures Upto(s, k + 1, answers) == (after, on)
    ensures k + 1 == |s| || !on ==> Play(Join(s), answers, []) == (after, on)
  {
    hide Play, Join;
    StageDone(s, k, answers);
    assert s[..|s|] == s;
  }

  lemma EachSnoc<T>(acts: T -> seq<Act>, items: seq<T>, i: nat, answers: Answers, trace: seq<Event>)
    requires i < |items|
    ensures Each(acts, items[..i + 1]) == Each(acts, items[..i]) + acts(items[i])
    ensures Play(Each(acts, items[..i + 1]), answers, trace) ==
      if Play(Each(acts, items[..i]), answers, trace).1
      then Play(acts(items[i]), answers, Play(Each(acts, items[..i]), answers, trace).0)
      else Play(Each(acts, items[..i]), answers, trace)
  {
    assert items[..i + 1][..i] == items[..i];
    PlayConcat(Each(acts, items[..i]), acts(items[i]), answers, trace);
  }
}
