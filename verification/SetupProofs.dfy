/** Setup is fail-closed and ordered, and what it leaves in the mount table, for
    every pattern of kernel-call failures. */
module SetupProofs {
  import opened Bytes
  import opened Outcomes
  import opened KernelFormat
  import opened Setup

  // -------------------------------------------------- what a plan performs

  /** This act was performed between two points of the trace; if it is a fatal one, it
      succeeded. */
  ghost predicate Performed(a: Act, t: seq<Event>, from: nat) {
    a.Act? && exists n :: from <= n < |t| && t[n].call == a.call && (a.reaction.Fatal? ==> t[n].rc == 0)
  }

  predicate Mentions(a: Act, c: Call) {
    a.Act? && (a.call == c || a.reaction == OnFailure(c) || a.reaction == OnSuccess(c))
  }

  ghost predicate Planned(plan: seq<Act>, c: Call) {
    exists a :: a in plan && Mentions(a, c)
  }

  lemma PlannedMore(plan: seq<Act>, c: Call)
    requires plan != [] && Planned(plan[1..], c)
    ensures Planned(plan, c)
  {
    var a :| a in plan[1..] && Mentions(a, c);
    assert a in plan;
  }

  lemma PerformedSooner(a: Act, t: seq<Event>, later: nat, from: nat)
    requires Performed(a, t, later) && from <= later
    ensures Performed(a, t, from)
  {
  }

  /** A plan that is played to its end performs each of its acts and nothing else. */
  lemma {:induction false} PlayedOut(plan: seq<Act>, answers: Answers, trace: seq<Event>)
    requires Play(plan, answers, trace).1
    ensures var t := Play(plan, answers, trace).0;
      && trace <= t
      && (forall a :: a in plan ==> Performed(a, t, |trace|))
      && (forall n :: |trace| <= n < |t| ==> Planned(plan, t[n].call))
    decreases |plan|
  {
    if plan != [] {
      var u := Perform(plan[0], answers, trace).0;
      PlayedOut(plan[1..], answers, u);
      var t := Play(plan, answers, trace).0;
      assert t[|trace|] == u[|trace|];
      forall a | a in plan
        ensures Performed(a, t, |trace|)
      {
        if a in plan[1..] {
          PerformedSooner(a, t, |u|, |trace|);
        }
      }
      forall n | |trace| <= n < |t|
        ensures Planned(plan, t[n].call)
      {
        if n < |u| {
          assert t[n] == u[n] && Mentions(plan[0], u[n].call);
        } else {
          PlannedMore(plan, t[n].call);
        }
      }
    }
  }

  /** A plan that is not played to its end terminates the init on the spot, on a failed
      fatal call or a stop. */
  lemma {:induction false} CutShort(plan: seq<Act>, answers: Answers, trace: seq<Event>) returns (k: nat)
    requires !Play(plan, answers, trace).1
    ensures k < |plan| && Play(plan[..k], answers, trace).1
    ensures var (t, u) := (Play(plan, answers, trace).0, Play(plan[..k], answers, trace).0);
      && t == Perform(plan[k], answers, u).0
      && (plan[k].Halt? || (plan[k].reaction.Fatal? && answers(|u|) != 0))
    decreases |plan|
  {
    var u := Perform(plan[0], answers, trace).0;
    if Perform(plan[0], answers, trace).1 {
      k := CutShort(plan[1..], answers, u);
      k := k + 1;
      assert plan[..k][1..] == plan[1..][..k - 1];
    } else {
      k := 0;
    }
  }

  // ------------------------------------------------------------ main results

  predicate Executed(t: seq<Event>) {
    t != [] && t[|t| - 1].call.Exec? && t[|t| - 1].rc == 0
  }

  lemma {:induction false} InJoin(s: seq<seq<Act>>, k: nat, a: Act)
    requires k < |s| && a in s[k]
    ensures a in Join(s)
    decreases |s|
  {
    if k < |s| - 1 {
      InJoin(s[..|s| - 1], k, a);
    }
  }

  predicate Ran(t: seq<Event>, c: Call) {
    exists n :: 0 <= n < |t| && t[n] == Event(c, 0)
  }

  lemma RanFatal(a: ContainerArgs, answers: Answers, k: nat, c: Call)
    requires k < 14 && Act(c, Fatal) in Stages(a)[k] && Play(Join(Stages(a)), answers, []).1
    ensures Ran(Trace(a, false, answers), c)
  {
    hide Play, Stages, Join;
    InJoin(Stages(a), k, Act(c, Fatal));
    PlayedOut(Join(Stages(a)), answers, []);
    assert Performed(Act(c, Fatal), Trace(a, false, answers), 0);
  }

  lemma PlanEnds(a: ContainerArgs, doomed: bool, answers: Answers)
    ensures var (t, on) := Play(Plan(a, doomed), answers, []);
      if on then !doomed && a.argv != [] else t != [] && t[|t| - 1].call.Terminate?
  {
    var plan := Plan(a, doomed);
    if !Play(plan, answers, []).1 {
      hide Play;
      hide Plan;
      var k := CutShort(plan, answers, []);
    } else if doomed {
      PlayOne(Halt(0), answers, []);
    } else if a.argv == [] {
      hide Play, Join;
      StageDone(Stages(a), 13, answers);
      StagesEnd(a);
      PlayOne(Halt(-22), answers, Upto(Stages(a), 13, answers).0);
      UptoAll(Stages(a), answers);
    }
  }

  lemma UptoAll(s: seq<seq<Act>>, answers: Answers)
    ensures Upto(s, |s|, answers) == Play(Join(s), answers, [])
  {
    assert s[..|s|] == s;
  }

  /** Exec is reached only past the gate, with an argument vector, and after the
      credentials of a user namespace, the chroot, and a read-only rootfs's bind and
      seal all succeeded; whatever else fails. */
  lemma FailClosed(a: ContainerArgs, doomed: bool, answers: Answers)
    requires Executed(Trace(a, doomed, answers))
    ensures !doomed && a.argv != []
    ensures var t := Trace(a, doomed, answers);
      && (a.userns ==> Ran(t, UsernsCreds))
      && (a.readonlyRootfs ==> Ran(t, BindRoot(a)) && Ran(t, SEAL))
      && Ran(t, Chroot(a.rootfs))
  {
    hide Play, Join, Stages;
    PlanEnds(a, doomed, answers);
    StagesBegin(a);
    StagesEnd(a);
    RanFatal(a, answers, 3, Chroot(a.rootfs));
    if a.userns {
      RanFatal(a, answers, 1, UsernsCreds);
    }
    if a.readonlyRootfs {
      RanFatal(a, answers, 2, BindRoot(a));
      RanFatal(a, answers, 11, SEAL);
    }
  }

  // ------------------------------------------------------- every other end

  predicate FatalCall(a: ContainerArgs, c: Call) {
    (a.userns && c == UsernsCreds) || (a.readonlyRootfs && (c == BindRoot(a) || c == SEAL))
    || c == Chroot(a.rootfs) || (a.argv != [] && c == ExecCall(a))
  }

  ghost predicate Allowed(a: ContainerArgs, x: Act) {
    if x.Halt? then a.argv == [] && x.code == -22 else x.reaction.Fatal? ==> FatalCall(a, x.call)
  }

  predicate Plain(acts: seq<Act>) {
    forall x :: x in acts ==> x.Act? && !x.reaction.Fatal?
  }

  lemma {:induction false} EachAllowed<T>(a: ContainerArgs, acts: T -> seq<Act>, items: seq<T>)
    requires forall i: T :: Plain(acts(i))
    ensures forall x :: x in Each(acts, items) ==> Allowed(a, x)
  {
    if items != [] {
      var last := items[|items| - 1];
      EachAllowed(a, acts, items[..|items| - 1]);
      forall x | x in Each(acts, items)
        ensures Allowed(a, x)
      {
        assert Plain(acts(last));
        assert x in acts(last) || x in Each(acts, items[..|items| - 1]);
      }
    }
  }

  lemma {:induction false} JoinAllowed(a: ContainerArgs, s: seq<seq<Act>>)
    requires forall k, x :: 0 <= k < |s| && x in s[k] ==> Allowed(a, x)
    ensures forall x :: x in Join(s) ==> Allowed(a, x)
    decreases |s|
  {
    if s != [] {
      var r := s[..|s| - 1];
      forall k, x | 0 <= k < |r| && x in r[k]
        ensures Allowed(a, x)
      {
        assert x in s[k];
      }
      JoinAllowed(a, r);
    }
  }

  lemma StagesAllowed(a: ContainerArgs, k: nat, x: Act)
    requires k < 14 && x in Stages(a)[k]
    ensures Allowed(a, x)
  {
    hide Stages, Each;
    if k < 5 {
      StagesBegin(a);
    } else if k < 11 {
      StagesMiddle(a);
      EachAllowed(a, MountActs, a.mounts);
      EachAllowed(a, CallAct, DefaultDevices());
      EachAllowed(a, SysctlActs, a.sysctls);
      EachAllowed(a, MaskActs, a.masked);
      EachAllowed(a, ReadonlyActs, a.readonly);
      EachAllowed(a, RlimitActs, a.rlimits);
    } else {
      StagesEnd(a);
    }
  }

  /** An init that does not exec terminates: doomed, with 0 and no other call; without
      an argument vector, with -EINVAL; otherwise right after one of the fatal calls
      failed, with its error. */
  lemma Otherwise(a: ContainerArgs, doomed: bool, answers: Answers)
    requires !Executed(Trace(a, doomed, answers))
    ensures var t := Trace(a, doomed, answers);
      && t != [] && t[|t| - 1].call.Terminate?
      && (doomed ==> t == [Event(Terminate(0), 0)])
      && var code := t[|t| - 1].call.code;
         doomed || (a.argv == [] && code == -22)
         || (|t| >= 2 && FatalCall(a, t[|t| - 2].call) && t[|t| - 2].rc == code != 0)
  {
    hide Play, Join, Stages;
    if doomed {
      PlayOne(Halt(0), answers, []);
    } else {
      var plan := Join(Stages(a));
      if Play(plan, answers, []).1 {
        PlayedExecs(a, answers);
        assert false;
      }
      var k := CutShort(plan, answers, []);
      forall j, x | 0 <= j < 14 && x in Stages(a)[j]
        ensures Allowed(a, x)
      {
        StagesAllowed(a, j, x);
      }
      JoinAllowed(a, Stages(a));
      assert plan[k] in plan;
    }
  }

  /** An init that is not stopped ends by sealing its root, if it is to be read-only,
      setting its credentials and executing, with no call in between. */
  lemma PlayedExecs(a: ContainerArgs, answers: Answers)
    requires Play(Join(Stages(a)), answers, []).1
    ensures var t := Trace(a, false, answers);
      var n := |Upto(Stages(a), 12, answers).0|;
      && Executed(t) && |t| == n + 2 && Upto(Stages(a), 12, answers).0 <= t
      && t[n].call == CredsCall(a) && t[n + 1].call == ExecCall(a)
      && (a.readonlyRootfs ==> n > 0 && t[n - 1] == Event(SEAL, 0))
  {
    hide Play, Join, Stages;
    PlanEnds(a, false, answers);
    var s := Stages(a);
    UptoAll(s, answers);
    StageDone(s, 11, answers);
    StageDone(s, 12, answers);
    StageDone(s, 13, answers);
    StagesEnd(a);
    PlayOne(Act(SEAL, Fatal), answers, Upto(s, 11, answers).0);
    PlayOne(Act(CredsCall(a), Ignore), answers, Upto(s, 12, answers).0);
    PlayOne(Act(ExecCall(a), Fatal), answers, Upto(s, 13, answers).0);
  }

  // ------------------------------------------------------------ the order

  lemma {:induction false} UptoOn(s: seq<seq<Act>>, k: nat, answers: Answers)
    requires k <= |s| && Play(Join(s), answers, []).1
    ensures Upto(s, k, answers).1
    decreases |s| - k
  {
    hide Play, Join;
    if k == |s| {
      UptoAll(s, answers);
    } else {
      UptoOn(s, k + 1, answers);
      StageDone(s, k, answers);
    }
  }

  lemma {:induction false} UptoPrefix(s: seq<seq<Act>>, k: nat, answers: Answers)
    requires k <= |s| && Play(Join(s), answers, []).1
    ensures Upto(s, k, answers).0 <= Play(Join(s), answers, []).0
    decreases |s| - k
  {
    hide Play, Join;
    UptoAll(s, answers);
    if k < |s| {
      UptoOn(s, k, answers);
      UptoOn(s, k + 1, answers);
      StageDone(s, k, answers);
      PlayedOut(s[k], answers, Upto(s, k, answers).0);
      UptoPrefix(s, k + 1, answers);
    }
  }

  /** An init that execs performed its stages one after the other: the events of the
      `k`-th lie between those of the ones before and after, they are what the stage
      calls for and nothing else, and none of its acts is left out. */
  lemma InOrder(a: ContainerArgs, answers: Answers, k: nat)
    requires Executed(Trace(a, false, answers)) && k < 14
    ensures var s, t := Stages(a), Trace(a, false, answers);
      var (before, after) := (Upto(s, k, answers).0, Upto(s, k + 1, answers).0);
      && before <= after <= t
      && (forall x :: x in s[k] ==> Performed(x, after, |before|))
      && (forall n :: |before| <= n < |after| ==> Planned(s[k], after[n].call))
      && (k == 13 ==> after == t)
  {
    hide Play, Join, Stages;
    var s := Stages(a);
    PlanEnds(a, false, answers);
    UptoOn(s, k, answers);
    UptoOn(s, k + 1, answers);
    UptoPrefix(s, k + 1, answers);
    StageDone(s, k, answers);
    PlayedOut(s[k], answers, Upto(s, k, answers).0);
    UptoAll(s, answers);
  }

  /** The stages in which a call is due. Only a mount may be due in several, if it is
      configured as what another stage does anyway. */
  predicate DueAt(a: ContainerArgs, c: Call, k: nat) {
    match c
    case SetHostname(_) => k == 0
    case UsernsCreds => k == 1
    case Chroot(_) => k == 3
    case Mkdir(_) => k == 5
    case Mknod(_, _, _) => k == 6
    case Symlink(_, _) => k == 6
    case WriteFile(_, _) => k == 7
    case SetRlimit(_) => k == 10
    case SetOomScore(_) => k == 10
    case ApplyCreds(_, _, _, _) => k == 12
    case Exec(_, _) => k == 13
    case Terminate(_) => false
    case Mount(_, _, _, _) =>
      || (k == 2 && a.readonlyRootfs && (c == PRIVATE || c == BindRoot(a)))
      || (k == 4 && c == PRIVATE)
      || (k == 5 && exists m :: m in a.mounts && c == MountCall(m))
      || (k == 8 && exists p :: p in a.masked && (c == MaskCall(p) || c == MaskElseCall(p)))
      || (k == 9 && exists p :: p in a.readonly && (c == SelfBindCall(p) || c == ReadonlyCall(p)))
      || (k == 11 && a.readonlyRootfs && c == SEAL)
  }

  predicate OnTime(a: ContainerArgs, x: Act, k: nat) {
    x.Act? ==>
      && DueAt(a, x.call, k)
      && (x.reaction.OnFailure? ==> DueAt(a, x.reaction.other, k))
      && (x.reaction.OnSuccess? ==> DueAt(a, x.reaction.next, k))
  }

  predicate AllOnTime(a: ContainerArgs, acts: seq<Act>, k: nat) {
    forall x :: x in acts ==> OnTime(a, x, k)
  }

  lemma {:induction false} EachOnTime<T>(a: ContainerArgs, acts: T -> seq<Act>, items: seq<T>, k: nat)
    requires forall i :: 0 <= i < |items| ==> AllOnTime(a, acts(items[i]), k)
    ensures AllOnTime(a, Each(acts, items), k)
  {
    if items != [] {
      EachOnTime(a, acts, items[..|items| - 1], k);
      assert AllOnTime(a, acts(items[|items| - 1]), k);
    }
  }

  lemma StageOnTime(a: ContainerArgs, k: nat)
    requires k < 14
    ensures AllOnTime(a, Stages(a)[k], k)
  {
    hide Stages, Each, MountCall, MaskCall, MaskElseCall, SelfBindCall, ReadonlyCall;
    if k < 5 {
      StagesBegin(a);
    } else if k < 11 {
      StagesMiddle(a);
      ListsOnTime(a);
      EachOnTime(a, CallAct, DefaultDevices(), 6);
      EachOnTime(a, SysctlActs, a.sysctls, 7);
      EachOnTime(a, RlimitActs, a.rlimits, 10);
    } else {
      StagesEnd(a);
    }
  }

  lemma ListsOnTime(a: ContainerArgs)
    ensures AllOnTime(a, Each(MountActs, a.mounts), 5)
    ensures AllOnTime(a, Each(MaskActs, a.masked), 8)
    ensures AllOnTime(a, Each(ReadonlyActs, a.readonly), 9)
  {
    hide Each, MaskCall, MaskElseCall, SelfBindCall, ReadonlyCall;
    forall i | 0 <= i < |a.mounts|
      ensures AllOnTime(a, MountActs(a.mounts[i]), 5)
    {
      assert a.mounts[i] in a.mounts;
    }
    EachOnTime(a, MountActs, a.mounts, 5);
    forall i | 0 <= i < |a.masked|
      ensures AllOnTime(a, MaskActs(a.masked[i]), 8)
    {
      MaskOnTime(a, a.masked[i]);
    }
    EachOnTime(a, MaskActs, a.masked, 8);
    forall i | 0 <= i < |a.readonly|
      ensures AllOnTime(a, ReadonlyActs(a.readonly[i]), 9)
    {
      ReadonlyOnTime(a, a.readonly[i]);
    }
    EachOnTime(a, ReadonlyActs, a.readonly, 9);
  }

  lemma MaskOnTime(a: ContainerArgs, p: bytes)
    requires p in a.masked
    ensures AllOnTime(a, MaskActs(p), 8)
  {
    assert MaskCall(p).Mount? && MaskElseCall(p).Mount?;
  }

  lemma ReadonlyOnTime(a: ContainerArgs, p: bytes)
    requires p in a.readonly
    ensures AllOnTime(a, ReadonlyActs(p), 9)
  {
    assert SelfBindCall(p).Mount? && ReadonlyCall(p).Mount?;
  }

  lemma DueIn(a: ContainerArgs, acts: seq<Act>, k: nat, c: Call)
    requires AllOnTime(a, acts, k) && Planned(acts, c)
    ensures DueAt(a, c, k)
  {
    hide DueAt;
    var x :| x in acts && Mentions(x, c);
    assert OnTime(a, x, k);
  }

  /** The stage an event belongs to. */
  lemma {:induction false} StageOf(a: ContainerArgs, answers: Answers, n: nat, m: nat) returns (k: nat)
    requires Executed(Trace(a, false, answers)) && m <= 14 && n < |Upto(Stages(a), m, answers).0|
    ensures k < m && |Upto(Stages(a), k, answers).0| <= n < |Upto(Stages(a), k + 1, answers).0|
    ensures n < |Trace(a, false, answers)| && DueAt(a, Trace(a, false, answers)[n].call, k)
    decreases m
  {
    hide Stages, Upto, Trace, DueAt, Executed;
    if m == 0 {
      StageNone(Stages(a), answers);
      assert false;
    } else if n < |Upto(Stages(a), m - 1, answers).0| {
      k := StageOf(a, answers, n, m - 1);
    } else {
      k := m - 1;
      InOrder(a, answers, k);
      StageOnTime(a, k);
      var after := Upto(Stages(a), m, answers).0;
      assert Planned(Stages(a)[k], after[n].call);
      DueIn(a, Stages(a)[k], k, after[n].call);
    }
  }

  lemma {:induction false} UptoGrows(a: ContainerArgs, answers: Answers, j: nat, k: nat)
    requires Executed(Trace(a, false, answers)) && j <= k <= 14
    ensures |Upto(Stages(a), j, answers).0| <= |Upto(Stages(a), k, answers).0|
    decreases k - j
  {
    hide Stages, Upto, Trace, Executed;
    if j < k {
      InOrder(a, answers, j);
      UptoGrows(a, answers, j + 1, k);
    }
  }

  /** The calls of an init that execs come in the order in which they are due: host name,
      user-namespace credentials, the rootfs bind, chroot, a private tree, configured
      mounts, device nodes and links, sysctl files, masks, read-only paths, limits, the
      seal, credentials, exec. */
  lemma EffectsInOrder(a: ContainerArgs, answers: Answers, i: nat, j: nat) returns (k: nat, l: nat)
    requires Executed(Trace(a, false, answers)) && i < j < |Trace(a, false, answers)|
    ensures DueAt(a, Trace(a, false, answers)[i].call, k) && DueAt(a, Trace(a, false, answers)[j].call, l)
    ensures k <= l
  {
    hide Play, Join, Stages, DueAt;
    PlanEnds(a, false, answers);
    UptoAll(Stages(a), answers);
    k := StageOf(a, answers, i, 14);
    l := StageOf(a, answers, j, 14);
    if l < k {
      UptoGrows(a, answers, l + 1, k);
      assert false;
    }
  }

  /** No sysctl file is written once a path was masked or made read-only, unless that
      same mount is also configured or makes the root private. */
  lemma SysctlsBeforeConfinement(a: ContainerArgs, answers: Answers, i: nat, j: nat)
    requires Executed(Trace(a, false, answers)) && i < |Trace(a, false, answers)| && j < |Trace(a, false, answers)|
    requires Trace(a, false, answers)[i].call.WriteFile?
    requires forall k :: k <= 7 ==> !DueAt(a, Trace(a, false, answers)[j].call, k)
    ensures i < j
  {
    hide Trace, Executed;
    assert DueAt(a, Trace(a, false, answers)[i].call, 7);
    if j < i {
      var k, l := EffectsInOrder(a, answers, j, i);
      assert false;
    }
  }

  // -------------------------------------------------- one item of a stage

  lemma {:induction false} EachSplit<T>(acts: T -> seq<Act>, items: seq<T>, k: nat)
    requires k <= |items|
    ensures Each(acts, items) == Each(acts, items[..k]) + Each(acts, items[k..])
  {
    var n := |items|;
    if k == n {
      assert items[..k] == items;
    } else {
      EachSplit(acts, items[..n - 1], k);
      assert items[..n - 1][..k] == items[..k] && items[..n - 1][k..] == items[k..][..n - 1 - k];
    }
  }

  /** The trace just before the `i`-th item of the `k`-th stage. */
  function Before<T>(a: ContainerArgs, answers: Answers, k: nat, acts: T -> seq<Act>, items: seq<T>, i: nat): seq<Event>
    requires k < 14 && i <= |items|
  {
    Play(Each(acts, items[..i]), answers, Upto(Stages(a), k, answers).0).0
  }

  /** The events of an item are part of the trace. */
  lemma WithinStage<T>(a: ContainerArgs, answers: Answers, k: nat, acts: T -> seq<Act>, items: seq<T>, i: nat)
    requires Executed(Trace(a, false, answers)) && k < 14 && i < |items| && Stages(a)[k] == Each(acts, items)
    ensures var (after, on) := Play(acts(items[i]), answers, Before(a, answers, k, acts, items, i));
      && on && after <= Upto(Stages(a), k + 1, answers).0 <= Trace(a, false, answers)
      && Upto(Stages(a), k + 1, answers) == Play(Each(acts, items[i + 1..]), answers, after)
      && Upto(Stages(a), k + 1, answers).1
  {
    hide Play, Join, Stages, Each;
    var s := Stages(a);
    var start := Upto(s, k, answers).0;
    PlanEnds(a, false, answers);
    UptoOn(s, k, answers);
    UptoOn(s, k + 1, answers);
    StageDone(s, k, answers);
    EachSplit(acts, items, i + 1);
    var rest := Each(acts, items[i + 1..]);
    PlayConcat(Each(acts, items[..i + 1]), rest, answers, start);
    EachSnoc(acts, items, i, answers, start);
    PlayedOut(rest, answers, Play(acts(items[i]), answers, Before(a, answers, k, acts, items, i)).0);
    UptoPrefix(s, k + 1, answers);
  }

  lemma {:induction false} EachFrom<T>(acts: T -> seq<Act>, items: seq<T>, x: Act) returns (i: nat)
    requires x in Each(acts, items)
    ensures i < |items| && x in acts(items[i])
  {
    var n := |items| - 1;
    if x in acts(items[n]) {
      i := n;
    } else {
      i := EachFrom(acts, items[..n], x);
    }
  }

  lemma {:induction false} JoinFrom(s: seq<seq<Act>>, x: Act) returns (k: nat)
    requires x in Join(s)
    ensures k < |s| && x in s[k]
    decreases |s|
  {
    var n := |s| - 1;
    if x in s[n] {
      k := n;
    } else {
      k := JoinFrom(s[..n], x);
    }
  }

  lemma {:induction false} EachHas<T>(acts: T -> seq<Act>, items: seq<T>, i: nat, x: Act)
    requires i < |items| && x in acts(items[i])
    ensures x in Each(acts, items)
  {
    if i < |items| - 1 {
      EachHas(acts, items[..|items| - 1], i, x);
    }
  }

  /** From the end of the `k`-th stage on, calls are due later. */
  lemma DueFrom(a: ContainerArgs, answers: Answers, k: nat, m: nat) returns (l: nat)
    requires Executed(Trace(a, false, answers)) && k <= 14 && m < |Trace(a, false, answers)|
    requires |Upto(Stages(a), k, answers).0| <= m
    ensures k <= l < 14 && DueAt(a, Trace(a, false, answers)[m].call, l)
    ensures |Upto(Stages(a), l, answers).0| <= m < |Upto(Stages(a), l + 1, answers).0|
  {
    hide Play, Join, Stages, DueAt;
    PlanEnds(a, false, answers);
    UptoAll(Stages(a), answers);
    l := StageOf(a, answers, m, 14);
    if l < k {
      UptoGrows(a, answers, l + 1, k);
      assert false;
    }
  }

  /** A call after an item of a stage is planned by a later item, or due later. */
  lemma CallAfterItem<T>(
    a: ContainerArgs, answers: Answers, k: nat, acts: T -> seq<Act>, items: seq<T>, i: nat, m: nat)
    requires Executed(Trace(a, false, answers)) && k < 14 && i < |items| && Stages(a)[k] == Each(acts, items)
    requires |Play(acts(items[i]), answers, Before(a, answers, k, acts, items, i)).0| <= m < |Trace(a, false, answers)|
    ensures var c := Trace(a, false, answers)[m].call;
      || (exists j :: i < j < |items| && Planned(acts(items[j]), c))
      || (exists l :: k < l < 14 && DueAt(a, c, l))
  {
    hide Play, Join, Stages, Each, DueAt;
    WithinStage(a, answers, k, acts, items, i);
    var all := Upto(Stages(a), k + 1, answers).0;
    if m < |all| {
      var rest := items[i + 1..];
      PlayedOut(Each(acts, rest), answers, Play(acts(items[i]), answers, Before(a, answers, k, acts, items, i)).0);
      var c := all[m].call;
      var x :| x in Each(acts, rest) && Mentions(x, c);
      var j := EachFrom(acts, rest, x);
      assert Planned(acts(items[i + 1 + j]), c);
    } else {
      var l := DueFrom(a, answers, k + 1, m);
    }
  }

  /** Items come after the start of their stage. */
  lemma BeforeGrows<T>(a: ContainerArgs, answers: Answers, k: nat, acts: T -> seq<Act>, items: seq<T>, i: nat)
    requires Executed(Trace(a, false, answers)) && k < 14 && i < |items| && Stages(a)[k] == Each(acts, items)
    ensures |Upto(Stages(a), k, answers).0| <= |Before(a, answers, k, acts, items, i)|
  {
    hide Play, Join, Stages, Each;
    var s := Stages(a);
    PlanEnds(a, false, answers);
    UptoOn(s, k, answers);
    UptoOn(s, k + 1, answers);
    StageDone(s, k, answers);
    EachSplit(acts, items, i);
    PlayConcat(Each(acts, items[..i]), Each(acts, items[i..]), answers, Upto(s, k, answers).0);
    PlayedOut(Each(acts, items[..i]), answers, Upto(s, k, answers).0);
  }

  // ---------------------------------------------------- particular failures

  /** A plan makes nothing of the answers to calls it does not get to. */
  lemma {:induction false} PlayAgrees(plan: seq<Act>, f: Answers, g: Answers, t: seq<Event>)
    requires forall n: nat :: n < |Play(plan, f, t).0| ==> f(n) == g(n)
    ensures Play(plan, g, t) == Play(plan, f, t)
    decreases |plan|
  {
    if plan != [] {
      PlayGrows(plan, f, t);
      var u := Perform(plan[0], f, t);
      if u.1 {
        PlayGrows(plan[1..], f, u.0);
        PlayAgrees(plan[1..], f, g, u.0);
      }
    }
  }

  lemma {:induction false} PlayGrows(plan: seq<Act>, answers: Answers, t: seq<Event>)
    ensures |t| <= |Play(plan, answers, t).0|
    ensures plan != [] ==> |Perform(plan[0], answers, t).0| <= |Play(plan, answers, t).0|
    decreases |plan|
  {
    if plan != [] {
      PlayGrows(plan[1..], answers, Perform(plan[0], answers, t).0);
    }
  }

  /** A stage is played to its end if its fatal calls succeed. */
  lemma StageOn(a: ContainerArgs, answers: Answers, k: nat)
    requires a.argv != [] && k < 14 && Upto(Stages(a), k, answers).1
    requires Plain(Stages(a)[k]) || forall n: nat :: n >= |Upto(Stages(a), k, answers).0| ==> answers(n) == 0
    ensures Upto(Stages(a), k + 1, answers).1
  {
    hide Play, Join, Stages;
    var s, t := Stages(a), Upto(Stages(a), k, answers).0;
    StageDone(s, k, answers);
    if !Play(s[k], answers, t).1 {
      var i := CutShort(s[k], answers, t);
      assert s[k][i] in s[k];
      StagesAllowed(a, k, s[k][i]);
      PlayGrows(s[k][..i], answers, t);
      assert false;
    }
  }

  lemma {:induction false} EachPlain<T>(acts: T -> seq<Act>, items: seq<T>)
    requires forall i: T :: Plain(acts(i))
    ensures Plain(Each(acts, items))
  {
    if items != [] {
      EachPlain(acts, items[..|items| - 1]);
      assert Plain(acts(items[|items| - 1]));
    }
  }

  /** From a point after which nothing fails, an init with a program gets to exec. */
  lemma {:induction false} OnFrom(a: ContainerArgs, answers: Answers, k: nat)
    requires a.argv != [] && k <= 14 && Upto(Stages(a), k, answers).1
    requires forall n: nat :: n >= |Upto(Stages(a), k, answers).0| ==> answers(n) == 0
    ensures Executed(Trace(a, false, answers)) && Play(Join(Stages(a)), answers, []).1
    decreases 14 - k
  {
    hide Play, Join, Stages, Trace, Executed;
    if k == 14 {
      UptoAll(Stages(a), answers);
      PlayedExecs(a, answers);
    } else {
      StageOn(a, answers, k);
      StageDone(Stages(a), k, answers);
      PlayGrows(Stages(a)[k], answers, Upto(Stages(a), k, answers).0);
      OnFrom(a, answers, k + 1);
    }
  }

  /** When every call succeeds, a container with a program executes. */
  lemma AllSucceed(a: ContainerArgs, answers: Answers)
    requires a.argv != [] && forall n :: answers(n) == 0
    ensures Executed(Trace(a, false, answers)) && Play(Join(Stages(a)), answers, []).1
  {
    hide Stages, Trace, Executed, Join, Play;
    StageNone(Stages(a), answers);
    OnFrom(a, answers, 0);
  }

  function Zero(): Answers {
    (n: nat) => 0
  }

  /** Only the `c`-th call fails. */
  function OneFails(c: nat, rc: int): Answers {
    (n: nat) => if n == c then rc else 0
  }

  /** Up to a failure the init does what it would have done. */
  lemma SameUntil(a: ContainerArgs, k: nat, c: nat, rc: int)
    requires k <= 14 && c >= |Upto(Stages(a), k, Zero()).0|
    ensures Upto(Stages(a), k, OneFails(c, rc)) == Upto(Stages(a), k, Zero())
  {
    hide Play, Join, Stages;
    PlayAgrees(Join(Stages(a)[..k]), Zero(), OneFails(c, rc), []);
  }

  /** Credentials that could not be applied do not stop the init: it executes with those
      it had. */
  lemma CredsCanFail(a: ContainerArgs, rc: int) returns (answers: Answers)
    requires a.argv != []
    ensures var t := Trace(a, false, answers);
      Executed(t) && |t| >= 2 && t[|t| - 2] == Event(CredsCall(a), rc)
  {
    hide Play, Join, Stages, Trace, Executed;
    AllSucceed(a, Zero());
    var s := Stages(a);
    UptoOn(s, 12, Zero());
    var c := |Upto(s, 12, Zero()).0|;
    answers := OneFails(c, rc);
    SameUntil(a, 12, c, rc);
    StagesEnd(a);
    StageDone(s, 12, answers);
    PlayOne(Act(CredsCall(a), Ignore), answers, Upto(s, 12, answers).0);
    OnFrom(a, answers, 13);
    CredsAt(a, answers);
  }

  lemma CredsAt(a: ContainerArgs, answers: Answers)
    requires Executed(Trace(a, false, answers))
    ensures var (t, n) := (Trace(a, false, answers), |Upto(Stages(a), 12, answers).0|);
      |t| == n + 2 && t[n] == Event(CredsCall(a), answers(n))
  {
    hide Play, Join, Stages;
    var s := Stages(a);
    PlanEnds(a, false, answers);
    PlayedExecs(a, answers);
    UptoOn(s, 12, answers);
    UptoOn(s, 13, answers);
    StageDone(s, 12, answers);
    StagesEnd(a);
    PlayOne(Act(CredsCall(a), Ignore), answers, Upto(s, 12, answers).0);
    UptoPrefix(s, 13, answers);
    var after := Upto(s, 13, answers).0;
    assert after[|after| - 1] == Trace(a, false, answers)[|after| - 1];
  }
}
