/** What the root of an init is when it executes. */
module SetupRoot {
  import opened Bytes
  import opened Outcomes
  import opened KernelFormat
  import opened Setup
  import opened SetupProofs
  import opened MountTree

  const SEALED: u64 := MS_REMOUNT + MS_BIND + MS_RDONLY

  predicate ReadOnly(l: Option<Layer>) {
    l.Some? && BitSet(l.value.flags, MS_RDONLY)
  }

  /** A remount of "/" that succeeded. */
  predicate RootRemount(e: Event) {
    e.rc == 0 && e.call.Mount? && Remounts(e.call.flags) && PlaceOf(e.call.dir) == []
  }

  lemma RootStep(under: u64, t: seq<Event>, e: Event)
    requires Layers(under, t, []) != [] && !e.call.Chroot?
    ensures var (layers, after) := (Layers(under, t, []), Layers(under, t + [e], []));
      after != [] && after[0] == if RootRemount(e) then layers[0].(flags := e.call.flags) else layers[0]
  {
    hide Layers, PlaceOf, Remounts, InForce;
    if e.rc != 0 || !Affects(e.call, []) {
      Unaffected(under, t, e, []);
    } else if Remounts(e.call.flags) {
      RemountStep(under, t, e, []);
    } else {
      PushStep(under, t, e, []);
    }
  }

  /** The flags the last remount of "/" since the `c`-th event asked for. */
  function LastFlags(t: seq<Event>, c: nat, flags: u64): u64
    decreases |t|
  {
    if |t| <= c then flags
    else if RootRemount(t[|t| - 1]) then t[|t| - 1].call.flags
    else LastFlags(t[..|t| - 1], c, flags)
  }

  lemma {:induction false} RootAfter(under: u64, t: seq<Event>, c: nat)
    requires c <= |t| && Layers(under, t[..c], []) != []
    requires forall m :: c <= m < |t| ==> !t[m].call.Chroot?
    ensures var (layers, after) := (Layers(under, t[..c], []), Layers(under, t, []));
      after != [] && after[0] == layers[0].(flags := LastFlags(t, c, layers[0].flags))
    decreases |t|
  {
    hide Layers, RootRemount;
    if c == |t| {
      assert t[..c] == t;
    } else {
      var k := |t| - 1;
      assert t == t[..k] + [t[k]] && t[..k][..c] == t[..c];
      RootAfter(under, t[..k], c);
      RootStep(under, t[..k], t[k]);
    }
  }

  /** A remount that no other kind follows decides the flags. */
  lemma {:induction false} LastFlagsFrom(t: seq<Event>, c: nat, m: nat, flags: u64)
    requires c <= m < |t| && RootRemount(t[m])
    requires forall k :: m <= k < |t| && RootRemount(t[k]) ==> BitSet(t[k].call.flags, MS_RDONLY)
    ensures BitSet(LastFlags(t, c, flags), MS_RDONLY)
    decreases |t|
  {
    hide RootRemount, BitSet;
    var k := |t| - 1;
    if !RootRemount(t[k]) {
      LastFlagsFrom(t[..k], c, m, flags);
    }
  }

  lemma {:induction false} NoRemounts(t: seq<Event>, c: nat, flags: u64)
    requires forall k :: c <= k < |t| ==> !RootRemount(t[k])
    ensures LastFlags(t, c, flags) == flags
    decreases |t|
  {
    hide RootRemount;
    if |t| > c {
      NoRemounts(t[..|t| - 1], c, flags);
    }
  }

  // ------------------------------------------------------------ after chroot

  /** The mount the root is made of: the rootfs bound onto itself, or what it lies on. */
  function RootMount(a: ContainerArgs, under: u64): (Option<bytes>, u64) {
    if a.readonlyRootfs && PlaceOf(a.rootfs) != [] then (Some(a.rootfs), MS_BIND + MS_REC) else (None, under)
  }

  lemma {:induction false} NoMountsYet(under: u64, plan: seq<Act>, answers: Answers, t: seq<Event>, d: Place)
    requires forall x :: x in plan ==> x.Act? && !x.call.Mount? && !x.call.Chroot? && x.reaction in {Ignore, Fatal}
    ensures Layers(under, Play(plan, answers, t).0, d) == Layers(under, t, d)
    decreases |plan|
  {
    hide Layers;
    if plan != [] {
      var rc := answers(|t|);
      var e := Event(plan[0].call, rc);
      Unaffected(under, t, e, d);
      Unaffected(under, t + [e], Event(Terminate(rc), 0), d);
      NoMountsYet(under, plan[1..], answers, t + [e], d);
    }
  }

  lemma PrivateStep(under: u64, t: seq<Event>, rc: int, d: Place)
    ensures Layers(under, t + [Event(PRIVATE, rc)], d) == Layers(under, t, d)
  {
    hide Layers, PlaceOf;
    assert !Affects(PRIVATE, d);
    Unaffected(under, t, Event(PRIVATE, rc), d);
  }

  lemma BindStep(under: u64, a: ContainerArgs, t: seq<Event>)
    ensures var q := PlaceOf(a.rootfs);
      Layers(under, t + [Event(BindRoot(a), 0)], q)
        == Layers(under, t, q) + [Layer(Some(a.rootfs), None, MS_BIND + MS_REC, |t|)]
  {
    hide Layers, PlaceOf;
    PushStep(under, t, Event(BindRoot(a), 0), PlaceOf(a.rootfs));
  }

  /** The layers of the rootfs before the chroot. */
  lemma RootfsBound(under: u64, a: ContainerArgs, answers: Answers)
    requires Executed(Trace(a, false, answers))
    ensures var q := PlaceOf(a.rootfs);
      var layers := RootOf(under, Layers(under, Upto(Stages(a), 3, answers).0, q), q);
      |layers| == 1 && (layers[0].src, layers[0].flags) == RootMount(a, under)
  {
    hide Play, Join, Stages, Layers, PlaceOf;
    PlanEnds(a, false, answers);
    StagesBegin(a);
    PlayNone(answers);
    var s, q := Stages(a), PlaceOf(a.rootfs);
    StageNone(s, answers);
    StageDone(s, 0, answers);
    StageDone(s, 1, answers);
    StageDone(s, 2, answers);
    UptoOn(s, 1, answers);
    UptoOn(s, 2, answers);
    UptoOn(s, 3, answers);
    NoMountsYet(under, s[0], answers, [], q);
    NoMountsYet(under, s[1], answers, Upto(s, 1, answers).0, q);
    NoEvents(under, q);
    var t := Upto(s, 2, answers).0;
    PlayTwo(Act(PRIVATE, Ignore), Act(BindRoot(a), Fatal), answers, t);
    PrivateStep(under, t, answers(|t|), q);
    BindStep(under, a, t + [Event(PRIVATE, answers(|t|))]);
  }

  lemma NoEvents(under: u64, d: Place)
    ensures Layers(under, [], d) == if d == [] then [Base(under)] else []
  {
  }

  /** From the chroot on, the root is that mount. */
  lemma RootMade(under: u64, a: ContainerArgs, answers: Answers)
    requires Executed(Trace(a, false, answers))
    ensures var layers := Layers(under, Upto(Stages(a), 4, answers).0, []);
      |layers| == 1 && (layers[0].src, layers[0].flags) == RootMount(a, under)
  {
    hide Play, Join, Stages, Layers, PlaceOf, RootOf;
    PlanEnds(a, false, answers);
    StagesBegin(a);
    var s := Stages(a);
    UptoOn(s, 3, answers);
    UptoOn(s, 4, answers);
    StageDone(s, 3, answers);
    RootfsBound(under, a, answers);
    var t := Upto(s, 3, answers).0;
    PlayOne(Act(Chroot(a.rootfs), Fatal), answers, t);
    ChrootStep(under, t, Event(Chroot(a.rootfs), 0));
  }

  /** There is one chroot. */
  lemma NoChrootFrom(a: ContainerArgs, answers: Answers, m: nat)
    requires Executed(Trace(a, false, answers)) && |Upto(Stages(a), 4, answers).0| <= m < |Trace(a, false, answers)|
    ensures !Trace(a, false, answers)[m].call.Chroot?
  {
    hide Trace, Executed, Stages, Upto;
    var l := DueFrom(a, answers, 4, m);
  }

  /** The event the chroot's successor is. */
  function AfterChroot(a: ContainerArgs, answers: Answers): nat {
    |Upto(Stages(a), 4, answers).0|
  }

  /** What the root is when the init executes, exactly. */
  lemma RootAtExec(under: u64, a: ContainerArgs, answers: Answers)
    requires Executed(Trace(a, false, answers))
    ensures var (t, c) := (Trace(a, false, answers), AfterChroot(a, answers));
      var layers := Layers(under, t, []);
      && c <= |t| && layers != [] && layers[0].src == RootMount(a, under).0
      && layers[0].flags == LastFlags(t, c, RootMount(a, under).1)
  {
    hide Play, Join, Stages, Layers, RootMount;
    PlanEnds(a, false, answers);
    UptoPrefix(Stages(a), 4, answers);
    RootMade(under, a, answers);
    var t, c := Trace(a, false, answers), AfterChroot(a, answers);
    forall m | c <= m < |t|
      ensures !t[m].call.Chroot?
    {
      NoChrootFrom(a, answers, m);
    }
    assert t[..c] == Upto(Stages(a), 4, answers).0;
    RootAfter(under, t, c);
  }

  /** The seal decides. */
  lemma SealDecides(a: ContainerArgs, answers: Answers, flags: u64)
    requires Executed(Trace(a, false, answers)) && a.readonlyRootfs
    ensures BitSet(LastFlags(Trace(a, false, answers), AfterChroot(a, answers), flags), MS_RDONLY)
  {
    hide Play, Join, Stages, RootRemount, BitSet, LastFlags;
    PlanEnds(a, false, answers);
    PlayedExecs(a, answers);
    var t := Trace(a, false, answers);
    var m := |t| - 3;
    SealIsRemount();
    UptoGrows(a, answers, 4, 11);
    SealAt(a, answers);
    NotRemounts(t[m + 1], t[m + 2]);
    LastFlagsFrom(t, AfterChroot(a, answers), m, flags);
  }

  lemma SealAt(a: ContainerArgs, answers: Answers)
    requires Executed(Trace(a, false, answers)) && a.readonlyRootfs
    ensures |Upto(Stages(a), 11, answers).0| == |Trace(a, false, answers)| - 3
  {
    hide Play, Join, Stages;
    PlanEnds(a, false, answers);
    PlayedExecs(a, answers);
    StagesEnd(a);
    UptoOn(Stages(a), 11, answers);
    UptoOn(Stages(a), 12, answers);
    StageDone(Stages(a), 11, answers);
    PlayOne(Act(SEAL, Fatal), answers, Upto(Stages(a), 11, answers).0);
  }

  lemma SealIsRemount()
    ensures RootRemount(Event(SEAL, 0)) && BitSet(SEAL.flags, MS_RDONLY)
  {
    RootPlace();
  }

  lemma NotRemounts(e: Event, f: Event)
    requires !e.call.Mount? && !f.call.Mount?
    ensures !RootRemount(e) && !RootRemount(f)
  {
  }

  /** The root of an init that execs is read-only if and only if a read-only rootfs was
      asked for, or else the last successful remount of "/" made it so, or it already was
      and there was none. */
  lemma RootReadOnlyIff(under: u64, a: ContainerArgs, answers: Answers)
    requires Executed(Trace(a, false, answers))
    ensures var t := Trace(a, false, answers);
      var root := Reach(Layers(under, t, []), []);
      && root.Some? && root.value.src == RootMount(a, under).0
      && (ReadOnly(root) <==> a.readonlyRootfs || BitSet(LastFlags(t, AfterChroot(a, answers), under), MS_RDONLY))
  {
    hide Trace, Executed, Layers, LastFlags, BitSet, PlaceOf;
    RootAtExec(under, a, answers);
    if a.readonlyRootfs {
      SealDecides(a, answers, RootMount(a, under).1);
    }
  }

  /** Nothing configured remounts "/". */
  ghost predicate NoRootRemounts(a: ContainerArgs) {
    && (forall m :: m in a.mounts ==> !Remounts(m.flags) || PlaceOf(m.destination) != [])
    && (forall p :: p in a.readonly ==> PlaceOf(p) != [])
  }

  /** So with no configured remount of "/", it is read-only exactly if that was asked for
      or it was so before. */
  lemma RootAsConfigured(under: u64, a: ContainerArgs, answers: Answers)
    requires Executed(Trace(a, false, answers)) && NoRootRemounts(a)
    ensures ReadOnly(Reach(Layers(under, Trace(a, false, answers), []), []))
      <==> a.readonlyRootfs || BitSet(under, MS_RDONLY)
  {
    hide Trace, Executed, Layers, Reach, LastFlags, RootRemount, BitSet, Stages, Upto;
    RootReadOnlyIff(under, a, answers);
    if !a.readonlyRootfs {
      var t := Trace(a, false, answers);
      forall m | AfterChroot(a, answers) <= m < |t|
        ensures !RootRemount(t[m])
      {
        var l := DueFrom(a, answers, 4, m);
        DueNoRemount(a, t[m], l);
      }
      NoRemounts(t, AfterChroot(a, answers), under);
    }
  }

  lemma DueNoRemount(a: ContainerArgs, e: Event, l: nat)
    requires NoRootRemounts(a) && !a.readonlyRootfs && DueAt(a, e.call, l)
    ensures !RootRemount(e)
  {
    hide PlaceOf;
  }

  /** A "/" in the read-only paths makes the root read-only if both its calls succeed. */
  lemma RootPathReadOnly(under: u64, a: ContainerArgs, answers: Answers, m: nat)
    requires Executed(Trace(a, false, answers)) && m < |Trace(a, false, answers)|
    requires |Upto(Stages(a), 9, answers).0| <= m && RootRemount(Trace(a, false, answers)[m])
    ensures ReadOnly(Reach(Layers(under, Trace(a, false, answers), []), []))
  {
    hide Trace, Executed, Layers, Reach, LastFlags, RootRemount, BitSet, Stages, Upto;
    RootReadOnlyIff(under, a, answers);
    var t := Trace(a, false, answers);
    forall k | m <= k < |t| && RootRemount(t[k])
      ensures t[k].call.Mount? && BitSet(t[k].call.flags, MS_RDONLY)
    {
      var l := DueFrom(a, answers, 9, k);
      LateRemount(a, t[k], l);
    }
    UptoGrows(a, answers, 4, 9);
    LastFlagsFrom(t, AfterChroot(a, answers), m, under);
  }

  lemma LateRemount(a: ContainerArgs, e: Event, l: nat)
    requires l >= 9 && DueAt(a, e.call, l) && RootRemount(e)
    ensures e.call.Mount? && BitSet(e.call.flags, MS_RDONLY)
  {
    hide PlaceOf;
    assert forall p :: !Remounts(SelfBindCall(p).flags) && BitSet(ReadonlyCall(p).flags, MS_RDONLY);
  }
}
