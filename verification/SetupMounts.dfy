/** What becomes of configured mounts by the time the init executes. */
module SetupMounts {
  import opened Bytes
  import opened Outcomes
  import opened KernelFormat
  import opened Setup
  import opened SetupProofs
  import opened MountTree
  import opened SetupRoot
  import Sysctl

  /** The flags that options set on a mount, besides those of "bind" and "remount". */
  predicate OptionBit(w: nat) {
    w == 0x1 || w == 0x2 || w == 0x4 || w == 0x8 || w == 0x10 || w == 0x80 || w == 0x400 || w == 0x800
    || w == 0x8000 || w == 0x20_0000 || w == 0x80_0000 || w == 0x100_0000 || w == 0x200_0000
  }

  /** The mount has exactly the option bits of these flags. */
  ghost predicate OptionsHold(l: Layer, flags: u64) {
    forall w: nat :: OptionBit(w) ==> (BitSet(l.flags, w) <==> BitSet(flags, w))
  }

  /** A bind that also asks for options. */
  ghost predicate BindWithOptions(flags: u64) {
    BitSet(flags, MS_BIND) && exists w: nat :: OptionBit(w) && BitSet(flags, w)
  }

  lemma InForceBit(flags: u64, w: nat)
    requires OptionBit(w)
    ensures w > 0
    ensures BitSet(InForce(flags), w) <==> BitSet(flags, w) && !BitSet(flags, MS_BIND)
  {
  }

  lemma OptionsHoldIff(src: Option<bytes>, typ: Option<bytes>, flags: u64, at: nat)
    ensures OptionsHold(Layer(src, typ, InForce(flags), at), flags) <==> !BindWithOptions(flags)
  {
    hide InForce, OptionBit;
    forall w: nat | OptionBit(w)
      ensures w > 0 && (BitSet(InForce(flags), w) <==> BitSet(flags, w) && !BitSet(flags, MS_BIND))
    {
      InForceBit(flags, w);
    }
  }

  function MountReady(m: MountSpec, answers: Answers, before: seq<Event>): seq<Event> {
    before + if |m.fsType| > 1 then [Event(Mkdir(m.destination), answers(|before|))] else []
  }

  lemma PlayMount(m: MountSpec, answers: Answers, before: seq<Event>)
    requires |m.destination| > 1
    ensures var ready := MountReady(m, answers, before);
      Play(MountActs(m), answers, before) == (ready + [Event(MountCall(m), answers(|ready|))], true)
  {
    hide Play;
    var mount := Act(MountCall(m), Ignore);
    PlayOne(mount, answers, MountReady(m, answers, before));
    if |m.fsType| > 1 {
      PlayTwo(Act(Mkdir(m.destination), Ignore), mount, answers, before);
      assert MountActs(m) == [Act(Mkdir(m.destination), Ignore), mount];
    } else {
      assert MountActs(m) == [mount] && MountReady(m, answers, before) == before;
    }
  }

  // ------------------------------------------------- one configured mount

  /** The event of the `i`-th configured mount. */
  function MountAt(a: ContainerArgs, answers: Answers, i: nat): nat
    requires i < |a.mounts|
  {
    |MountReady(a.mounts[i], answers, Before(a, answers, 5, MountActs, a.mounts, i))|
  }

  /** It made a mount of its own. */
  predicate Mounted(a: ContainerArgs, answers: Answers, i: nat)
    requires i < |a.mounts|
  {
    var m := a.mounts[i];
    |m.destination| > 1 && PlaceOf(m.destination) != [] && Pushes(m.flags) && answers(MountAt(a, answers, i)) == 0
  }

  function MountLayer(m: MountSpec, n: nat): Layer {
    Layer(NonEmpty(m.source), NonEmpty(m.fsType), InForce(m.flags), n)
  }

  /** A push is on top at first. */
  lemma PushedOnTop(under: u64, m: MountSpec, before: seq<Event>)
    requires PlaceOf(m.destination) != [] && Pushes(m.flags)
    ensures var (t, q) := (before + [Event(MountCall(m), 0)], PlaceOf(m.destination));
      Reach(Layers(under, t, q), q) == Some(MountLayer(m, |before|))
  {
    hide Layers, PlaceOf, Remounts, InForce;
    PushStep(under, before, Event(MountCall(m), 0), PlaceOf(m.destination));
  }

  /** The mount's event, and what it leaves right after it. */
  lemma MountMade(under: u64, a: ContainerArgs, answers: Answers, i: nat)
    requires Executed(Trace(a, false, answers)) && i < |a.mounts| && |a.mounts[i].destination| > 1
    ensures var (t, n, q) := (Trace(a, false, answers), MountAt(a, answers, i), PlaceOf(a.mounts[i].destination));
      && AfterChroot(a, answers) <= n < |t| && t[n] == Event(MountCall(a.mounts[i]), answers(n))
      && n + 1 == |Play(MountActs(a.mounts[i]), answers, Before(a, answers, 5, MountActs, a.mounts, i)).0|
      && (Mounted(a, answers, i) ==>
            Reach(Layers(under, t[..n + 1], q), q) == Some(MountLayer(a.mounts[i], n)))
  {
    hide Play, Join, Stages, Layers, Each, PlaceOf, Pushes, MountLayer, MountActs;
    var m, t := a.mounts[i], Trace(a, false, answers);
    StagesMiddle(a);
    WithinStage(a, answers, 5, MountActs, a.mounts, i);
    var before := Before(a, answers, 5, MountActs, a.mounts, i);
    var ready := MountReady(m, answers, before);
    PlayMount(m, answers, before);
    UptoGrows(a, answers, 4, 5);
    BeforeGrows(a, answers, 5, MountActs, a.mounts, i);
    var after := ready + [Event(MountCall(m), answers(|ready|))];
    assert after[|ready|] == t[|ready|];
    assert t[..|ready| + 1] == after;
    if Mounted(a, answers, i) {
      PushedOnTop(under, m, ready);
    }
  }

  /** A configured mount that succeeded is the one reached when the init executes if and
      only if nothing was mounted on its place or above it later. */
  lemma MountKept(under: u64, a: ContainerArgs, answers: Answers, i: nat)
    requires Executed(Trace(a, false, answers)) && i < |a.mounts| && |a.mounts[i].destination| > 1
    ensures var (t, n) := (Trace(a, false, answers), MountAt(a, answers, i));
      && n < |t| && t[n] == Event(MountCall(a.mounts[i]), answers(n))
      && (Mounted(a, answers, i) ==>
            var q := PlaceOf(a.mounts[i].destination);
            (Kept(under, t, q, n) <==> forall k :: n < k < |t| ==> !Covers(t[k], q)))
  {
    hide Trace, Executed, Layers, PlaceOf, Covers, Pushes, MountActs;
    MountMade(under, a, answers, i);
    var t, n := Trace(a, false, answers), MountAt(a, answers, i);
    if Mounted(a, answers, i) {
      forall k | n < k < |t|
        ensures !t[k].call.Chroot?
      {
        NoChrootFrom(a, answers, k);
      }
      KeptIff(under, t, PlaceOf(a.mounts[i].destination), n);
    }
  }

  // ------------------------------------------------------ by configuration

  /** The path does not lead to the place or above it. */
  predicate Beside(path: bytes, q: Place) {
    PlaceOf(path) == [] || !(PlaceOf(path) <= q)
  }

  /** No later mount, masked or read-only path is on the place or above it. */
  ghost predicate Clear(a: ContainerArgs, i: nat, q: Place) {
    && (forall j :: i < j < |a.mounts| ==> Beside(a.mounts[j].destination, q))
    && (forall p :: p in a.masked ==> Beside(p, q))
    && (forall p :: p in a.readonly ==> Beside(p, q))
  }

  lemma BesideUnaffected(c: Call, q: Place)
    requires q != [] && (c.Mount? ==> Beside(c.dir, q))
    ensures !Affects(c, q)
  {
    hide PlaceOf;
  }

  lemma LaterMountBeside(a: ContainerArgs, i: nat, q: Place, j: nat, c: Call)
    requires Clear(a, i, q) && i < j < |a.mounts| && Planned(MountActs(a.mounts[j]), c)
    ensures c.Mount? ==> Beside(c.dir, q)
  {
    hide PlaceOf;
    var x :| x in MountActs(a.mounts[j]) && Mentions(x, c);
  }

  lemma LaterStageBeside(a: ContainerArgs, i: nat, q: Place, l: nat, c: Call)
    requires Clear(a, i, q) && l > 5 && DueAt(a, c, l)
    ensures c.Mount? ==> Beside(c.dir, q)
  {
    hide PlaceOf;
    RootPlace();
  }

  lemma {:induction false} UnaffectedFrom(under: u64, t: seq<Event>, n: nat, q: Place)
    requires n <= |t| && forall k :: n <= k < |t| ==> !t[k].call.Chroot? && !Affects(t[k].call, q)
    ensures Layers(under, t, q) == Layers(under, t[..n], q)
    decreases |t|
  {
    hide Layers, Affects;
    if n == |t| {
      assert t[..n] == t;
    } else {
      var k := |t| - 1;
      assert t == t[..k] + [t[k]] && t[..k][..n] == t[..n];
      UnaffectedFrom(under, t[..k], n, q);
      Unaffected(under, t[..k], t[k], q);
    }
  }

  /** By the configuration alone: with nothing later on its place or above it, a mount that
      succeeded is reached, and its options are in force if and only if it is not a bind
      that asks for some, which would need a second call. */
  lemma MountInForce(under: u64, a: ContainerArgs, answers: Answers, i: nat)
    requires Executed(Trace(a, false, answers)) && i < |a.mounts| && Mounted(a, answers, i)
    requires Clear(a, i, PlaceOf(a.mounts[i].destination))
    ensures var (m, q) := (a.mounts[i], PlaceOf(a.mounts[i].destination));
      var l := MountLayer(m, MountAt(a, answers, i));
      && Reach(Layers(under, Trace(a, false, answers), q), q) == Some(l)
      && Kept(under, Trace(a, false, answers), q, MountAt(a, answers, i))
      && (OptionsHold(l, m.flags) <==> !BindWithOptions(m.flags))
  {
    hide Trace, Executed, Stages, Each, Layers, PlaceOf, Affects, Clear, MountActs, OptionsHold, BindWithOptions;
    hide InForce;
    MountMade(under, a, answers, i);
    var t, n, q := Trace(a, false, answers), MountAt(a, answers, i), PlaceOf(a.mounts[i].destination);
    StagesMiddle(a);
    forall k | n + 1 <= k < |t|
      ensures !t[k].call.Chroot? && !Affects(t[k].call, q)
    {
      NoChrootFrom(a, answers, k);
      CallAfterItem(a, answers, 5, MountActs, a.mounts, i, k);
      if j :| i < j < |a.mounts| && Planned(MountActs(a.mounts[j]), t[k].call) {
        LaterMountBeside(a, i, q, j, t[k].call);
      } else {
        var l :| 5 < l < 14 && DueAt(a, t[k].call, l);
        LaterStageBeside(a, i, q, l, t[k].call);
      }
      BesideUnaffected(t[k].call, q);
    }
    UnaffectedFrom(under, t, n + 1, q);
    OptionsHoldIff(NonEmpty(a.mounts[i].source), NonEmpty(a.mounts[i].fsType), a.mounts[i].flags, n);
  }

  // ------------------------------------------------------------- witnesses

  /** The flags of the options "rbind" and "ro". */
  const RBIND_RO: u64 := MS_BIND + MS_REC + MS_RDONLY

  lemma RbindRoFlags()
    ensures BitSet(RBIND_RO, MS_RDONLY) && !BitSet(InForce(RBIND_RO), MS_RDONLY) && Pushes(RBIND_RO)
  {
  }

  /** So a mount with the options "rbind" and "ro" is never read-only. */
  lemma RbindRoIsWritable(under: u64, a: ContainerArgs, answers: Answers, i: nat)
    requires Executed(Trace(a, false, answers)) && i < |a.mounts| && a.mounts[i].flags == RBIND_RO
    requires Mounted(a, answers, i) && Clear(a, i, PlaceOf(a.mounts[i].destination))
    ensures BitSet(RBIND_RO, MS_RDONLY)
    ensures var q := PlaceOf(a.mounts[i].destination);
      !ReadOnly(Lands(under, Trace(a, false, answers), q))
  {
    hide Trace, Executed, MountActs, Layers, PlaceOf, MountAt, OptionsHold, BindWithOptions;
    MountInForce(under, a, answers, i);
    RbindRoFlags();
  }

  lemma EtcHosts()
    ensures |C("/etc/hosts")| > 1 && PlaceOf(C("/etc/hosts")) != []
  {
    var text := Unterminated(C("/etc/hosts"));
    assert text == Ascii("/etc/hosts");
    var k := Find(text, Sysctl.SLASH, 0);
    assert text[0] == Sysctl.SLASH && k == 0;
    var rest := text[1..];
    assert rest[0] == 0x65 && rest[3] == Sysctl.SLASH && rest[1] == 0x74 && rest[2] == 0x63;
    assert Find(rest, Sysctl.SLASH, 0) == 3 by {
      var f := Find(rest, Sysctl.SLASH, 0);
      assert f <= 3 && rest[f] == Sysctl.SLASH;
    }
    var names := Sysctl.Components(text);
    assert names == [text[..0]] + Sysctl.Components(rest);
    assert names[1] == rest[..3];
    assert Named(names) == Named(names[1..]);
    assert names[1..][0] == rest[..3] && |rest[..3]| == 3;
  }

  /** A container whose only mount is such a bind executes with it writable. */
  lemma RbindRoExample(under: u64, a: ContainerArgs, answers: Answers)
    requires a.argv != [] && forall n :: answers(n) == 0
    requires a.mounts == [MountSpec(C("/etc/hosts"), [0], C("/etc/hosts"), RBIND_RO)]
    requires a.masked == a.readonly == []
    ensures Executed(Trace(a, false, answers))
    ensures !ReadOnly(Lands(under, Trace(a, false, answers), PlaceOf(C("/etc/hosts"))))
  {
    hide Trace, Executed, MountActs, Layers, Lands, MountAt, PlaceOf, Pushes;
    AllSucceed(a, answers);
    EtcHosts();
    RbindRoFlags();
    RbindRoIsWritable(under, a, answers, 0);
  }
}
