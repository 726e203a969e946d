/** What becomes of masked and read-only paths by the time the init executes. */
module SetupConfinement {
  import opened Bytes
  import opened Outcomes
  import opened KernelFormat
  import opened Setup
  import opened SetupProofs
  import opened MountTree
  import opened SetupRoot
  import opened SetupMounts
  import Sysctl
  import SysctlProofs

  // ---------------------------------------------------------------- masks

  /** The first event of the masks, and of the read-only paths. */
  function MaskStart(a: ContainerArgs, answers: Answers): nat {
    |Upto(Stages(a), 8, answers).0|
  }

  function ReadonlyStart(a: ContainerArgs, answers: Answers): nat {
    |Upto(Stages(a), 9, answers).0|
  }

  /** A mount made since the masks began that is none of a place onto itself. */
  predicate Masks(a: ContainerArgs, answers: Answers, n: nat) {
    var t := Trace(a, false, answers);
    && MaskStart(a, answers) <= n < |t| && t[n].rc == 0 && t[n].call.Mount?
    && Pushes(t[n].call.flags) && !SelfBind(t[n].call) && PlaceOf(t[n].call.dir) != []
  }

  /** A successful bind of a place, not "/", onto itself. */
  predicate BindsAgain(e: Event) {
    e.rc == 0 && SelfBind(e.call) && Pushes(e.call.flags) && PlaceOf(e.call.dir) != []
  }

  /** A lookup of the place meets a mask, on it or above. */
  ghost predicate Hidden(under: u64, a: ContainerArgs, answers: Answers, p: Place) {
    exists n :: Stands(under, a, answers, n) && MaskPlace(a, answers, n) <= p
  }

  function MaskPlace(a: ContainerArgs, answers: Answers, n: nat): Place {
    var t := Trace(a, false, answers);
    if n < |t| && t[n].call.Mount? then PlaceOf(t[n].call.dir) else []
  }

  /** This mask is what its place shows when the init executes. */
  predicate Stands(under: u64, a: ContainerArgs, answers: Answers, n: nat) {
    Masks(a, answers, n) && Shown(under, Trace(a, false, answers), MaskPlace(a, answers, n), n)
  }

  /** Some bind of a directory above onto itself came later. */
  ghost predicate Lifted(a: ContainerArgs, answers: Answers, n: nat) {
    var t := Trace(a, false, answers);
    exists m :: n < m < |t| && BindsAgain(t[m]) && Above(PlaceOf(t[m].call.dir), MaskPlace(a, answers, n))
  }

  lemma MaskShown(under: u64, t: seq<Event>, e: Event)
    requires e.rc == 0 && e.call.Mount? && Pushes(e.call.flags) && !SelfBind(e.call)
    ensures Shown(under, t + [e], PlaceOf(e.call.dir), |t|)
  {
    hide Layers, PlaceOf, Remounts, InForce;
    var q := PlaceOf(e.call.dir);
    PushStep(under, t, e, q);
  }

  /** A mask stands exactly if no later mount but a bind of the place onto itself came on
      its place or above it. */
  lemma StandsIff(under: u64, a: ContainerArgs, answers: Answers, n: nat)
    requires Executed(Trace(a, false, answers)) && Masks(a, answers, n)
    ensures var t := Trace(a, false, answers);
      Stands(under, a, answers, n) <==> forall m :: n < m < |t| ==> !Uncovers(t[m], MaskPlace(a, answers, n))
  {
    hide Trace, Executed, Layers, PlaceOf, Uncovers, Shown, SelfBind, Pushes;
    var t := Trace(a, false, answers);
    UptoGrows(a, answers, 4, 8);
    forall m | n < m < |t|
      ensures !t[m].call.Chroot?
    {
      NoChrootFrom(a, answers, m);
    }
    assert t[..n + 1] == t[..n] + [t[n]];
    MaskShown(under, t[..n], t[n]);
    ShownIff(under, t, MaskPlace(a, answers, n), n);
  }

  /** What uncovers a mask is another mask, or a bind above it. */
  lemma UncoverKinds(a: ContainerArgs, answers: Answers, n: nat, m: nat)
    requires Masks(a, answers, n) && n < m < |Trace(a, false, answers)|
    ensures var (e, q) := (Trace(a, false, answers)[m], MaskPlace(a, answers, n));
      Uncovers(e, q) <==>
        || (Masks(a, answers, m) && MaskPlace(a, answers, m) <= q)
        || (BindsAgain(e) && Above(PlaceOf(e.call.dir), q))
  {
    hide Trace, PlaceOf, Pushes;
  }

  /** The last mask on a place or above it. */
  lemma {:induction false} LastMask(a: ContainerArgs, answers: Answers, n: nat) returns (l: nat)
    requires Masks(a, answers, n)
    ensures n <= l && Masks(a, answers, l) && MaskPlace(a, answers, l) <= MaskPlace(a, answers, n)
    ensures forall m :: l < m && Masks(a, answers, m) ==> !(MaskPlace(a, answers, m) <= MaskPlace(a, answers, l))
    decreases |Trace(a, false, answers)| - n
  {
    hide Trace, MaskPlace;
    if m: nat :| n < m && Masks(a, answers, m) && MaskPlace(a, answers, m) <= MaskPlace(a, answers, n) {
      MasksWithin(a, answers, n);
      l := LastMask(a, answers, m);
    } else {
      l := n;
    }
  }

  lemma MasksWithin(a: ContainerArgs, answers: Answers, n: nat)
    requires Masks(a, answers, n)
    ensures n < |Trace(a, false, answers)|
  {
  }

  /** A place is hidden when the init executes if and only if some mask on it or above it
      was not lifted by a bind of a directory above that mask onto itself. */
  lemma HiddenIff(under: u64, a: ContainerArgs, answers: Answers, p: Place)
    requires Executed(Trace(a, false, answers))
    ensures Hidden(under, a, answers, p) <==>
      exists n :: Masks(a, answers, n) && MaskPlace(a, answers, n) <= p && !Lifted(a, answers, n)
  {
    hide Trace, Executed, Masks, Uncovers, BindsAgain, MaskPlace, Shown;
    var t := Trace(a, false, answers);
    if Hidden(under, a, answers, p) {
      var n: nat :| Stands(under, a, answers, n) && MaskPlace(a, answers, n) <= p;
      StandsIff(under, a, answers, n);
      forall m | n < m < |t|
        ensures !(BindsAgain(t[m]) && t[m].call.Mount? && Above(PlaceOf(t[m].call.dir), MaskPlace(a, answers, n)))
      {
        UncoverKinds(a, answers, n, m);
      }
      BindsAreMounts();
      assert !Lifted(a, answers, n);
    }
    if n: nat :| Masks(a, answers, n) && MaskPlace(a, answers, n) <= p && !Lifted(a, answers, n) {
      var l := LastMask(a, answers, n);
      BindsAreMounts();
      forall m | l < m < |t|
        ensures !Uncovers(t[m], MaskPlace(a, answers, l))
      {
        UncoverKinds(a, answers, l, m);
      }
      StandsIff(under, a, answers, l);
    }
  }

  lemma BindsAreMounts()
    ensures forall e :: BindsAgain(e) ==> e.call.Mount?
  {
  }

  // ------------------------------------------------- masks by configuration

  /** The trace just before the `i`-th masked path. */
  function BeforeMask(a: ContainerArgs, answers: Answers, i: nat): seq<Event>
    requires i < |a.masked|
  {
    Before(a, answers, 8, MaskActs, a.masked, i)
  }

  /** One of the two calls for the path put a mask on it: /dev/null is none for itself. */
  predicate MaskMade(a: ContainerArgs, answers: Answers, i: nat)
    requires i < |a.masked|
  {
    var (p, n) := (a.masked[i], |BeforeMask(a, answers, i)|);
    |p| > 1 && PlaceOf(p) != []
    && (if answers(n) == 0 then PlaceOf(p) != PlaceOf(DevNull()) else answers(n + 1) == 0)
  }

  /** The event that made it. */
  function MaskEvent(a: ContainerArgs, answers: Answers, i: nat): nat
    requires i < |a.masked|
  {
    var n := |BeforeMask(a, answers, i)|;
    if answers(n) == 0 then n else n + 1
  }

  lemma MaskCalls(p: bytes)
    ensures MaskCall(p).Mount? && Pushes(MaskCall(p).flags) && MaskCall(p).dir == p
    ensures SelfBind(MaskCall(p)) <==> PlaceOf(DevNull()) == PlaceOf(p)
    ensures MaskElseCall(p).Mount? && Pushes(MaskElseCall(p).flags) && MaskElseCall(p).dir == p
    ensures !SelfBind(MaskElseCall(p))
  {
    hide PlaceOf;
  }

  lemma MaskPlays(p: bytes, answers: Answers, before: seq<Event>)
    requires |p| > 1
    ensures var (after, n) := (Play(MaskActs(p), answers, before).0, |before|);
      && n < |after| && after[n] == Event(MaskCall(p), answers(n))
      && (answers(n) != 0 ==> n + 1 < |after| && after[n + 1] == Event(MaskElseCall(p), answers(n + 1)))
  {
    hide Play, Perform, MaskCall, MaskElseCall;
    var x := Act(MaskCall(p), OnFailure(MaskElseCall(p)));
    assert MaskActs(p) == [x];
    PlayOne(x, answers, before);
    OnFailurePlays(MaskCall(p), MaskElseCall(p), answers, before);
  }

  lemma OnFailurePlays(c: Call, other: Call, answers: Answers, before: seq<Event>)
    ensures var n := |before|;
      var done := before + [Event(c, answers(n))];
      Perform(Act(c, OnFailure(other)), answers, before).0
        == if answers(n) == 0 then done else done + [Event(other, answers(n + 1))]
  {
  }

  /** Each masked path is bound over with /dev/null or, where that fails, covered with an
      empty read-only tmpfs. */
  lemma MaskAttempted(a: ContainerArgs, answers: Answers, i: nat)
    requires Executed(Trace(a, false, answers)) && i < |a.masked| && |a.masked[i]| > 1
    ensures var (t, p, n) := (Trace(a, false, answers), a.masked[i], |BeforeMask(a, answers, i)|);
      && MaskStart(a, answers) <= n < |t| && t[n] == Event(MaskCall(p), answers(n))
      && (answers(n) != 0 ==> n + 1 < |t| && t[n + 1] == Event(MaskElseCall(p), answers(n + 1)))
  {
    hide Play, Join, Stages, Each, MaskActs, MaskCall, MaskElseCall;
    StagesMiddle(a);
    WithinStage(a, answers, 8, MaskActs, a.masked, i);
    BeforeGrows(a, answers, 8, MaskActs, a.masked, i);
    MaskPlays(a.masked[i], answers, BeforeMask(a, answers, i));
  }

  lemma MaskMadeMasks(a: ContainerArgs, answers: Answers, i: nat)
    requires Executed(Trace(a, false, answers)) && i < |a.masked| && MaskMade(a, answers, i)
    ensures Masks(a, answers, MaskEvent(a, answers, i))
    ensures MaskPlace(a, answers, MaskEvent(a, answers, i)) == PlaceOf(a.masked[i])
  {
    hide Trace, Executed, BeforeMask, MaskStart, PlaceOf, Pushes, SelfBind, MaskCall, MaskElseCall;
    MaskAttempted(a, answers, i);
    MaskCalls(a.masked[i]);
  }

  /** The masks are those of masked paths, and come before any bind of a read-only path. */
  lemma MasksAreMasked(a: ContainerArgs, answers: Answers, n: nat)
    requires Executed(Trace(a, false, answers)) && Masks(a, answers, n)
    ensures n < ReadonlyStart(a, answers)
    ensures exists p :: p in a.masked && MaskPlace(a, answers, n) == PlaceOf(p)
  {
    hide Trace, Executed, Stages, Upto, DueAt, PlaceOf, Pushes, SelfBind;
    var t := Trace(a, false, answers);
    var l := DueFrom(a, answers, 8, n);
    MaskDue(a, t[n].call, l);
    if l == 8 {
      var p :| p in a.masked && t[n].call.dir == p;
    }
  }

  lemma MaskDue(a: ContainerArgs, c: Call, l: nat)
    requires l >= 8 && DueAt(a, c, l) && c.Mount? && Pushes(c.flags) && !SelfBind(c)
    ensures l == 8 && exists p :: p in a.masked && c.dir == p
  {
    hide PlaceOf;
    assert forall p :: SelfBind(SelfBindCall(p)) && !Pushes(ReadonlyCall(p).flags);
    assert !Pushes(SEAL.flags);
    assert forall p :: MaskCall(p).dir == p && MaskElseCall(p).dir == p;
  }

  /** A directory that is bound onto itself, properly above the place. */
  predicate BoundAbove(path: bytes, q: Place) {
    PlaceOf(path) != [] && Above(PlaceOf(path), q)
  }

  /** By the configuration alone, no bind can lift a mask of this place. */
  ghost predicate NothingLifts(a: ContainerArgs, q: Place) {
    && (forall r :: r in a.readonly ==> !BoundAbove(r, q))
    && (forall r :: r in a.masked && PlaceOf(r) == PlaceOf(DevNull()) ==> !BoundAbove(r, q))
  }

  lemma BindDue(a: ContainerArgs, e: Event, l: nat)
    requires l >= 8 && DueAt(a, e.call, l) && BindsAgain(e)
    ensures e.call.Mount?
    ensures || (e.call.dir in a.readonly)
      || (e.call.dir in a.masked && PlaceOf(e.call.dir) == PlaceOf(DevNull()))
  {
    hide PlaceOf;
    RootPlace();
    forall p
      ensures MaskCall(p).dir == MaskElseCall(p).dir == SelfBindCall(p).dir == p
      ensures SelfBind(MaskCall(p)) <==> PlaceOf(DevNull()) == PlaceOf(p)
      ensures !SelfBind(MaskElseCall(p)) && !SelfBind(ReadonlyCall(p)) && !SelfBind(SEAL)
    {
    }
  }

  lemma NotLifted(a: ContainerArgs, answers: Answers, n: nat)
    requires Executed(Trace(a, false, answers)) && Masks(a, answers, n) && NothingLifts(a, MaskPlace(a, answers, n))
    ensures !Lifted(a, answers, n)
  {
    hide Trace, Executed, Stages, Upto, DueAt, PlaceOf, MaskPlace, BindsAgain;
    var t := Trace(a, false, answers);
    BindsAreMounts();
    if Lifted(a, answers, n) {
      var m :| n < m < |t| && BindsAgain(t[m]) && Above(PlaceOf(t[m].call.dir), MaskPlace(a, answers, n));
      var l := DueFrom(a, answers, 8, m);
      BindDue(a, t[m], l);
      NotRoot(t[m]);
      assert false;
    }
  }

  lemma NotRoot(e: Event)
    requires BindsAgain(e)
    ensures e.call.Mount? && PlaceOf(e.call.dir) != []
  {
  }

  /** A masked path one of whose calls succeeded is hidden when the init executes, provided
      no read-only path is properly above it. */
  lemma PathMasked(under: u64, a: ContainerArgs, answers: Answers, i: nat)
    requires Executed(Trace(a, false, answers)) && i < |a.masked| && MaskMade(a, answers, i)
    requires NothingLifts(a, PlaceOf(a.masked[i]))
    ensures Hidden(under, a, answers, PlaceOf(a.masked[i]))
  {
    hide Trace, Executed, Masks, Lifted, Hidden, MaskMade, MaskEvent, NothingLifts, PlaceOf;
    MaskMadeMasks(a, answers, i);
    NotLifted(a, answers, MaskEvent(a, answers, i));
    HiddenIff(under, a, answers, PlaceOf(a.masked[i]));
  }

  // ------------------------------------------------------- read-only paths

  function BeforeReadonly(a: ContainerArgs, answers: Answers, j: nat): seq<Event>
    requires j <= |a.readonly|
  {
    Before(a, answers, 9, ReadonlyActs, a.readonly, j)
  }

  /** The `j`-th read-only path is on the place or above it, and was bound. */
  predicate Bound(a: ContainerArgs, answers: Answers, p: Place, j: nat)
    requires j < |a.readonly|
  {
    var r := a.readonly[j];
    |r| > 1 && PlaceOf(r) != [] && PlaceOf(r) <= p && answers(|BeforeReadonly(a, answers, j)|) == 0
  }

  /** And its remount succeeded. */
  predicate Sealed(a: ContainerArgs, answers: Answers, j: nat)
    requires j < |a.readonly|
  {
    answers(|BeforeReadonly(a, answers, j)| + 1) == 0
  }

  lemma ReadonlyPlays(r: bytes, answers: Answers, before: seq<Event>)
    requires |r| > 1
    ensures var n := |before|;
      var bound := before + [Event(SelfBindCall(r), answers(n))];
      Play(ReadonlyActs(r), answers, before).0
        == if answers(n) == 0 then bound + [Event(ReadonlyCall(r), answers(n + 1))] else bound
  {
    hide Play, Perform, SelfBindCall, ReadonlyCall;
    var x := Act(SelfBindCall(r), OnSuccess(ReadonlyCall(r)));
    assert ReadonlyActs(r) == [x];
    PlayOne(x, answers, before);
    OnSuccessPlays(SelfBindCall(r), ReadonlyCall(r), answers, before);
  }

  lemma OnSuccessPlays(c: Call, next: Call, answers: Answers, before: seq<Event>)
    ensures var n := |before|;
      var done := before + [Event(c, answers(n))];
      Perform(Act(c, OnSuccess(next)), answers, before).0
        == if answers(n) == 0 then done + [Event(next, answers(n + 1))] else done
  {
  }

  lemma ReadonlyAttempted(a: ContainerArgs, answers: Answers, j: nat)
    requires Executed(Trace(a, false, answers)) && j < |a.readonly| && |a.readonly[j]| > 1
    ensures var (t, r, n) := (Trace(a, false, answers), a.readonly[j], |BeforeReadonly(a, answers, j)|);
      && ReadonlyStart(a, answers) <= n < |t| && t[n] == Event(SelfBindCall(r), answers(n))
      && (answers(n) == 0 ==> n + 1 < |t| && t[n + 1] == Event(ReadonlyCall(r), answers(n + 1)))
  {
    hide Play, Join, Stages, Each, ReadonlyActs, SelfBindCall, ReadonlyCall;
    StagesMiddle(a);
    WithinStage(a, answers, 9, ReadonlyActs, a.readonly, j);
    BeforeGrows(a, answers, 9, ReadonlyActs, a.readonly, j);
    ReadonlyPlays(a.readonly[j], answers, BeforeReadonly(a, answers, j));
    var after := Play(ReadonlyActs(a.readonly[j]), answers, BeforeReadonly(a, answers, j)).0;
    var n := |BeforeReadonly(a, answers, j)|;
    assert after[n] == Trace(a, false, answers)[n];
    assert answers(n) == 0 ==> after[n + 1] == Trace(a, false, answers)[n + 1];
  }

  /** A masked path is not hidden if above every mask on it or above a read-only path was
      bound: the bind brings back what was masked. */
  lemma MaskLifted(under: u64, a: ContainerArgs, answers: Answers, p: Place)
    requires Executed(Trace(a, false, answers))
    requires forall m :: m in a.masked && PlaceOf(m) <= p && PlaceOf(m) != [] ==>
      exists j :: 0 <= j < |a.readonly| && Bound(a, answers, PlaceOf(m), j) && BoundAbove(a.readonly[j], PlaceOf(m))
    ensures !Hidden(under, a, answers, p)
  {
    hide Trace, Executed, Masks, Hidden, Bound, PlaceOf, BoundAbove, BindsAgain, ReadonlyStart, MaskPlace;
    HiddenIff(under, a, answers, p);
    forall n | Masks(a, answers, n) && MaskPlace(a, answers, n) <= p
      ensures Lifted(a, answers, n)
    {
      MasksAreMasked(a, answers, n);
      MaskNotRoot(a, answers, n);
      var m :| m in a.masked && MaskPlace(a, answers, n) == PlaceOf(m);
      var j :| 0 <= j < |a.readonly| && Bound(a, answers, PlaceOf(m), j) && BoundAbove(a.readonly[j], PlaceOf(m));
      BoundLifts(a, answers, PlaceOf(m), j);
    }
  }

  lemma MaskNotRoot(a: ContainerArgs, answers: Answers, n: nat)
    requires Masks(a, answers, n)
    ensures MaskPlace(a, answers, n) != []
  {
  }

  lemma BoundLifts(a: ContainerArgs, answers: Answers, q: Place, j: nat)
    requires Executed(Trace(a, false, answers)) && j < |a.readonly| && Bound(a, answers, q, j)
    requires BoundAbove(a.readonly[j], q)
    ensures var (t, m) := (Trace(a, false, answers), |BeforeReadonly(a, answers, j)|);
      && ReadonlyStart(a, answers) <= m < |t| && BindsAgain(t[m]) && t[m].call.Mount?
      && Above(PlaceOf(t[m].call.dir), q)
  {
    hide Trace, Executed, PlaceOf, BeforeReadonly, ReadonlyStart;
    ReadonlyAttempted(a, answers, j);
  }

  /** Paths as the decoder makes them. */
  predicate Terminated(paths: seq<bytes>) {
    forall i :: 0 <= i < |paths| ==> paths[i] != [] && paths[i][|paths[i]| - 1] == 0
  }

  lemma TerminatedPlace(p: bytes)
    requires p != [] && p[|p| - 1] == 0 && PlaceOf(p) != []
    ensures |p| > 1
  {
    EmptyPlace();
    if |p| == 1 {
      assert false;
    }
  }

  lemma EmptyPlace()
    ensures forall p: bytes :: |p| == 1 && p[0] == 0 ==> PlaceOf(p) == []
  {
    var empty: seq<bytes> := [[]];
    assert Sysctl.Components([]) == empty;
    assert empty[1..] == [] && Named(empty) == [];
    forall p: bytes | |p| == 1 && p[0] == 0
      ensures PlaceOf(p) == []
    {
      assert Unterminated(p) == [];
    }
  }

  /** Nothing is masked on /dev/null, a file, or below it. */
  ghost predicate NullUnmasked(a: ContainerArgs) {
    forall m :: m in a.masked ==> !(PlaceOf(DevNull()) <= PlaceOf(m))
  }

  /** A masked path on the place or above it, with no read-only path properly above. */
  ghost predicate StaysMasked(a: ContainerArgs, m: bytes, p: Place) {
    && m in a.masked && PlaceOf(m) != [] && PlaceOf(m) <= p
    && forall r :: r in a.readonly ==> !BoundAbove(r, PlaceOf(m))
  }

  /** When every call succeeds, the configuration decides: a place is hidden if and only if
      some masked path on it or above it has no read-only path properly above. */
  lemma HiddenAsConfigured(under: u64, a: ContainerArgs, answers: Answers, p: Place)
    requires Executed(Trace(a, false, answers)) && forall n :: answers(n) == 0
    requires Terminated(a.masked) && Terminated(a.readonly) && NullUnmasked(a)
    ensures Hidden(under, a, answers, p) <==>
      exists m :: StaysMasked(a, m, p)
  {
    hide Trace, Executed, Masks, Hidden, Lifted, BeforeMask, BeforeReadonly, MaskPlace, MaskEvent, PlaceOf, BoundAbove;
    HiddenIff(under, a, answers, p);
    if n: nat :| Masks(a, answers, n) && MaskPlace(a, answers, n) <= p && !Lifted(a, answers, n) {
      MasksAreMasked(a, answers, n);
      MaskNotRoot(a, answers, n);
      var m :| m in a.masked && MaskPlace(a, answers, n) == PlaceOf(m);
      forall r | r in a.readonly
        ensures !BoundAbove(r, PlaceOf(m))
      {
        if BoundAbove(r, PlaceOf(m)) {
          var j :| 0 <= j < |a.readonly| && a.readonly[j] == r;
          AboveBinds(r, PlaceOf(m));
          BoundLifts(a, answers, PlaceOf(m), j);
          LiftedBy(a, answers, n, |BeforeReadonly(a, answers, j)|);
          assert false;
        }
      }
      assert StaysMasked(a, m, p);
    }
    if m :| StaysMasked(a, m, p) {
      var i :| 0 <= i < |a.masked| && a.masked[i] == m;
      TerminatedPlace(m);
      assert !(PlaceOf(DevNull()) <= PlaceOf(m));
      assert MaskMade(a, answers, i);
      MaskMadeMasks(a, answers, i);
      NullNotMasked(a);
      NotLifted(a, answers, MaskEvent(a, answers, i));
    }
  }

  lemma NullNotMasked(a: ContainerArgs)
    requires NullUnmasked(a)
    ensures forall r :: r in a.masked ==> PlaceOf(r) != PlaceOf(DevNull())
  {
    hide PlaceOf;
  }

  lemma AboveBinds(r: bytes, q: Place)
    requires BoundAbove(r, q) && r != [] && r[|r| - 1] == 0
    ensures |r| > 1 && PlaceOf(r) != [] && PlaceOf(r) <= q
  {
    hide PlaceOf;
    TerminatedPlace(r);
  }

  lemma LiftedBy(a: ContainerArgs, answers: Answers, n: nat, m: nat)
    requires n < m < |Trace(a, false, answers)| && BindsAgain(Trace(a, false, answers)[m])
    requires Trace(a, false, answers)[m].call.Mount?
    requires Above(PlaceOf(Trace(a, false, answers)[m].call.dir), MaskPlace(a, answers, n))
    ensures Lifted(a, answers, n)
  {
    hide Trace, PlaceOf, MaskPlace, BindsAgain;
  }

  // ---------------------------------------------- where a lookup then lands

  /** A lookup of `p` ends in this layer of `q`, on it or above it. */
  ghost predicate LandsOn(under: u64, t: seq<Event>, p: Place, q: Place, l: Layer) {
    && q != [] && q <= p && Reach(Layers(under, t, q), q) == Some(l)
    && forall r: Place :: q < r && r <= p ==> Layers(under, t, r) == []
  }

  lemma {:induction false} LandsOnIs(under: u64, t: seq<Event>, p: Place, q: Place, l: Layer)
    requires LandsOn(under, t, p, q, l)
    ensures Lands(under, t, p) == Some(l)
    decreases |p|
  {
    hide Layers;
    if q != p {
      assert q < p;
      LandsOnIs(under, t, p[..|p| - 1], q, l);
    }
  }

  /** The event mounts nothing on the place or above it. */
  predicate Aside(e: Event, p: Place) {
    !e.call.Chroot? && (e.rc != 0 || (e.call.Mount? && !Propagates(e.call.flags) ==> Beside(e.call.dir, p)))
  }

  lemma AsideStep(under: u64, t: seq<Event>, e: Event, p: Place, q: Place, l: Layer)
    requires LandsOn(under, t, p, q, l) && Aside(e, p)
    ensures LandsOn(under, t + [e], p, q, l)
  {
    hide Layers, PlaceOf, Remounts, Propagates;
    forall r: Place | q <= r && r <= p
      ensures Layers(under, t + [e], r) == Layers(under, t, r)
    {
      Unaffected(under, t, e, r);
    }
  }

  lemma {:induction false} AsideFrom(under: u64, t: seq<Event>, n: nat, p: Place, q: Place, l: Layer)
    requires n <= |t| && LandsOn(under, t[..n], p, q, l) && forall k :: n <= k < |t| ==> Aside(t[k], p)
    ensures LandsOn(under, t, p, q, l)
    decreases |t|
  {
    hide LandsOn, Aside;
    if n == |t| {
      assert t[..n] == t;
    } else {
      var k := |t| - 1;
      assert t == t[..k] + [t[k]] && t[..k][..n] == t[..n];
      AsideFrom(under, t[..k], n, p, q, l);
      AsideStep(under, t[..k], t[k], p, q, l);
    }
  }

  /** What the calls for a read-only path leave it on. */
  function BoundLayer(r: bytes, remount: int, n: nat): Layer {
    Layer(Some(r), None, if remount == 0 then SEALED else MS_BIND, n)
  }

  lemma BindFlags(r: bytes)
    ensures var (b, s) := (SelfBindCall(r), ReadonlyCall(r));
      && b.Mount? && b.dir == r && !Remounts(b.flags) && !Propagates(b.flags) && InForce(b.flags) == MS_BIND
      && !RecursiveBind(b) && s.Mount? && s.dir == r && Remounts(s.flags) && !Propagates(s.flags) && s.flags == SEALED
      && b.src == Some(r) && b.typ == None
  {
  }

  /** A bind of a place onto itself is what lookups of all that is below it then end in. */
  lemma BoundLands(under: u64, t: seq<Event>, r: bytes, p: Place)
    requires PlaceOf(r) != [] && PlaceOf(r) <= p
    ensures LandsOn(under, t + [Event(SelfBindCall(r), 0)], p, PlaceOf(r), Layer(Some(r), None, MS_BIND, |t|))
  {
    hide Layers, PlaceOf, Remounts, Propagates, InForce, RecursiveBind, SelfBindCall;
    BindFlags(r);
    var e, q := Event(SelfBindCall(r), 0), PlaceOf(r);
    PushStep(under, t, e, q);
    forall x: Place | q < x && x <= p
      ensures Layers(under, t + [e], x) == []
    {
      HideStep(under, t, e, x);
    }
  }

  /** And its remount changes that mount only. */
  lemma SealedLands(under: u64, t: seq<Event>, r: bytes, p: Place, rc: int, l: Layer)
    requires LandsOn(under, t, p, PlaceOf(r), l)
    ensures LandsOn(under, t + [Event(ReadonlyCall(r), rc)], p, PlaceOf(r), if rc == 0 then l.(flags := SEALED) else l)
  {
    hide Layers, PlaceOf, Remounts, Propagates, ReadonlyCall;
    BindFlags(r);
    var e, q := Event(ReadonlyCall(r), rc), PlaceOf(r);
    if rc == 0 {
      RemountStep(under, t, e, q);
      forall x: Place | q < x && x <= p
        ensures Layers(under, t + [e], x) == []
      {
        Unaffected(under, t, e, x);
      }
    } else {
      forall x: Place | q <= x && x <= p
        ensures Layers(under, t + [e], x) == Layers(under, t, x)
      {
        Unaffected(under, t, e, x);
      }
    }
  }

  lemma BoundItem(under: u64, r: bytes, answers: Answers, before: seq<Event>, p: Place)
    requires |r| > 1 && PlaceOf(r) != [] && PlaceOf(r) <= p && answers(|before|) == 0
    ensures LandsOn(under, Play(ReadonlyActs(r), answers, before).0, p, PlaceOf(r),
                    BoundLayer(r, answers(|before| + 1), |before|))
  {
    hide Play, LandsOn, PlaceOf, ReadonlyActs, SelfBindCall, ReadonlyCall;
    ReadonlyPlays(r, answers, before);
    var bound := before + [Event(SelfBindCall(r), 0)];
    BoundLands(under, before, r, p);
    SealedLands(under, bound, r, p, answers(|before| + 1), Layer(Some(r), None, MS_BIND, |before|));
  }

  lemma OtherItem(under: u64, r: bytes, answers: Answers, before: seq<Event>, p: Place, q: Place, l: Layer)
    requires LandsOn(under, before, p, q, l) && (|r| <= 1 || answers(|before|) != 0 || Beside(r, p))
    ensures LandsOn(under, Play(ReadonlyActs(r), answers, before).0, p, q, l)
  {
    hide LandsOn, PlaceOf, Beside, SelfBindCall, ReadonlyCall;
    if |r| <= 1 {
      PlayNone(answers);
    } else {
      hide Play, ReadonlyActs;
      ReadonlyPlays(r, answers, before);
      BindFlags(r);
      var e := Event(SelfBindCall(r), answers(|before|));
      AsideStep(under, before, e, p, q, l);
      if answers(|before|) == 0 {
        AsideStep(under, before + [e], Event(ReadonlyCall(r), answers(|before| + 1)), p, q, l);
      }
    }
  }

  lemma {:induction false} RestLands(
    under: u64, a: ContainerArgs, answers: Answers, p: Place, j: nat, k: nat, q: Place, l: Layer)
    requires Executed(Trace(a, false, answers)) && j <= k <= |a.readonly|
    requires LandsOn(under, BeforeReadonly(a, answers, j), p, q, l)
    requires forall i :: j <= i < |a.readonly| ==> !Bound(a, answers, p, i)
    ensures LandsOn(under, BeforeReadonly(a, answers, k), p, q, l)
    decreases k
  {
    hide Trace, Executed, LandsOn, PlaceOf, BeforeReadonly, ReadonlyActs, Play;
    if k > j {
      RestLands(under, a, answers, p, j, k - 1, q, l);
      NextReadonly(a, answers, k - 1);
      assert !Bound(a, answers, p, k - 1);
      OtherItem(under, a.readonly[k - 1], answers, BeforeReadonly(a, answers, k - 1), p, q, l);
    }
  }

  lemma NextReadonly(a: ContainerArgs, answers: Answers, j: nat)
    requires Executed(Trace(a, false, answers)) && j < |a.readonly|
    ensures BeforeReadonly(a, answers, j + 1)
         == Play(ReadonlyActs(a.readonly[j]), answers, BeforeReadonly(a, answers, j)).0
  {
    hide Play, Join, Stages, Each, ReadonlyActs;
    StagesMiddle(a);
    PlanEnds(a, false, answers);
    var start := Upto(Stages(a), 9, answers).0;
    UptoOn(Stages(a), 9, answers);
    UptoOn(Stages(a), 10, answers);
    StageDone(Stages(a), 9, answers);
    EachSplit(ReadonlyActs, a.readonly, j);
    PlayConcat(Each(ReadonlyActs, a.readonly[..j]), Each(ReadonlyActs, a.readonly[j..]), answers, start);
    EachSnoc(ReadonlyActs, a.readonly, j, answers, start);
  }

  lemma AllReadonly(a: ContainerArgs, answers: Answers)
    requires Executed(Trace(a, false, answers))
    ensures BeforeReadonly(a, answers, |a.readonly|) == Upto(Stages(a), 10, answers).0
    ensures Upto(Stages(a), 10, answers).0 <= Trace(a, false, answers)
  {
    hide Play, Join, Stages, Each, ReadonlyActs;
    StagesMiddle(a);
    PlanEnds(a, false, answers);
    UptoOn(Stages(a), 9, answers);
    StageDone(Stages(a), 9, answers);
    UptoPrefix(Stages(a), 10, answers);
    assert a.readonly[..|a.readonly|] == a.readonly;
  }

  lemma LateAside(a: ContainerArgs, e: Event, l: nat, p: Place)
    requires l >= 10 && DueAt(a, e.call, l)
    ensures Aside(e, p)
  {
    hide PlaceOf;
    RootPlace();
  }

  /** A place on or below a read-only path that was bound is read-only when the init
      executes if and only if the remount after the last such bind succeeded. */
  lemma ReadOnlyIff(under: u64, a: ContainerArgs, answers: Answers, p: Place, j: nat)
    requires Executed(Trace(a, false, answers)) && j < |a.readonly| && Bound(a, answers, p, j)
    requires forall k :: j < k < |a.readonly| ==> !Bound(a, answers, p, k)
    ensures ReadOnly(Lands(under, Trace(a, false, answers), p)) <==> Sealed(a, answers, j)
  {
    hide Trace, Executed, LandsOn, PlaceOf, BeforeReadonly, ReadonlyActs, Play, Stages, Upto, Layers, DueAt, Aside;
    var t, r, n := Trace(a, false, answers), a.readonly[j], |BeforeReadonly(a, answers, j)|;
    var l := BoundLayer(r, answers(n + 1), n);
    BoundItem(under, r, answers, BeforeReadonly(a, answers, j), p);
    NextReadonly(a, answers, j);
    RestLands(under, a, answers, p, j + 1, |a.readonly|, PlaceOf(r), l);
    AllReadonly(a, answers);
    var c := |Upto(Stages(a), 10, answers).0|;
    forall m | c <= m < |t|
      ensures Aside(t[m], p)
    {
      var k := DueFrom(a, answers, 10, m);
      LateAside(a, t[m], k, p);
    }
    assert t[..c] == Upto(Stages(a), 10, answers).0;
    AsideFrom(under, t, c, p, PlaceOf(r), l);
    LandsOnIs(under, t, p, PlaceOf(r), l);
    BoundFlags();
  }

  lemma BoundFlags()
    ensures BitSet(SEALED, MS_RDONLY) && !BitSet(MS_BIND, MS_RDONLY)
  {
  }

  lemma {:induction false} LastBound(a: ContainerArgs, answers: Answers, p: Place, i: nat) returns (j: nat)
    requires i < |a.readonly| && Bound(a, answers, p, i)
    ensures i <= j < |a.readonly| && Bound(a, answers, p, j)
    ensures forall k :: j < k < |a.readonly| ==> !Bound(a, answers, p, k)
    decreases |a.readonly| - i
  {
    hide Bound;
    if k :| i < k < |a.readonly| && Bound(a, answers, p, k) {
      j := LastBound(a, answers, p, k);
    } else {
      j := i;
    }
  }

  /** A read-only path of which both calls succeeded is read-only when the init executes,
      provided that no later read-only path above it was bound and then not remounted. */
  lemma PathReadOnly(under: u64, a: ContainerArgs, answers: Answers, i: nat)
    requires Executed(Trace(a, false, answers)) && i < |a.readonly| && |a.readonly[i]| > 1
    requires answers(|BeforeReadonly(a, answers, i)|) == 0 && Sealed(a, answers, i)
    requires forall k :: i < k < |a.readonly| && Bound(a, answers, PlaceOf(a.readonly[i]), k) ==> Sealed(a, answers, k)
    ensures ReadOnly(Lands(under, Trace(a, false, answers), PlaceOf(a.readonly[i])))
  {
    hide Trace, Executed, PlaceOf, BeforeReadonly, Layers;
    var p, n := PlaceOf(a.readonly[i]), |BeforeReadonly(a, answers, i)|;
    if p == [] {
      ReadonlyAttempted(a, answers, i);
      BindFlags(a.readonly[i]);
      RootPathReadOnly(under, a, answers, n + 1);
    } else {
      var j := LastBound(a, answers, p, i);
      ReadOnlyIff(under, a, answers, p, j);
    }
  }

  // ------------------------------------------------------------- witnesses

  /** A name that takes part in a path. */
  predicate IsName(c: bytes) {
    c != [] && c[0] != Sysctl.DOT && forall i :: 0 <= i < |c| ==> c[i] != Sysctl.SLASH && c[i] != 0
  }

  lemma OneName(x: bytes)
    requires IsName(x)
    ensures Sysctl.Components(x) == [x]
  {
  }

  lemma NamedName(x: bytes, rest: seq<bytes>)
    requires IsName(x)
    ensures Named([x] + rest) == [x] + Named(rest)
    ensures Named([[], x] + rest) == [x] + Named(rest)
  {
    assert ([x] + rest)[1..] == rest && ([[], x] + rest)[1..] == [x] + rest;
  }

  lemma PlaceOf1(x: bytes)
    requires IsName(x)
    ensures PlaceOf(Path1(x)) == [x]
  {
    hide Sysctl.Components, Named;
    var text := [] + [Sysctl.SLASH] + x;
    assert Unterminated(Path1(x)) == text;
    OneName(x);
    SysctlProofs.ComponentsStep([], x);
    NamedName(x, []);
    NoNames();
    assert Sysctl.Components(text) == [[], x] + [];
  }

  lemma PlaceOf2(x: bytes, y: bytes)
    requires IsName(x) && IsName(y)
    ensures PlaceOf(Path2(x, y)) == [x, y]
  {
    hide Sysctl.Components, Named;
    var rest := x + [Sysctl.SLASH] + y;
    var text := [] + [Sysctl.SLASH] + rest;
    assert Unterminated(Path2(x, y)) == text;
    OneName(y);
    SysctlProofs.ComponentsStep(x, y);
    SysctlProofs.ComponentsStep([], rest);
    NamedName(y, []);
    NamedName(x, [y]);
    NoNames();
    assert [y] + [] == [y];
    assert Sysctl.Components(text) == [[], x] + [y];
  }

  lemma NoNames()
    ensures Named([]) == []
  {
  }

  /** "proc", "kcore" */
  const PROC: bytes := [0x70, 0x72, 0x6F, 0x63]
  const KCORE: bytes := [0x6B, 0x63, 0x6F, 0x72, 0x65]

  lemma ProcPlaces()
    ensures PlaceOf(Path1(PROC)) == [PROC] && PlaceOf(Path2(PROC, KCORE)) == [PROC, KCORE]
    ensures PlaceOf(DevNull()) != [PROC, KCORE]
  {
    hide PlaceOf;
    PlaceOf1(PROC);
    PlaceOf2(PROC, KCORE);
    PlaceOf2([0x64, 0x65, 0x76], [0x6E, 0x75, 0x6C, 0x6C]);
  }

  /** Masking /proc/kcore and making /proc read-only leaves /proc/kcore visible, every
      call having succeeded: the bind of /proc comes after the mask and without it. */
  lemma MaskExample(under: u64, a: ContainerArgs, answers: Answers)
    requires a.argv != [] && forall n :: answers(n) == 0
    requires a.masked == [Path2(PROC, KCORE)] && a.readonly == [Path1(PROC)]
    ensures Executed(Trace(a, false, answers)) && MaskMade(a, answers, 0)
    ensures !Hidden(under, a, answers, PlaceOf(Path2(PROC, KCORE)))
  {
    hide Trace, Executed, PlaceOf, BeforeReadonly, BeforeMask, Hidden;
    AllSucceed(a, answers);
    ProcPlaces();
    var p := PlaceOf(Path2(PROC, KCORE));
    assert Bound(a, answers, p, 0) && BoundAbove(a.readonly[0], p);
    MaskLifted(under, a, answers, p);
  }

  /** "sys" */
  const SYS: bytes := [0x73, 0x79, 0x73]

  lemma ReadonlyIsPlain(a: ContainerArgs)
    ensures Plain(Stages(a)[9])
  {
    hide Stages, Each;
    StagesMiddle(a);
    EachPlain(ReadonlyActs, a.readonly);
  }

  /** What happens before the `j`-th read-only path does not depend on later answers. */
  lemma SameBefore(a: ContainerArgs, j: nat, c: nat, rc: int)
    requires j <= |a.readonly| && Executed(Trace(a, false, Zero())) && c >= |BeforeReadonly(a, Zero(), j)|
    requires c >= |Upto(Stages(a), 9, Zero()).0|
    ensures BeforeReadonly(a, OneFails(c, rc), j) == BeforeReadonly(a, Zero(), j)
  {
    hide Play, Join, Stages, Each;
    SameUntil(a, 9, c, rc);
    PlayAgrees(Each(ReadonlyActs, a.readonly[..j]), Zero(), OneFails(c, rc), Upto(Stages(a), 9, Zero()).0);
  }

  lemma LastItemEnds(a: ContainerArgs, answers: Answers)
    requires |a.readonly| == 2 && |a.readonly[1]| > 1 && Upto(Stages(a), 9, answers).1
    requires answers(|BeforeReadonly(a, answers, 1)|) == 0
    ensures |Upto(Stages(a), 10, answers).0| == |BeforeReadonly(a, answers, 1)| + 2
  {
    hide Play, Join, Stages, Each, ReadonlyActs;
    StagesMiddle(a);
    StageDone(Stages(a), 9, answers);
    var start := Upto(Stages(a), 9, answers).0;
    assert a.readonly[..2] == a.readonly && a.readonly[..1] == [a.readonly[0]];
    EachSnoc(ReadonlyActs, a.readonly, 1, answers, start);
    FirstItemOn(a.readonly[..1], answers, start);
    ReadonlyPlays(a.readonly[1], answers, BeforeReadonly(a, answers, 1));
  }

  /** Plain plans are always played to their end. */
  lemma FirstItemOn(paths: seq<bytes>, answers: Answers, t: seq<Event>)
    ensures Play(Each(ReadonlyActs, paths), answers, t).1
  {
    hide Play, Each;
    EachPlain(ReadonlyActs, paths);
    if !Play(Each(ReadonlyActs, paths), answers, t).1 {
      var k := CutShort(Each(ReadonlyActs, paths), answers, t);
      assert Each(ReadonlyActs, paths)[k] in Each(ReadonlyActs, paths);
      assert false;
    }
  }

  /** With /proc/sys and /proc read-only, and only the remount of /proc failing, /proc/sys
      is writable, though both its own calls succeeded. */
  lemma NestedExample(under: u64, a: ContainerArgs) returns (answers: Answers)
    requires a.argv != [] && a.readonly == [Path2(PROC, SYS), Path1(PROC)]
    ensures Executed(Trace(a, false, answers))
    ensures answers(|BeforeReadonly(a, answers, 0)|) == 0 && Sealed(a, answers, 0)
    ensures !ReadOnly(Lands(under, Trace(a, false, answers), PlaceOf(Path2(PROC, SYS))))
  {
    hide Trace, Executed, PlaceOf, BeforeReadonly, Stages, Upto, Play, Join;
    AllSucceed(a, Zero());
    PlaceOf1(PROC);
    PlaceOf2(PROC, SYS);
    UptoOn(Stages(a), 9, Zero());
    ReadonlyAttempted(a, Zero(), 0);
    ReadonlyAttempted(a, Zero(), 1);
    NextReadonly(a, Zero(), 0);
    ReadonlyPlays(a.readonly[0], Zero(), BeforeReadonly(a, Zero(), 0));
    var c := |BeforeReadonly(a, Zero(), 1)| + 1;
    answers := OneFails(c, -1);
    SameUntil(a, 9, c, -1);
    SameBefore(a, 0, c, -1);
    SameBefore(a, 1, c, -1);
    ReadonlyIsPlain(a);
    StageOn(a, answers, 9);
    LastItemEnds(a, answers);
    OnFrom(a, answers, 10);
    ReadOnlyIff(under, a, answers, PlaceOf(Path2(PROC, SYS)), 1);
  }

  /** A configured mount is no longer reached once a read-only path above it was bound. */
  lemma MountLost(under: u64, a: ContainerArgs, answers: Answers, i: nat, j: nat)
    requires Executed(Trace(a, false, answers)) && i < |a.mounts| && Mounted(a, answers, i) && j < |a.readonly|
    requires Bound(a, answers, PlaceOf(a.mounts[i].destination), j)
    ensures !Kept(under, Trace(a, false, answers), PlaceOf(a.mounts[i].destination), MountAt(a, answers, i))
  {
    hide Trace, Executed, PlaceOf, BeforeReadonly, MountAt, Kept, Stages, Upto, Pushes;
    MountKept(under, a, answers, i);
    ReadonlyAttempted(a, answers, j);
    BindCovers(a.readonly[j], PlaceOf(a.mounts[i].destination));
    MountBefore(a, answers, i);
  }

  lemma BindCovers(r: bytes, q: Place)
    requires PlaceOf(r) != [] && PlaceOf(r) <= q
    ensures Covers(Event(SelfBindCall(r), 0), q)
  {
    hide PlaceOf;
  }

  lemma MountBefore(a: ContainerArgs, answers: Answers, i: nat)
    requires Executed(Trace(a, false, answers)) && i < |a.mounts| && |a.mounts[i].destination| > 1
    ensures MountAt(a, answers, i) < ReadonlyStart(a, answers)
  {
    hide Trace, Executed, Play, Stages, Each, MountActs, Upto;
    MountMade(0, a, answers, i);
    StagesMiddle(a);
    WithinStage(a, answers, 5, MountActs, a.mounts, i);
    UptoGrows(a, answers, 6, 9);
  }
}
