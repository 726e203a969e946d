/** Conservation of exit-watch slots over runs, and what the text plane's `kill` does
    to slots and to inits. */
module LifecycleSlots {
  import opened Bytes
  import opened Outcomes
  import opened WatchTable
  import opened Registry
  import opened Lifecycle
  import opened LifecycleInvariant
  import opened LifecycleRuns

  ghost predicate Aloft(s: Sys, id: nat) {
    exists t :: t in s.flights && s.flights[t].id == Some(id)
  }

  /** The containers, registered or still being created, whose watch succeeded. */
  ghost function Holders(s: Sys): set<nat> {
    set id | id in s.watched && (id in s.reg.containers || Aloft(s, id))
  }

  /** The container, registered or being created, is that of this pid. */
  ghost predicate Has(s: Sys, id: nat, pid: int) {
    || (id in s.reg.containers && s.reg.containers[id].pid == pid)
    || (exists t :: t in s.flights && s.flights[t].id == Some(id) && s.flights[t].pid == pid)
  }

  /** A slot that no container or creation has the pid of. */
  ghost predicate Lost(s: Sys, p: int) {
    p in s.watch && !Held(s, p)
  }

  ghost function LostSlots(s: Sys): set<int> {
    set p | p in s.watch && Lost(s, p)
  }

  predicate LeakedSlot(s: Sys, pid: int) {
    pid in s.slotOf && s.slotOf[pid].Leaked?
  }

  lemma LostIsLeaked(s: Sys, p: int)
    requires Ids(s) && Pids(s) && Slots(s)
    ensures Lost(s, p) <==> LeakedSlot(s, p)
  {
    if p in s.slotOf {
      assert Owned(s, p);
    }
    if Held(s, p) {
      if id :| id in s.reg.containers && s.reg.containers[id].pid == p {
        assert Owns(s, p, id, Of(id));
      } else {
        var t :| t in s.flights && s.flights[t].pid == p;
        if s.flights[t].id.Some? {
          assert Owns(s, p, s.flights[t].id.value, InFlight(t));
        }
      }
    }
  }

  // ------------------------------------------------------------- counting

  /** Whose slot this is. */
  ghost function HolderOf(s: Sys, p: int): nat
    requires Ids(s) && Slots(s) && p in s.watch && !LeakedSlot(s, p)
  {
    match s.slotOf[p]
    case Of(id) => id
    case InFlight(t) => assert Owned(s, p); s.flights[t].id.value
  }

  lemma HolderHolds(s: Sys, p: int)
    requires Ids(s) && Slots(s) && p in s.watch && !LeakedSlot(s, p)
    ensures HolderOf(s, p) in Holders(s) && Has(s, HolderOf(s, p), p)
  {
    assert Owned(s, p);
    match s.slotOf[p]
    case Of(id) => assert Owns(s, s.reg.containers[id].pid, id, Of(id));
    case InFlight(t) => assert Owns(s, s.flights[t].pid, s.flights[t].id.value, InFlight(t));
  }

  lemma HolderUnique(s: Sys, p: int, q: int)
    requires Ids(s) && Slots(s) && p in s.watch && q in s.watch && !LeakedSlot(s, p) && !LeakedSlot(s, q)
    requires HolderOf(s, p) == HolderOf(s, q)
    ensures p == q
  {
    assert Owned(s, p) && Owned(s, q);
  }

  lemma HolderHas(s: Sys, id: nat) returns (p: int)
    requires Ids(s) && Slots(s) && id in Holders(s)
    ensures p in s.watch && !LeakedSlot(s, p) && HolderOf(s, p) == id
  {
    if id in s.reg.containers {
      p := s.reg.containers[id].pid;
      assert Owns(s, p, id, Of(id));
    } else {
      var t :| t in s.flights && s.flights[t].id == Some(id);
      p := s.flights[t].pid;
      assert Owns(s, p, id, InFlight(t));
    }
  }

  lemma {:induction false} SameSize<A, B>(xs: set<A>, ys: set<B>, f: A --> B)
    requires forall x :: x in xs ==> f.requires(x) && f(x) in ys
    requires forall x, y :: x in xs && y in xs && f(x) == f(y) ==> x == y
    requires forall y :: y in ys ==> exists x :: x in xs && f(x) == y
    ensures |xs| == |ys|
  {
    if xs == {} {
      assert ys == {};
    } else {
      var x :| x in xs;
      forall y | y in ys - {f(x)}
        ensures exists z :: z in xs - {x} && f(z) == y
      {
        var z :| z in xs && f(z) == y;
        assert z in xs - {x};
      }
      SameSize(xs - {x}, ys - {f(x)}, f);
    }
  }

  lemma HoldersCounted(s: Sys)
    requires Ids(s) && Pids(s) && Slots(s)
    ensures |s.watch| == |Holders(s)| + |LostSlots(s)|
  {
    hide Holders, HolderOf, LeakedSlot, Lost, Ids, Pids, Slots;
    forall p
      ensures Lost(s, p) <==> LeakedSlot(s, p)
    {
      LostIsLeaked(s, p);
    }
    var kept := s.watch.Keys - LostSlots(s);
    var f := p requires Ids(s) && Slots(s) && p in s.watch && !LeakedSlot(s, p) => HolderOf(s, p);
    forall p | p in kept
      ensures f.requires(p) && f(p) in Holders(s)
    {
      HolderHolds(s, p);
    }
    forall p, q | p in kept && q in kept && f(p) == f(q)
      ensures p == q
    {
      HolderUnique(s, p, q);
    }
    forall id | id in Holders(s)
      ensures exists p :: p in kept && f(p) == id
    {
      var p := HolderHas(s, id);
      assert p in kept;
    }
    SameSize(kept, Holders(s), f);
    assert |s.watch| == |s.watch.Keys|;
  }

  /** A container has one pid, and a pid one container. */
  lemma HasOnce(s: Sys, id: nat, other: nat, p: int, q: int)
    requires Ids(s) && Pids(s) && Has(s, id, p) && Has(s, other, q)
    ensures id == other <==> p == q
  {
  }

  // ------------------------------------------------------------- leaking

  /** A text `kill` of the pid of a registered, watched container whose task is not gone. */
  ghost predicate Leaks(s: Sys, step: Step) {
    step.TextKill? && !Vanished(s, step.pid)
    && exists id :: id in s.reg.containers && id in s.watched && s.reg.containers[id].pid == step.pid
  }

  lemma TextKillLabels(s: Sys, pid: int, p: int)
    requires Inv(s)
    ensures LeakedSlot(Next(s, TextKill(pid)), p) <==> LeakedSlot(s, p) || (p == pid && Leaks(s, TextKill(pid)))
  {
    hide Ids, Pids, Gating, Passing, Recording, Reporting;
    if p in s.slotOf {
      assert Owned(s, p);
    }
    if id :| id in s.reg.containers && s.reg.containers[id].pid == pid {
      assert Owns(s, pid, id, Of(id));
    }
  }

  /** A text `kill` leaves the slot of its pid to nobody exactly if the pid is that of a
      registered, watched container whose task is not gone. */
  lemma TextKillLeaks(s: Sys, pid: int, p: int)
    requires Inv(s)
    ensures Lost(Next(s, TextKill(pid)), p) <==> Lost(s, p) || (p == pid && Leaks(s, TextKill(pid)))
  {
    hide Next, Lost, LeakedSlot, Leaks, Ids, Pids, Gating, Passing, Slots, Recording, Reporting;
    TextKillLabels(s, pid, p);
    StepKeeps(s, TextKill(pid));
    LostIsLeaked(s, p);
    LostIsLeaked(Next(s, TextKill(pid)), p);
  }

  lemma LeakedStep(s: Sys, step: Step, pid: int)
    requires Inv(s) && LeakedSlot(s, pid)
    ensures LeakedSlot(Next(s, step), pid)
  {
    hide Gating, Passing, Recording, Reporting, WatchMap;
  }

  lemma OnlyTextKillLabels(s: Sys, step: Step, pid: int)
    requires !step.TextKill? && LeakedSlot(Next(s, step), pid)
    ensures LeakedSlot(s, pid)
  {
    hide WatchMap;
  }

  /** A step loses a slot exactly if it is such a `kill`; and none is ever found again. */
  lemma LostStep(s: Sys, step: Step)
    requires Inv(s)
    ensures LostSlots(s) <= LostSlots(Next(s, step))
    ensures LostSlots(Next(s, step)) == {} <==> LostSlots(s) == {} && !Leaks(s, step)
  {
    hide Next, Lost, LeakedSlot, Leaks, Ids, Pids, Gating, Passing, Slots, Recording, Reporting;
    var t := Next(s, step);
    StepKeeps(s, step);
    forall p
      ensures (Lost(s, p) <==> LeakedSlot(s, p)) && (Lost(t, p) <==> LeakedSlot(t, p))
      ensures Lost(t, p) <==> Lost(s, p) || (Leaks(s, step) && step.TextKill? && p == step.pid)
    {
      LostIsLeaked(s, p);
      LostIsLeaked(t, p);
      LostInStep(s, step, p);
    }
    LostAreWatched(s);
    LostAreWatched(t);
    if Leaks(s, step) {
      LeaksIsTextKill(s, step);
      assert step.pid in LostSlots(t);
    }
  }

  lemma LostAreWatched(s: Sys)
    ensures forall p :: Lost(s, p) <==> p in LostSlots(s)
  {
  }

  lemma LeaksIsTextKill(s: Sys, step: Step)
    requires Leaks(s, step)
    ensures step.TextKill?
  {
  }

  lemma LostInStep(s: Sys, step: Step, p: int)
    requires Inv(s)
    ensures Leaks(s, step) ==> step.TextKill?
    ensures LeakedSlot(Next(s, step), p) <==> LeakedSlot(s, p) || (Leaks(s, step) && step.TextKill? && p == step.pid)
  {
    hide Next, LeakedSlot, Ids, Pids, Gating, Passing, Slots, Recording, Reporting;
    if step.TextKill? {
      TextKillLabels(s, step.pid, p);
    } else {
      if LeakedSlot(s, p) {
        LeakedStep(s, step, p);
      }
      if LeakedSlot(Next(s, step), p) {
        OnlyTextKillLabels(s, step, p);
      }
    }
  }

  /** Some step of the run was a `kill` that leaks. */
  ghost predicate LeakRan(steps: seq<Step>) {
    exists k :: 0 <= k < |steps| && Leaks(Run(INIT, steps[..k]), steps[k])
  }

  lemma LeakRanSnoc(steps: seq<Step>, step: Step)
    ensures LeakRan(steps + [step]) <==> LeakRan(steps) || Leaks(Run(INIT, steps), step)
  {
    hide Run, Leaks;
    var all := steps + [step];
    forall k | 0 <= k < |steps|
      ensures all[..k] == steps[..k] && all[k] == steps[k]
    {
    }
    assert all[..|steps|] == steps && all[|steps|] == step;
    if LeakRan(steps) {
      var k :| 0 <= k < |steps| && Leaks(Run(INIT, steps[..k]), steps[k]);
      assert Leaks(Run(INIT, all[..k]), all[k]);
    }
    if Leaks(Run(INIT, steps), step) {
      assert Leaks(Run(INIT, all[..|steps|]), all[|steps|]);
    }
  }

  lemma {:induction false} LostIffLeakRan(steps: seq<Step>)
    ensures LostSlots(Run(INIT, steps)) == {} <==> !LeakRan(steps)
    decreases |steps|
  {
    hide Inv, Next, Leaks, LostSlots;
    if steps == [] {
      NothingLost();
    } else {
      var n := |steps| - 1;
      var before, step := steps[..n], steps[n];
      assert steps == before + [step];
      Reachable(before);
      LostIffLeakRan(before);
      RunSnoc(INIT, before, step);
      LeakRanSnoc(before, step);
      LostStep(Run(INIT, before), step);
    }
  }

  lemma NothingLost()
    ensures LostSlots(INIT) == {}
  {
  }

  /** In every run the slots in use are those of the containers, registered or being
      created, whose watch succeeded, one each, and the lost ones; nothing is lost, and
      so the two numbers agree, if and only if no step of the run was a text `kill` that
      leaks. A watch fails exactly when 64 slots are held or lost. */
  lemma SlotsConserved(steps: seq<Step>)
    ensures var s := Run(INIT, steps);
      && |s.watch| == |Holders(s)| + |LostSlots(s)| <= 64
      && (|s.watch| == |Holders(s)| <==> !LeakRan(steps))
      && (forall p :: p in s.watch ==> Lost(s, p) || exists id :: id in Holders(s) && Has(s, id, p))
      && (forall id :: id in Holders(s) ==> exists p :: p in s.watch && Has(s, id, p))
      && (forall id, other, p, q :: Has(s, id, p) && Has(s, other, q) ==> (id == other <==> p == q))
      && (forall pid :: WatchMap(s.watch, pid).1 <==> |Holders(s)| + |LostSlots(s)| < 64)
  {
    hide Run, Holders, LostSlots, LeakRan, Has, Ids, Pids, Gating, Passing, Recording, Reporting;
    Reachable(steps);
    var s := Run(INIT, steps);
    HoldersCounted(s);
    LostIffLeakRan(steps);
    forall p | p in s.watch
      ensures Lost(s, p) || exists id :: id in Holders(s) && Has(s, id, p)
    {
      LostIsLeaked(s, p);
      if !LeakedSlot(s, p) {
        HolderHolds(s, p);
      }
    }
    forall id | id in Holders(s)
      ensures exists p :: p in s.watch && Has(s, id, p)
    {
      var p := HolderHas(s, id);
      HolderHolds(s, p);
    }
    forall id, other, p, q | Has(s, id, p) && Has(s, other, q)
      ensures id == other <==> p == q
    {
      HasOnce(s, id, other, p, q);
    }
  }

  /** A lost slot is never used again. */
  lemma {:induction false} LostForGood(s: Sys, steps: seq<Step>, pid: int)
    requires Inv(s) && Lost(s, pid)
    ensures Lost(Run(s, steps), pid)
    decreases |steps|
  {
    hide Next, Lost, Inv;
    if steps != [] {
      LostAreWatched(s);
      LostAreWatched(Next(s, steps[0]));
      LostStep(s, steps[0]);
      StepKeeps(s, steps[0]);
      LostForGood(Next(s, steps[0]), steps[1..], pid);
    }
  }

  // -------------------------------------------------------- stranded inits

  /** No container or creation has this gate, so none can open or doom it. */
  ghost predicate Unowned(s: Sys, g: nat) {
    && g in s.reg.gates && s.reg.gates[g] == Wait
    && (forall id :: id in s.reg.containers ==> s.reg.containers[id].ctrl != Some(g))
    && (forall t :: t in s.flights ==> s.flights[t].gate != Some(g))
  }

  lemma UnownedStep(s: Sys, step: Step, g: nat)
    requires Inv(s) && Unowned(s, g)
    ensures Unowned(Next(s, step), g)
  {
    hide Next, Inv;
    if OwnStep(step) {
      if Next(s, step) != s {
        OwnStepMoves(s, step);
      }
    } else {
      UnownedOtherStep(s, step, g);
    }
  }

  lemma UnownedOtherStep(s: Sys, step: Step, g: nat)
    requires Inv(s) && Unowned(s, g) && !OwnStep(step)
    ensures Unowned(Next(s, step), g)
  {
    hide Ids, Pids, Passing, Slots, Recording, Reporting, WatchMap;
    GateStep(s, step, g);
  }

  lemma KilledUnowned(s: Sys, id: nat)
    requires Inv(s) && id in s.reg.containers && !s.reg.containers[id].started
    ensures var c := s.reg.containers[id];
      var t := Next(s, TextKill(c.pid));
      && c.ctrl.Some? && c.pid in s.tasks && s.tasks[c.pid] == Task(c.ctrl, AtGate)
      && Unowned(t, c.ctrl.value) && t.tasks == s.tasks
  {
    hide Ids, Slots, Recording, Reporting;
  }

  /** A text `kill` of a container that was not started strands its init: the gate reads
      Wait for ever, and the init neither sets up nor exits. */
  lemma TextKillStrands(s: Sys, id: nat, steps: seq<Step>)
    requires Inv(s) && id in s.reg.containers && !s.reg.containers[id].started
    ensures var c := s.reg.containers[id];
      var t := Run(Next(s, TextKill(c.pid)), steps);
      && c.pid in t.tasks && t.tasks[c.pid] == Task(c.ctrl, AtGate)
      && c.ctrl.Some? && c.ctrl.value in t.reg.gates && t.reg.gates[c.ctrl.value] == Wait
  {
    hide Run, Inv, Next;
    var c := s.reg.containers[id];
    KilledUnowned(s, id);
    StepKeeps(s, TextKill(c.pid));
    StuckForGood(Next(s, TextKill(c.pid)), steps, c.pid, c.ctrl.value);
    assert Unowned(Run(Next(s, TextKill(c.pid)), steps), c.ctrl.value);
  }

  predicate Ends(s: Sys, pid: int) {
    pid in s.tasks && !Live(s.tasks[pid].phase)
  }

  ghost predicate CanEnd(s: Sys, pid: int) {
    exists steps: seq<Step> :: Ends(Run(s, steps), pid)
  }

  /** The task is not held at its gate. */
  predicate Open(s: Sys, pid: int) {
    pid in s.tasks
    && var t := s.tasks[pid];
       !t.phase.AtGate? || (t.gate.Some? && t.gate.value in s.reg.gates && s.reg.gates[t.gate.value] == Start)
  }

  /** Once its gate is open, a task can be killed wherever it is. */
  lemma OpenCanEnd(s: Sys, pid: int)
    requires Open(s, pid)
    ensures CanEnd(s, pid)
  {
    hide Next;
    RunNone(s);
    if !Live(s.tasks[pid].phase) {
      assert Ends(Run(s, []), pid);
    } else {
      var t := Next(s, GateRead(pid));
      RunTwo(s, GateRead(pid), DoExit(pid, 9));
      KillOpen(s, pid);
      assert Ends(Run(s, [GateRead(pid), DoExit(pid, 9)]), pid);
    }
  }

  lemma KillOpen(s: Sys, pid: int)
    requires Open(s, pid) && Live(s.tasks[pid].phase)
    ensures Ends(Next(Next(s, GateRead(pid)), DoExit(pid, 9)), pid)
  {
  }

  lemma RunNone(s: Sys)
    ensures Run(s, []) == s
  {
  }

  lemma RunTwo(s: Sys, a: Step, b: Step)
    ensures Run(s, [a, b]) == Next(Next(s, a), b)
  {
    hide Next;
    RunNone(Next(Next(s, a), b));
    assert [a, b][1..] == [b] && [b][1..] == [];
  }

  /** The init of a registered container can end: by DELETE if it was not started, and
      by a signal if it was. */
  lemma RegisteredCanEnd(s: Sys, id: nat)
    requires Inv(s) && id in s.reg.containers
    ensures CanEnd(s, s.reg.containers[id].pid)
  {
    hide Next, Run, CanEnd, Ids, Slots, Recording, Reporting;
    var c := s.reg.containers[id];
    if c.started {
      OpenCanEnd(s, c.pid);
    } else {
      DeleteEnds(s, id);
      RunTwo(s, DeleteOp(id), GateRead(c.pid));
      EndedCanEnd(s, [DeleteOp(id), GateRead(c.pid)], c.pid);
    }
  }

  lemma EndedCanEnd(s: Sys, steps: seq<Step>, pid: int)
    requires Ends(Run(s, steps), pid)
    ensures CanEnd(s, pid)
  {
    hide Run, Ends;
  }

  lemma DeleteEnds(s: Sys, id: nat)
    requires Inv(s) && id in s.reg.containers && !s.reg.containers[id].started
    ensures var pid := s.reg.containers[id].pid;
      Ends(Next(Next(s, DeleteOp(id)), GateRead(pid)), pid)
  {
    hide Ids, Slots, Recording, Reporting;
  }

  /** The init of a registered container can end before a text `kill` of it, and after it
      if and only if the container was started. */
  lemma TextKillEndsIff(s: Sys, id: nat)
    requires Inv(s) && id in s.reg.containers
    ensures var pid := s.reg.containers[id].pid;
      CanEnd(s, pid) && (CanEnd(Next(s, TextKill(pid)), pid) <==> s.reg.containers[id].started)
  {
    hide Next, Run, Inv, CanEnd;
    var c := s.reg.containers[id];
    var t := Next(s, TextKill(c.pid));
    RegisteredCanEnd(s, id);
    if c.started {
      StartedIsOpen(s, id);
      OpenCanEnd(t, c.pid);
    } else if CanEnd(t, c.pid) {
      var steps := EndingRun(t, c.pid);
      TextKillStrands(s, id, steps);
      assert false;
    }
  }

  lemma EndingRun(s: Sys, pid: int) returns (steps: seq<Step>)
    requires CanEnd(s, pid)
    ensures Ends(Run(s, steps), pid)
  {
    hide Run, Ends;
    steps :| Ends(Run(s, steps), pid);
  }

  lemma StartedIsOpen(s: Sys, id: nat)
    requires Inv(s) && id in s.reg.containers && s.reg.containers[id].started
    ensures Open(Next(s, TextKill(s.reg.containers[id].pid)), s.reg.containers[id].pid)
  {
    hide Ids, Slots, Recording, Reporting;
  }

  // -------------------------------------------------------------- witness

  /** A create, up to its push. */
  function CreateSteps(pid: int, gate: nat): seq<Step> {
    [CloneInit(0, pid, Some(gate)), NumberInit(0), WatchInit(0), PushInit(0)]
  }

  lemma CloneFirst(pid: int, gate: nat)
    ensures var s := Clone(INIT, 0, pid, Some(gate));
      && s.flights == map[0 := Flight(pid, Some(gate), None, false)] && s.reg.containers == map[]
      && s.watch == map[] && s.watched == {} && s.nextId == 1
      && pid in s.tasks && s.tasks[pid].phase.AtGate?
  {
  }

  lemma NumberFirst(s: Sys, f: Flight)
    requires s.flights == map[0 := f] && f.id.None?
    ensures Number(s, 0) == s.(nextId := s.nextId + 1, flights := map[0 := f.(id := Some(s.nextId))])
  {
  }

  lemma WatchFirst(s: Sys, f: Flight)
    requires s.flights == map[0 := f] && f.id.Some? && !f.watchDone && s.watch == map[]
    ensures var t := Watch(s, 0);
      && t.flights == map[0 := f.(watchDone := true)] && t.watched == s.watched + {f.id.value}
      && t.reg == s.reg && t.tasks == s.tasks
  {
  }

  lemma PushFirst(s: Sys, f: Flight)
    requires s.flights == map[0 := f] && f.id.Some? && f.watchDone && s.reg.containers == map[]
    ensures var t := Push(s, 0);
      && t.reg.containers == map[f.id.value := Container(f.id.value, f.pid, f.gate, f.gate.None?, None)]
      && t.watched == s.watched && t.tasks == s.tasks
  {
  }

  /** The first container of a run, created and not started. */
  lemma PausedExists(pid: int, gate: nat)
    ensures var s := Run(INIT, CreateSteps(pid, gate));
      && s.reg.containers == map[1 := Container(1, pid, Some(gate), false, None)] && 1 in s.watched
      && pid in s.tasks && s.tasks[pid].phase.AtGate?
  {
    hide Run, Clone, Number, Watch, Push;
    CreationRuns(pid, gate);
    CloneFirst(pid, gate);
    var f := Flight(pid, Some(gate), None, false);
    var s := Clone(INIT, 0, pid, Some(gate));
    NumberFirst(s, f);
    WatchFirst(Number(s, 0), f.(id := Some(1)));
    PushFirst(Watch(Number(s, 0), 0), f.(id := Some(1), watchDone := true));
  }

  lemma CreationRuns(pid: int, gate: nat)
    ensures Run(INIT, CreateSteps(pid, gate)) == Push(Watch(Number(Clone(INIT, 0, pid, Some(gate)), 0), 0), 0)
  {
    hide Run, Clone, Number, Watch, Push;
    var s2 := Next(Next(INIT, CloneInit(0, pid, Some(gate))), NumberInit(0));
    RunTwo(INIT, CloneInit(0, pid, Some(gate)), NumberInit(0));
    RunTwo(s2, WatchInit(0), PushInit(0));
    RunAppend(INIT, [CloneInit(0, pid, Some(gate)), NumberInit(0)], [WatchInit(0), PushInit(0)]);
    assert CreateSteps(pid, gate)
        == [CloneInit(0, pid, Some(gate)), NumberInit(0)] + [WatchInit(0), PushInit(0)];
  }

  lemma {:induction false} RunAppend(s: Sys, a: seq<Step>, b: seq<Step>)
    ensures Run(s, a + b) == Run(Run(s, a), b)
    decreases |a|
  {
    hide Next;
    if a == [] {
      assert a + b == b;
    } else {
      assert (a + b)[1..] == a[1..] + b;
      RunAppend(Next(s, a[0]), a[1..], b);
    }
  }

  /** Creating a container and killing it from the text plane loses its slot for good
      and strands its init for good. */
  lemma TextKillExample(pid: int, gate: nat, steps: seq<Step>)
    ensures var t := Run(Next(Run(INIT, CreateSteps(pid, gate)), TextKill(pid)), steps);
      Lost(t, pid) && pid in t.tasks && t.tasks[pid] == Task(Some(gate), AtGate)
  {
    hide Run, Next, Lost, CreateSteps, Inv;
    PausedExists(pid, gate);
    Reachable(CreateSteps(pid, gate));
    var s := Run(INIT, CreateSteps(pid, gate));
    TextKillStrands(s, 1, steps);
    assert Leaks(s, TextKill(pid));
    TextKillLeaks(s, pid, pid);
    StepKeeps(s, TextKill(pid));
    LostForGood(Next(s, TextKill(pid)), steps, pid);
  }

  lemma StuckStep(s: Sys, step: Step, pid: int, g: nat)
    requires Inv(s) && Unowned(s, g) && pid in s.tasks && s.tasks[pid] == Task(Some(g), AtGate)
    ensures pid in Next(s, step).tasks && Next(s, step).tasks[pid] == s.tasks[pid]
  {
    hide Ids, Pids, Gating, Passing, Slots, Recording, Reporting;
  }

  lemma {:induction false} StuckForGood(s: Sys, steps: seq<Step>, pid: int, g: nat)
    requires Inv(s) && Unowned(s, g) && pid in s.tasks && s.tasks[pid] == Task(Some(g), AtGate)
    ensures var t := Run(s, steps);
      Unowned(t, g) && pid in t.tasks && t.tasks[pid] == s.tasks[pid]
    decreases |steps|
  {
    hide Next, Unowned, Inv;
    if steps != [] {
      UnownedStep(s, steps[0], g);
      StuckStep(s, steps[0], pid, g);
      StepKeeps(s, steps[0]);
      StuckForGood(Next(s, steps[0]), steps[1..], pid, g);
    }
  }
}
