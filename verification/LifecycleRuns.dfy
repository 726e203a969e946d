/** What holds over every run of the lifecycle, whatever the interleaving. */
module LifecycleRuns {
  import opened Bytes
  import opened Outcomes
  import opened WatchTable
  import opened Registry
  import opened Lifecycle
  import opened LifecycleInvariant

  lemma {:induction false} RunKeeps(s: Sys, steps: seq<Step>)
    requires Inv(s)
    ensures Inv(Run(s, steps))
    decreases |steps|
  {
    hide Inv, Next;
    if steps != [] {
      StepKeeps(s, steps[0]);
      RunKeeps(Next(s, steps[0]), steps[1..]);
    }
  }

  lemma EmptyInv(s: Sys)
    requires s.watch == map[] && s.slotOf == map[] && s.flights == map[] && s.tasks == map[]
    requires s.reg.containers == map[] && s.reports == [] && s.watched == {} && s.early == {}
    ensures Inv(s)
  {
  }

  lemma Reachable(steps: seq<Step>)
    ensures Inv(Run(INIT, steps))
  {
    hide Run, Inv;
    EmptyInv(INIT);
    RunKeeps(INIT, steps);
  }

  lemma {:induction false} RunSnoc(s: Sys, steps: seq<Step>, step: Step)
    ensures Run(s, steps + [step]) == Next(Run(s, steps), step)
    decreases |steps|
  {
    hide Next;
    if steps == [] {
      assert Run(s, [step]) == Run(Next(s, step), [step][1..]);
    } else {
      assert (steps + [step])[1..] == steps[1..] + [step];
      RunSnoc(Next(s, steps[0]), steps[1..], step);
    }
  }

  // ------------------------------------------------------------- gates

  /** The container a step takes its gate from. */
  predicate Opens(s: Sys, step: Step, g: nat) {
    step.StartOp? && step.id in s.reg.containers && s.reg.containers[step.id].ctrl == Some(g)
  }

  predicate Dooms(s: Sys, step: Step, g: nat) {
    step.DeleteOp? && step.id in s.reg.containers && s.reg.containers[step.id].ctrl == Some(g)
    && !s.reg.containers[step.id].started
  }

  /** A gate moves from Wait to Start by a START of its registered container, from
      Wait to Doom by a DELETE of it while unstarted, and never again. */
  lemma GateStep(s: Sys, step: Step, g: nat)
    requires Inv(s) && g in s.reg.gates
    ensures g in Next(s, step).reg.gates
    ensures s.reg.gates[g] != Wait ==> Next(s, step).reg.gates[g] == s.reg.gates[g]
    ensures s.reg.gates[g] == Wait ==>
      Next(s, step).reg.gates[g] == if Opens(s, step, g) then Start else if Dooms(s, step, g) then Doom else Wait
  {
    hide Ids, Pids, Passing, Slots, Recording, Reporting;
    if OwnStep(step) {
      OwnStepKeepsReg(s, step);
    }
  }

  lemma OwnStepKeepsReg(s: Sys, step: Step)
    requires OwnStep(step)
    ensures Next(s, step).reg == s.reg
  {
    hide Next;
    if Next(s, step) != s {
      OwnStepMoves(s, step);
    }
  }

  lemma {:induction false} GateOnce(s: Sys, steps: seq<Step>, g: nat)
    requires Inv(s) && g in s.reg.gates
    ensures g in Run(s, steps).reg.gates
    ensures s.reg.gates[g] != Wait ==> Run(s, steps).reg.gates[g] == s.reg.gates[g]
    decreases |steps|
  {
    hide Inv, Next;
    if steps != [] {
      GateStep(s, steps[0], g);
      StepKeeps(s, steps[0]);
      GateOnce(Next(s, steps[0]), steps[1..], g);
    }
  }

  /** Some step of the run was a START of the registered container with gate `g`. */
  ghost predicate StartRan(steps: seq<Step>, g: nat) {
    exists k :: 0 <= k < |steps| && Opens(Run(INIT, steps[..k]), steps[k], g)
  }

  lemma StartRanSnoc(steps: seq<Step>, step: Step, g: nat)
    ensures StartRan(steps + [step], g) <==> StartRan(steps, g) || Opens(Run(INIT, steps), step, g)
  {
    hide Run, Opens;
    var all := steps + [step];
    forall k | 0 <= k < |steps|
      ensures all[..k] == steps[..k] && all[k] == steps[k]
    {
    }
    assert all[..|steps|] == steps && all[|steps|] == step;
    if StartRan(steps, g) {
      var k :| 0 <= k < |steps| && Opens(Run(INIT, steps[..k]), steps[k], g);
      assert Opens(Run(INIT, all[..k]), all[k], g);
    }
    if Opens(Run(INIT, steps), step, g) {
      assert Opens(Run(INIT, all[..|steps|]), all[|steps|], g);
    }
  }

  /** A gate reads Start if and only if a START for its container ran while the
      container was registered and had not been deleted. */
  lemma {:induction false} StartedGate(steps: seq<Step>, g: nat)
    ensures var s := Run(INIT, steps);
      g in s.reg.gates && s.reg.gates[g] == Start <==> StartRan(steps, g)
    decreases |steps|
  {
    hide Inv, Next;
    if steps != [] {
      var n := |steps| - 1;
      var before, step := steps[..n], steps[n];
      assert steps == before + [step];
      var s := Run(INIT, before);
      Reachable(before);
      StartedGate(before, g);
      RunSnoc(INIT, before, step);
      StartRanSnoc(before, step, g);
      GateOf(s, step, g);
    }
  }

  lemma GateOf(s: Sys, step: Step, g: nat)
    requires Inv(s)
    ensures var t := Next(s, step);
      g in t.reg.gates && t.reg.gates[g] == Start <==>
        (g in s.reg.gates && s.reg.gates[g] == Start) || Opens(s, step, g)
  {
    hide Ids, Pids, Passing, Slots, Recording, Reporting;
    if g in s.reg.gates {
      GateStep(s, step, g);
    }
  }

  /** No init gets past its gate unless a START for its container ran while the
      container was registered. */
  lemma ReleasedByStart(steps: seq<Step>, pid: int)
    requires var s := Run(INIT, steps);
      pid in s.tasks && s.tasks[pid].gate.Some? && (s.tasks[pid].phase.Setup? || s.tasks[pid].phase.Execd?)
    ensures StartRan(steps, Run(INIT, steps).tasks[pid].gate.value)
  {
    hide Run, StartRan, Ids, Pids, Passing, Slots, Recording, Reporting;
    Reachable(steps);
    StartedGate(steps, Run(INIT, steps).tasks[pid].gate.value);
  }

  /** `started` is set on a registered paused container exactly when a START for it
      ran, so CREATED is reported exactly as long as none did. */
  lemma CreatedUntilStart(steps: seq<Step>, id: nat, probe: Probe, code: Option<i32>)
    requires var s := Run(INIT, steps);
      id in s.reg.containers && s.reg.containers[id].ctrl.Some?
    ensures var s := Run(INIT, steps);
      var c := s.reg.containers[id];
      && (c.started <==> StartRan(steps, c.ctrl.value))
      && StateIn(s.reg, id, probe, code).Ok?
      && (StateIn(s.reg, id, probe, code).value.1 == Created <==> !StartRan(steps, c.ctrl.value))
  {
    hide Run, StartRan, Ids, Pids, Passing, Slots, Recording, Reporting;
    Reachable(steps);
    StartedGate(steps, Run(INIT, steps).reg.containers[id].ctrl.value);
  }

  /** A container deleted before it was started never runs: its init stays short of
      setup and exec for ever. */
  lemma DeletedNeverExecs(s: Sys, id: nat, steps: seq<Step>, pid: int)
    requires Inv(s) && id in s.reg.containers
    requires !s.reg.containers[id].started && s.reg.containers[id].ctrl.Some?
    ensures var t := Run(Next(s, DeleteOp(id)), steps);
      pid in t.tasks && t.tasks[pid].gate == s.reg.containers[id].ctrl ==>
        !t.tasks[pid].phase.Setup? && !t.tasks[pid].phase.Execd?
  {
    hide Run, Ids, Pids, Passing, Slots, Recording, Reporting;
    var g := s.reg.containers[id].ctrl.value;
    var s' := Next(s, DeleteOp(id));
    StepKeeps(s, DeleteOp(id));
    assert s'.reg.gates[g] == Doom;
    GateOnce(s', steps, g);
    RunKeeps(s', steps);
  }

  // ------------------------------------------------------- ids and answers

  lemma UnregisteredStep(s: Sys, step: Step, id: nat)
    requires Inv(s) && id < s.nextId && id !in s.reg.containers && Unflown(s, id)
    ensures var t := Next(s, step); id < t.nextId && id !in t.reg.containers && Unflown(t, id)
  {
    hide Pids, Gating, Passing, Slots, Recording, Reporting, WatchMap;
  }

  ghost predicate Unflown(s: Sys, id: nat) {
    forall t :: t in s.flights ==> s.flights[t].id != Some(id)
  }

  /** An id is never given out twice: once its container is gone it stays unknown. */
  lemma {:induction false} IdsNotReused(s: Sys, steps: seq<Step>, id: nat)
    requires Inv(s) && id < s.nextId && id !in s.reg.containers && Unflown(s, id)
    ensures id !in Run(s, steps).reg.containers
    decreases |steps|
  {
    hide Inv, Next, Unflown;
    if steps != [] {
      UnregisteredStep(s, steps[0], id);
      StepKeeps(s, steps[0]);
      IdsNotReused(Next(s, steps[0]), steps[1..], id);
    }
  }

  /** Successive answers about one container never go back in CREATED, RUNNING,
      STOPPED, name the same pid, and once STOPPED always carry the same status. */
  lemma AnswersMonotone(steps: seq<Step>, i: nat, j: nat)
    requires i < j < |Run(INIT, steps).reports|
    requires Run(INIT, steps).reports[i].id == Run(INIT, steps).reports[j].id
    ensures Follows(Run(INIT, steps).reports[i], Run(INIT, steps).reports[j])
  {
    hide Run, Follows;
    Reachable(steps);
  }

  predicate Exits(p: Phase, word: i32) {
    (p.Exiting? || p.Zombie? || p.Reaped?) && p.word == word
  }

  /** This registered container was watched before its exit with this status began. */
  ghost predicate Bound(s: Sys, id: nat, pid: int, word: i32) {
    && id in s.reg.containers && s.reg.containers[id].pid == pid
    && pid in s.early && pid in s.tasks && Exits(s.tasks[pid].phase, word)
  }

  lemma BoundStep(s: Sys, step: Step, id: nat, pid: int, word: i32)
    requires Inv(s) && Bound(s, id, pid, word) && id in Next(s, step).reg.containers
    ensures Bound(Next(s, step), id, pid, word)
  {
    hide Next, OwnStep, Bound, Ids, Pids, Gating, Passing, Slots, Recording, Reporting;
    if OwnStep(step) {
      BoundOwnStep(s, step, id, pid, word);
    } else {
      BoundOtherStep(s, step, id, pid, word);
    }
  }

  lemma BoundOwnStep(s: Sys, step: Step, id: nat, pid: int, word: i32)
    requires Bound(s, id, pid, word) && OwnStep(step)
    ensures Bound(Next(s, step), id, pid, word)
  {
    hide Next;
    if Next(s, step) != s {
      OwnStepMoves(s, step);
    }
  }

  lemma BoundOtherStep(s: Sys, step: Step, id: nat, pid: int, word: i32)
    requires Ids(s) && Pids(s) && Bound(s, id, pid, word) && !OwnStep(step) && id in Next(s, step).reg.containers
    ensures Bound(Next(s, step), id, pid, word)
  {
    hide WatchMap;
  }

  lemma {:induction false} BoundRun(s: Sys, steps: seq<Step>, id: nat, pid: int, word: i32)
    requires Inv(s) && Bound(s, id, pid, word) && id in Run(s, steps).reg.containers
    ensures Bound(Run(s, steps), id, pid, word)
    decreases |steps|
  {
    hide Next;
    if steps != [] {
      StepKeeps(s, steps[0]);
      if id !in Next(s, steps[0]).reg.containers {
        GoneStep(s, steps[0], id);
        IdsNotReused(Next(s, steps[0]), steps[1..], id);
        assert false;
      }
      BoundStep(s, steps[0], id, pid, word);
      BoundRun(Next(s, steps[0]), steps[1..], id, pid, word);
    }
  }

  lemma GoneStep(s: Sys, step: Step, id: nat)
    requires Inv(s) && id in s.reg.containers && id !in Next(s, step).reg.containers
    ensures id < Next(s, step).nextId && Unflown(Next(s, step), id)
  {
    hide Pids, Gating, Passing, Slots, Recording, Reporting, WatchMap;
  }

  /** If the init was watched before it began to exit with this status, every answer
      from its end until its deletion is STOPPED with exactly that status, even when
      the task is long reaped. */
  lemma ExitExact(s: Sys, steps: seq<Step>, id: nat, pid: int, word: i32)
    requires Inv(s) && Bound(s, id, pid, word)
    requires var t := Run(s, steps);
      id in t.reg.containers && t.reg.containers[id].started && !ProbeOf(t, pid).Alive?
    ensures var t := Run(s, steps);
      Next(t, StateOp(id)).reports == t.reports + [Report(id, Stopped, pid, word)]
  {
    hide Run, Pids, Gating, Slots;
    RunKeeps(s, steps);
    BoundRun(s, steps, id, pid, word);
  }

  /** The kprobe's lock-free early return loses nothing: once the kprobe is done, the
      status of every task watched before its exit is in the table. */
  lemma ExitRecorded(steps: seq<Step>, pid: int)
    requires var s := Run(INIT, steps);
      pid in s.early && pid in s.tasks
      && (Ended(s.tasks[pid].phase) || (s.tasks[pid].phase.Exiting? && s.tasks[pid].phase.kprobe.Done?))
    ensures var s := Run(INIT, steps);
      CodeMap(s.watch, pid) == Some(s.tasks[pid].phase.word)
  {
    hide Run, Ids, Pids, Gating, Slots, Reporting;
    Reachable(steps);
  }
}
