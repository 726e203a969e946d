/** Every step of the lifecycle keeps its invariant. */
module LifecycleInvariant {
  import opened Bytes
  import opened Outcomes
  import opened WatchTable
  import opened Registry
  import opened Lifecycle

  lemma SmallerMap(m: map<int, Option<i32>>, p: int)
    ensures |m - {p}| <= |m|
  {
    if p in m {
      assert m == (m - {p})[p := m[p]];
    } else {
      assert m == m - {p};
    }
  }

  lemma WatchFailedSlots(s: Sys, thread: nat)
    requires Ids(s) && Pids(s) && Slots(s) && |s.watch| == 64
    ensures Slots(Watch(s, thread))
  {
  }

  /** A new answer stands, and follows every earlier one about the container. */
  lemma QueriedStands(s: Sys, id: nat)
    requires Ids(s) && Pids(s) && Recording(s) && Reporting(s) && id in s.reg.containers
    ensures |Queried(s, id).reports| == |s.reports| + 1
    ensures var s' := Queried(s, id);
      var last, c' := s'.reports[|s.reports|], s'.reg.containers[id];
      && Stands(s', last, c') && Cached(s', c') && last.id == id
      && (forall i :: 0 <= i < |s.reports| && s.reports[i].id == id ==>
            Stands(s', s.reports[i], c') && Follows(s.reports[i], last))
  {
  }

  lemma CloneIds(s: Sys, thread: nat, pid: int, gate: Option<nat>)
    requires Ids(s)
    ensures Ids(Clone(s, thread, pid, gate))
  {
  }

  lemma ClonePids(s: Sys, thread: nat, pid: int, gate: Option<nat>)
    requires Pids(s)
    ensures Pids(Clone(s, thread, pid, gate))
  {
  }

  lemma CloneGating(s: Sys, thread: nat, pid: int, gate: Option<nat>)
    requires Ids(s) && Pids(s) && Gating(s)
    ensures Gating(Clone(s, thread, pid, gate))
  {
    hide Held, Ids, Pids;
  }

  lemma CloneSlots(s: Sys, thread: nat, pid: int, gate: Option<nat>)
    requires Ids(s) && Pids(s) && Slots(s)
    ensures Slots(Clone(s, thread, pid, gate))
  {
    hide Held, Shut, Pids;
  }

  lemma CloneRecording(s: Sys, thread: nat, pid: int, gate: Option<nat>)
    requires Pids(s) && Slots(s) && Recording(s)
    ensures Recording(Clone(s, thread, pid, gate))
  {
  }

  lemma CloneReporting(s: Sys, thread: nat, pid: int, gate: Option<nat>)
    requires Ids(s) && Pids(s) && Slots(s) && Recording(s) && Reporting(s)
    ensures Reporting(Clone(s, thread, pid, gate))
  {
  }

  lemma NumberIds(s: Sys, thread: nat)
    requires Ids(s) && Pids(s)
    ensures Ids(Number(s, thread)) && Pids(Number(s, thread))
  {
  }

  lemma NumberGating(s: Sys, thread: nat)
    requires Ids(s) && Pids(s) && Gating(s)
    ensures Gating(Number(s, thread))
  {
  }

  lemma NumberSlots(s: Sys, thread: nat)
    requires Ids(s) && Pids(s) && Slots(s)
    ensures Slots(Number(s, thread))
  {
  }

  lemma NumberReporting(s: Sys, thread: nat)
    requires Ids(s) && Pids(s) && Slots(s) && Recording(s) && Reporting(s)
    ensures Recording(Number(s, thread)) && Reporting(Number(s, thread))
  {
  }

  lemma WatchIds(s: Sys, thread: nat)
    requires Ids(s)
    ensures Ids(Watch(s, thread))
  {
    hide WatchMap;
  }

  lemma WatchPids(s: Sys, thread: nat)
    requires Pids(s)
    ensures Pids(Watch(s, thread))
  {
    hide WatchMap;
  }

  lemma WatchGating(s: Sys, thread: nat)
    requires Ids(s) && Pids(s) && Gating(s)
    ensures Gating(Watch(s, thread))
  {
    hide WatchMap;
  }

  lemma WatchSlots(s: Sys, thread: nat)
    requires Ids(s) && Pids(s) && Slots(s)
    ensures Slots(Watch(s, thread))
  {
    var s' := Watch(s, thread);
    if s' != s && s'.watch == s.watch {
      WatchFailedSlots(s, thread);
    } else if s' != s {
      var f := s.flights[thread];
      assert Owns(s, f.pid, f.id.value, InFlight(thread));
      forall id | id in s'.reg.containers
        ensures Owns(s', s'.reg.containers[id].pid, id, Of(id))
      {
        assert Owns(s, s.reg.containers[id].pid, id, Of(id));
      }
      forall t | t in s'.flights && s'.flights[t].id.Some?
        ensures Owns(s', s'.flights[t].pid, s'.flights[t].id.value, InFlight(t))
      {
        assert Owns(s, s.flights[t].pid, s.flights[t].id.value, InFlight(t));
      }
      forall p | p in s'.slotOf
        ensures p in s'.tasks && Owned(s', p)
      {
        if p != f.pid {
          assert Owned(s, p);
        }
      }
    }
  }

  lemma WatchRecording(s: Sys, thread: nat)
    requires Pids(s) && Slots(s) && Recording(s)
    ensures Recording(Watch(s, thread))
  {
  }

  lemma WatchReporting(s: Sys, thread: nat)
    requires Ids(s) && Pids(s) && Slots(s) && Recording(s) && Reporting(s)
    ensures Reporting(Watch(s, thread))
  {
  }

  lemma PushIds(s: Sys, thread: nat)
    requires Ids(s) && Pids(s)
    ensures Ids(Push(s, thread)) && Pids(Push(s, thread))
  {
  }

  lemma PushGating(s: Sys, thread: nat)
    requires Ids(s) && Pids(s) && Gating(s)
    ensures Gating(Push(s, thread))
  {
  }

  lemma PushSlots(s: Sys, thread: nat)
    requires Ids(s) && Pids(s) && Slots(s)
    ensures Slots(Push(s, thread))
  {
    var s' := Push(s, thread);
    if s' != s {
      var f := s.flights[thread];
      assert Owns(s, f.pid, f.id.value, InFlight(thread));
      forall id | id in s'.reg.containers
        ensures Owns(s', s'.reg.containers[id].pid, id, Of(id))
      {
        if id != f.id.value {
          assert Owns(s, s.reg.containers[id].pid, id, Of(id));
        }
      }
      forall t | t in s'.flights && s'.flights[t].id.Some?
        ensures Owns(s', s'.flights[t].pid, s'.flights[t].id.value, InFlight(t))
      {
        assert Owns(s, s.flights[t].pid, s.flights[t].id.value, InFlight(t));
      }
      forall p | p in s'.slotOf
        ensures p in s'.tasks && Owned(s', p)
      {
        if p != f.pid {
          assert Owned(s, p);
        }
      }
    }
  }

  lemma PushReporting(s: Sys, thread: nat)
    requires Ids(s) && Pids(s) && Slots(s) && Recording(s) && Reporting(s)
    ensures Recording(Push(s, thread)) && Reporting(Push(s, thread))
  {
  }

  lemma StartedIds(s: Sys, id: nat)
    requires Ids(s) && Pids(s)
    ensures Ids(Started(s, id)) && Pids(Started(s, id))
  {
  }

  lemma StartedGating(s: Sys, id: nat)
    requires Ids(s) && Pids(s) && Gating(s)
    ensures Gating(Started(s, id))
  {
  }

  lemma StartedSlots(s: Sys, id: nat)
    requires Ids(s) && Pids(s) && Slots(s)
    ensures Slots(Started(s, id))
  {
  }

  lemma StartedReporting(s: Sys, id: nat)
    requires Ids(s) && Pids(s) && Slots(s) && Recording(s) && Reporting(s)
    ensures Recording(Started(s, id)) && Reporting(Started(s, id))
  {
  }

  lemma QueriedIds(s: Sys, id: nat)
    requires Ids(s) && Pids(s)
    ensures Ids(Queried(s, id)) && Pids(Queried(s, id))
  {
  }

  lemma QueriedGating(s: Sys, id: nat)
    requires Ids(s) && Pids(s) && Gating(s)
    ensures Gating(Queried(s, id))
  {
  }

  lemma QueriedSlots(s: Sys, id: nat)
    requires Ids(s) && Pids(s) && Slots(s)
    ensures Slots(Queried(s, id))
  {
  }

  lemma QueriedRecording(s: Sys, id: nat)
    requires Pids(s) && Slots(s) && Recording(s)
    ensures Recording(Queried(s, id))
  {
  }

  lemma QueriedReporting(s: Sys, id: nat)
    requires Ids(s) && Pids(s) && Slots(s) && Recording(s) && Reporting(s)
    ensures Reporting(Queried(s, id))
  {
    if id in s.reg.containers {
      var s' := Queried(s, id);
      var c := s.reg.containers[id];
      QueriedStands(s, id);
      forall i | 0 <= i < |s'.reports| && s'.reports[i].id in s'.reg.containers
        ensures Stands(s', s'.reports[i], s'.reg.containers[s'.reports[i].id])
      {
      }
    }
  }

  lemma DeletedIds(s: Sys, id: nat)
    requires Ids(s) && Pids(s)
    ensures Ids(Deleted(s, id)) && Pids(Deleted(s, id))
  {
  }

  lemma DeletedGating(s: Sys, id: nat)
    requires Ids(s) && Pids(s) && Gating(s)
    ensures Gating(Deleted(s, id))
  {
  }

  lemma DeletedSlots(s: Sys, id: nat)
    requires Ids(s) && Pids(s) && Slots(s)
    ensures Slots(Deleted(s, id))
  {
    var s' := Deleted(s, id);
    if s' != s {
      forall i | i in s'.reg.containers
        ensures Owns(s', s'.reg.containers[i].pid, i, Of(i))
      {
        assert Owns(s, s.reg.containers[i].pid, i, Of(i));
      }
      forall t | t in s'.flights && s'.flights[t].id.Some?
        ensures Owns(s', s'.flights[t].pid, s'.flights[t].id.value, InFlight(t))
      {
        assert Owns(s, s.flights[t].pid, s.flights[t].id.value, InFlight(t));
      }
      forall p | p in s'.slotOf
        ensures p in s'.tasks && Owned(s', p)
      {
        assert Owned(s, p);
      }
      assert |s'.watch| <= 64 by {
        SmallerMap(s.watch, s.reg.containers[id].pid);
      }
    }
  }

  lemma DeletedReporting(s: Sys, id: nat)
    requires Ids(s) && Pids(s) && Slots(s) && Recording(s) && Reporting(s)
    ensures Recording(Deleted(s, id)) && Reporting(Deleted(s, id))
  {
  }

  lemma TextKilledIds(s: Sys, pid: int)
    requires Ids(s) && Pids(s)
    ensures Ids(TextKilled(s, pid)) && Pids(TextKilled(s, pid))
  {
  }

  lemma TextKilledGating(s: Sys, pid: int)
    requires Ids(s) && Pids(s) && Gating(s)
    ensures Gating(TextKilled(s, pid))
  {
  }

  lemma TextKilledSlots(s: Sys, pid: int)
    requires Ids(s) && Pids(s) && Slots(s)
    ensures Slots(TextKilled(s, pid))
  {
    hide Vanished;
  }

  lemma TextKilledReporting(s: Sys, pid: int)
    requires Ids(s) && Pids(s) && Slots(s) && Recording(s) && Reporting(s)
    ensures Recording(TextKilled(s, pid)) && Reporting(TextKilled(s, pid))
  {
  }

  lemma RecordIds(s: Sys, pid: int)
    requires Ids(s) && Pids(s)
    ensures Ids(Record(s, pid)) && Pids(Record(s, pid))
  {
  }

  lemma RecordGating(s: Sys, pid: int)
    requires Ids(s) && Pids(s) && Gating(s)
    ensures Gating(Record(s, pid))
  {
  }

  lemma RecordSlots(s: Sys, pid: int)
    requires Ids(s) && Pids(s) && Slots(s)
    ensures Slots(Record(s, pid))
  {
  }

  lemma RecordRecording(s: Sys, pid: int)
    requires Pids(s) && Slots(s) && Recording(s)
    ensures Recording(Record(s, pid))
  {
  }

  lemma RecordReporting(s: Sys, pid: int)
    requires Ids(s) && Pids(s) && Slots(s) && Recording(s) && Reporting(s)
    ensures Reporting(Record(s, pid))
  {
  }

  /** How a task moves on its own: past its gate only when told to start, and through
      the stages of its exit in order. */
  predicate Advances(s: Sys, pid: int, p: Phase)
    requires pid in s.tasks
  {
    match p
    case AtGate => false
    case Setup =>
      s.tasks[pid].phase.AtGate? && s.tasks[pid].gate.Some?
      && s.tasks[pid].gate.value in s.reg.gates && s.reg.gates[s.tasks[pid].gate.value] == Start
    case Execd => s.tasks[pid].phase.Setup?
    case Exiting(w, Pending) =>
      s.tasks[pid].phase.Setup? || s.tasks[pid].phase.Execd?
      || (s.tasks[pid].phase.AtGate? && s.tasks[pid].gate.Some? && s.tasks[pid].gate.value in s.reg.gates
          && s.reg.gates[s.tasks[pid].gate.value] == Doom && w == 0)
    case Exiting(w, k) => s.tasks[pid].phase == Exiting(w, Pending) && (|s.watch| == 0 <==> k == Done)
    case Zombie(w) => s.tasks[pid].phase == Exiting(w, Done)
    case Reaped(w) => s.tasks[pid].phase == Zombie(w)
  }

  predicate OwnStep(step: Step) {
    step.GateRead? || step.ExecInit? || step.DoExit? || step.KprobeCheck? || step.SetExitState? || step.Reap?
  }

  lemma OwnStepMoves(s: Sys, step: Step)
    requires OwnStep(step) && Next(s, step) != s
    ensures step.pid in s.tasks && step.pid in Next(s, step).tasks
    ensures var p := Next(s, step).tasks[step.pid].phase;
      Advances(s, step.pid, p) && Next(s, step) == Move(s, step.pid, p)
  {
  }

  lemma MoveIds(s: Sys, pid: int, p: Phase)
    requires Ids(s) && Pids(s) && pid in s.tasks
    ensures Ids(Move(s, pid, p)) && Pids(Move(s, pid, p))
  {
  }

  lemma MoveSlots(s: Sys, pid: int, p: Phase)
    requires Slots(s) && pid in s.tasks
    ensures Slots(Move(s, pid, p))
  {
  }

  lemma MoveGating(s: Sys, pid: int, p: Phase)
    requires Pids(s) && Gating(s) && pid in s.tasks && Advances(s, pid, p)
    ensures Gating(Move(s, pid, p))
  {
  }

  lemma MoveRecording(s: Sys, pid: int, p: Phase)
    requires Slots(s) && Recording(s) && pid in s.tasks && Advances(s, pid, p)
    ensures Recording(Move(s, pid, p))
  {
  }

  lemma MoveReporting(s: Sys, pid: int, p: Phase)
    requires Reporting(s) && pid in s.tasks && Advances(s, pid, p)
    ensures Reporting(Move(s, pid, p))
  {
  }

  lemma MovePassing(s: Sys, pid: int, p: Phase)
    requires Passing(s) && pid in s.tasks && Advances(s, pid, p)
    ensures Passing(Move(s, pid, p))
  {
  }

  lemma OtherPassing(s: Sys, step: Step)
    requires Gating(s) && Passing(s) && !OwnStep(step)
    ensures Passing(Next(s, step))
  {
    hide WatchMap;
  }

  lemma OwnStepKeeps(s: Sys, step: Step)
    requires Inv(s) && OwnStep(step)
    ensures Inv(Next(s, step))
  {
    hide Next, Move, Advances, Ids, Pids, Gating, Passing, Slots, Recording, Reporting;
    var s' := Next(s, step);
    if s' != s {
      OwnStepMoves(s, step);
      var p := s'.tasks[step.pid].phase;
      MoveIds(s, step.pid, p);
      MoveSlots(s, step.pid, p);
      MoveGating(s, step.pid, p);
      MovePassing(s, step.pid, p);
      MoveRecording(s, step.pid, p);
      MoveReporting(s, step.pid, p);
    }
  }

  /** Every step keeps the invariant. */
  lemma StepKeeps(s: Sys, step: Step)
    requires Inv(s)
    ensures Inv(Next(s, step))
  {
    hide Ids, Pids, Gating, Passing, Slots, Recording, Reporting;
    hide Clone, Number, Watch, Push, Started, Queried, Deleted, TextKilled, Record;
    hide ReadGate, Exec, Exit, Check, SetExit, Release;
    if !OwnStep(step) {
      OtherPassing(s, step);
    }
    match step
    case CloneInit(t, p, g) =>
      CloneIds(s, t, p, g);
      ClonePids(s, t, p, g);
      CloneGating(s, t, p, g);
      CloneSlots(s, t, p, g);
      CloneRecording(s, t, p, g);
      CloneReporting(s, t, p, g);
    case NumberInit(x) =>
      NumberIds(s, x);
      NumberGating(s, x);
      NumberSlots(s, x);
      NumberReporting(s, x);
    case WatchInit(x) =>
      WatchIds(s, x);
      WatchPids(s, x);
      WatchGating(s, x);
      WatchSlots(s, x);
      WatchRecording(s, x);
      WatchReporting(s, x);
    case PushInit(x) =>
      PushIds(s, x);
      PushGating(s, x);
      PushSlots(s, x);
      PushReporting(s, x);
    case StartOp(x) =>
      StartedIds(s, x);
      StartedGating(s, x);
      StartedSlots(s, x);
      StartedReporting(s, x);
    case StateOp(x) =>
      QueriedIds(s, x);
      QueriedGating(s, x);
      QueriedSlots(s, x);
      QueriedRecording(s, x);
      QueriedReporting(s, x);
    case DeleteOp(x) =>
      DeletedIds(s, x);
      DeletedGating(s, x);
      DeletedSlots(s, x);
      DeletedReporting(s, x);
    case TextKill(x) =>
      TextKilledIds(s, x);
      TextKilledGating(s, x);
      TextKilledSlots(s, x);
      TextKilledReporting(s, x);
    case KprobeRecord(x) =>
      RecordIds(s, x);
      RecordGating(s, x);
      RecordSlots(s, x);
      RecordRecording(s, x);
      RecordReporting(s, x);
    case KillOp(_, _) =>
    case _ => OwnStepKeeps(s, step);
  }
}
