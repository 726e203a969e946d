/** The life of a container from its creation to its deletion, and what becomes of its
    exit status. */
module LifecycleLife {
  import opened Bytes
  import opened Outcomes
  import opened WatchTable
  import opened Registry
  import opened Lifecycle
  import opened LifecycleInvariant
  import opened LifecycleRuns

  /** Whatever else runs from the moment an init that is watched exits with some status:
      once it has ended, every answer until its deletion is STOPPED with that status. */
  lemma ExitReported(s: Sys, id: nat, pid: int, word: i32, rest: seq<Step>)
    requires Inv(s) && id in s.reg.containers && s.reg.containers[id].pid == pid && pid in s.early
    requires pid in s.tasks && (s.tasks[pid].phase.Setup? || s.tasks[pid].phase.Execd?)
    requires var t := Run(Next(s, DoExit(pid, word)), rest);
      id in t.reg.containers && t.reg.containers[id].started && !ProbeOf(t, pid).Alive?
    ensures var t := Run(Next(s, DoExit(pid, word)), rest);
      Next(t, StateOp(id)).reports == t.reports + [Report(id, Stopped, pid, word)]
  {
    hide Run, Inv, Next;
    StepKeeps(s, DoExit(pid, word));
    assert Bound(Next(s, DoExit(pid, word)), id, pid, word) by { ExitBinds(s, id, pid, word); }
    ExitExact(Next(s, DoExit(pid, word)), rest, id, pid, word);
  }

  lemma ExitBinds(s: Sys, id: nat, pid: int, word: i32)
    requires id in s.reg.containers && s.reg.containers[id].pid == pid && pid in s.early
    requires pid in s.tasks && (s.tasks[pid].phase.Setup? || s.tasks[pid].phase.Execd?)
    ensures Bound(Next(s, DoExit(pid, word)), id, pid, word)
  {
  }

  /** An init is watched in time if a slot is free and it has not begun to exit. */
  lemma WatchedIff(s: Sys, thread: nat)
    requires Inv(s) && thread in s.flights && s.flights[thread].id.Some? && !s.flights[thread].watchDone
    ensures var pid := s.flights[thread].pid;
      pid in Next(s, WatchInit(thread)).early <==>
        |s.watch| < 64 && pid in s.tasks && Live(s.tasks[pid].phase)
  {
    var pid := s.flights[thread].pid;
    assert pid !in s.slotOf;
  }

  // --------------------------------------------------------- a whole life

  /** What there is of one container: its entry, its gate, its task's phase, its recorded
      status, and the answers given about it. */
  datatype View = View(c: Container, gate: Action, phase: Phase, code: Option<i32>, answers: seq<Report>)

  /** The state `t` is `base` with that container. */
  ghost predicate Shows(t: Sys, base: Sys, v: View) {
    && v.c.ctrl.Some? && t.reg.containers == base.reg.containers[v.c.id := v.c]
    && v.c.ctrl.value in t.reg.gates && t.reg.gates[v.c.ctrl.value] == v.gate
    && v.c.pid in t.tasks && t.tasks[v.c.pid] == Task(v.c.ctrl, v.phase)
    && t.watch == base.watch[v.c.pid := v.code]
    && t.reports == base.reports + v.answers
  }

  function CreationSteps(thread: nat, pid: int, gate: nat): seq<Step> {
    [CloneInit(thread, pid, Some(gate)), NumberInit(thread), WatchInit(thread), PushInit(thread)]
  }

  /** Nothing uses what the new container is to get. */
  ghost predicate Free(s: Sys, thread: nat, pid: int, gate: nat) {
    thread !in s.flights && Unused(s, pid) && gate !in s.reg.gates && |s.watch| < 64
  }

  /** Creation registers a container that waits at its gate and is watched. */
  lemma Creation(s: Sys, thread: nat, pid: int, gate: nat)
    requires Free(s, thread, pid, gate)
    ensures Shows(Run(s, CreationSteps(thread, pid, gate)), s,
      View(Container(s.nextId, pid, Some(gate), false, None), Wait, AtGate, None, []))
    ensures pid in Run(s, CreationSteps(thread, pid, gate)).early
  {
    hide Run, Next;
    var s1 := Next(s, CloneInit(thread, pid, Some(gate)));
    var s2 := Next(s1, NumberInit(thread));
    var s3 := Next(s2, WatchInit(thread));
    RunFour(s, CloneInit(thread, pid, Some(gate)), NumberInit(thread), WatchInit(thread), PushInit(thread));
    Cloned(s, thread, pid, gate);
    Numbered(s1, thread, Flight(pid, Some(gate), None, false));
    Watched(s2, thread, Flight(pid, Some(gate), Some(s.nextId), false));
    Pushed(s3, thread, Flight(pid, Some(gate), Some(s.nextId), true));
    assert s.reports + [] == s.reports;
  }

  lemma Cloned(s: Sys, thread: nat, pid: int, gate: nat)
    requires Free(s, thread, pid, gate)
    ensures var t := Next(s, CloneInit(thread, pid, Some(gate)));
      && thread in t.flights && t.flights[thread] == Flight(pid, Some(gate), None, false)
      && t.reg.containers == s.reg.containers && gate in t.reg.gates && t.reg.gates[gate] == Wait
      && pid in t.tasks && t.tasks[pid] == Task(Some(gate), AtGate)
      && t.watch == s.watch && t.reports == s.reports && t.nextId == s.nextId
  {
  }

  lemma Numbered(s: Sys, thread: nat, f: Flight)
    requires thread in s.flights && s.flights[thread] == f && f.id.None?
    ensures var t := Next(s, NumberInit(thread));
      && thread in t.flights && t.flights[thread] == f.(id := Some(s.nextId))
      && t == s.(nextId := t.nextId, flights := t.flights)
  {
  }

  lemma Watched(s: Sys, thread: nat, f: Flight)
    requires thread in s.flights && s.flights[thread] == f && f.id.Some? && !f.watchDone && |s.watch| < 64
    requires f.pid in s.tasks && s.tasks[f.pid].phase.AtGate?
    ensures var t := Next(s, WatchInit(thread));
      && thread in t.flights && t.flights[thread] == f.(watchDone := true)
      && t.reg == s.reg && t.tasks == s.tasks && t.reports == s.reports
      && t.watch == s.watch[f.pid := None] && f.pid in t.early
  {
  }

  lemma Pushed(s: Sys, thread: nat, f: Flight)
    requires thread in s.flights && s.flights[thread] == f && f.id.Some? && f.watchDone
    ensures var t := Next(s, PushInit(thread));
      && t.reg == PushIn(s.reg, Container(f.id.value, f.pid, f.gate, f.gate.None?, None))
      && t.tasks == s.tasks && t.reports == s.reports && t.watch == s.watch && t.early == s.early
  {
  }

  lemma RunFour(s: Sys, a: Step, b: Step, c: Step, d: Step)
    ensures Run(s, [a, b, c, d]) == Next(Next(Next(Next(s, a), b), c), d)
  {
    hide Run, Next;
    RunSnoc(s, [], a);
    RunSnoc(s, [a], b);
    RunSnoc(s, [a, b], c);
    RunSnoc(s, [a, b, c], d);
    assert [] + [a] == [a] && [a] + [b] == [a, b] && [a, b] + [c] == [a, b, c];
    assert [a, b, c] + [d] == [a, b, c, d];
    assert Run(s, []) == s by { RunNone(s); }
  }

  lemma RunNone(s: Sys)
    ensures Run(s, []) == s
  {
  }

  // ------------------------------------------------------------ its steps

  lemma Released(t: Sys, base: Sys, v: View)
    requires Shows(t, base, v) && !v.c.started
    ensures Shows(Next(t, StartOp(v.c.id)), base, v.(c := v.c.(started := true), gate := Start))
  {
    assert base.reg.containers[v.c.id := v.c][v.c.id := v.c.(started := true)]
        == base.reg.containers[v.c.id := v.c.(started := true)];
  }

  /** The word of an answer: none before the end. */
  lemma Asked(t: Sys, base: Sys, v: View, state: State, word: i32)
    requires Shows(t, base, v)
    requires match state
      case Created => !v.c.started && word == 0 && v.c.exitStatus.None?
      case Running => v.c.started && !v.phase.Zombie? && !v.phase.Reaped? && word == 0 && v.c.exitStatus.None?
      case Stopped =>
        v.c.started && (v.phase.Zombie? || v.phase.Reaped?)
        && (v.c.exitStatus == Some(word) || (v.c.exitStatus.None? && v.code == Some(word)))
    ensures Shows(Next(t, StateOp(v.c.id)), base,
      v.(c := v.c.(exitStatus := if state.Stopped? then Some(word) else None),
         answers := v.answers + [Report(v.c.id, state, v.c.pid, word)]))
  {
    var c' := v.c.(exitStatus := if state.Stopped? then Some(word) else None);
    assert base.reg.containers[v.c.id := v.c][v.c.id := c'] == base.reg.containers[v.c.id := c'];
    assert base.reports + v.answers + [Report(v.c.id, state, v.c.pid, word)]
        == base.reports + (v.answers + [Report(v.c.id, state, v.c.pid, word)]);
  }

  lemma PassesGate(t: Sys, base: Sys, v: View)
    requires Shows(t, base, v) && v.phase.AtGate? && v.gate.Start?
    ensures Shows(Next(t, GateRead(v.c.pid)), base, v.(phase := Setup))
  {
  }

  lemma Executes(t: Sys, base: Sys, v: View)
    requires Shows(t, base, v) && v.phase.Setup?
    ensures Shows(Next(t, ExecInit(v.c.pid)), base, v.(phase := Execd))
  {
  }

  lemma Leaves(t: Sys, base: Sys, v: View, word: i32)
    requires Shows(t, base, v) && v.phase.Execd?
    ensures Shows(Next(t, DoExit(v.c.pid, word)), base, v.(phase := Exiting(word, Pending)))
  {
  }

  lemma Checked(t: Sys, base: Sys, v: View)
    requires Shows(t, base, v) && v.phase.Exiting? && v.phase.kprobe.Pending?
    ensures Shows(Next(t, KprobeCheck(v.c.pid)), base, v.(phase := Exiting(v.phase.word, PastCheck)))
  {
    assert v.c.pid in t.watch;
  }

  lemma Recorded(t: Sys, base: Sys, v: View)
    requires Shows(t, base, v) && v.phase.Exiting? && v.phase.kprobe.PastCheck? && v.code.None?
    ensures Shows(Next(t, KprobeRecord(v.c.pid)), base,
      v.(phase := Exiting(v.phase.word, Done), code := Some(v.phase.word)))
  {
    assert base.watch[v.c.pid := None][v.c.pid := Some(v.phase.word)] == base.watch[v.c.pid := Some(v.phase.word)];
  }

  lemma Ends(t: Sys, base: Sys, v: View)
    requires Shows(t, base, v) && v.phase.Exiting? && v.phase.kprobe.Done?
    ensures Shows(Next(t, SetExitState(v.c.pid)), base, v.(phase := Zombie(v.phase.word)))
  {
  }

  lemma IsReaped(t: Sys, base: Sys, v: View)
    requires Shows(t, base, v) && v.phase.Zombie?
    ensures Shows(Next(t, Reap(v.c.pid)), base, v.(phase := Reaped(v.phase.word)))
  {
  }

  /** Deletion leaves the registry and the slots as they were before the container. */
  lemma Removed(t: Sys, base: Sys, v: View)
    requires Shows(t, base, v) && v.c.id !in base.reg.containers && v.c.pid !in base.watch
    ensures var u := Next(t, DeleteOp(v.c.id));
      u.reg.containers == base.reg.containers && u.watch == base.watch && u.reports == t.reports
  {
    assert base.reg.containers[v.c.id := v.c] - {v.c.id} == base.reg.containers;
    assert base.watch[v.c.pid := v.code] - {v.c.pid} == base.watch;
  }

  /** A container's life without anything in between. */
  function LifeSteps(thread: nat, pid: int, gate: nat, id: nat, word: i32): seq<Step> {
    CreationSteps(thread, pid, gate)
    + [StateOp(id), StartOp(id), GateRead(pid), ExecInit(pid)]
    + [StateOp(id), DoExit(pid, word), KprobeCheck(pid), KprobeRecord(pid)]
    + [SetExitState(pid), StateOp(id), Reap(pid), StateOp(id)]
    + [DeleteOp(id)]
  }

  lemma RunParts(s: Sys, a: seq<Step>, b: seq<Step>, c: seq<Step>, d: seq<Step>, e: Step)
    ensures Run(s, a + b + c + d + [e]) == Next(Run(Run(Run(Run(s, a), b), c), d), e)
  {
    hide Run, Next;
    RunSnoc(s, a + b + c + d, e);
    RunAppends(s, a + b + c, d);
    RunAppends(s, a + b, c);
    RunAppends(s, a, b);
  }

  lemma {:induction false} RunAppends(s: Sys, a: seq<Step>, b: seq<Step>)
    ensures Run(s, a + b) == Run(Run(s, a), b)
    decreases |b|
  {
    hide Run, Next;
    if b == [] {
      assert a + b == a;
      RunNone(Run(s, a));
    } else {
      var n := |b| - 1;
      RunAppends(s, a, b[..n]);
      RunSnoc(s, a + b[..n], b[n]);
      RunSnoc(Run(s, a), b[..n], b[n]);
      assert b == b[..n] + [b[n]];
      assert a + b == a + b[..n] + [b[n]];
    }
  }

  /** Created until it is started, running until it has ended, then stopped with the status
      it exited with, also when its task is gone; and after its deletion everything is as
      before. */
  lemma WholeLife(s: Sys, thread: nat, pid: int, gate: nat, word: i32)
    requires Inv(s) && Free(s, thread, pid, gate)
    ensures var id := s.nextId;
      var t := Run(s, LifeSteps(thread, pid, gate, id, word));
      && t.reg.containers == s.reg.containers && t.watch == s.watch
      && t.reports == s.reports
        + [Report(id, Created, pid, 0), Report(id, Running, pid, 0),
           Report(id, Stopped, pid, word), Report(id, Stopped, pid, word)]
  {
    hide Run, Next, Inv, Shows, CreationSteps, Free;
    var id := s.nextId;
    NewId(s, thread, pid, gate);
    var v0 := View(Container(id, pid, Some(gate), false, None), Wait, AtGate, None, []);
    var t0 := Run(s, CreationSteps(thread, pid, gate));
    Creation(s, thread, pid, gate);
    var t1, v1 := FirstPart(t0, s, v0);
    var t2, v2 := SecondPart(t1, s, v1, word);
    var t3, v3 := ThirdPart(t2, s, v2, word);
    Removed(t3, s, v3);
    RunParts(s, CreationSteps(thread, pid, gate), [StateOp(id), StartOp(id), GateRead(pid), ExecInit(pid)],
      [StateOp(id), DoExit(pid, word), KprobeCheck(pid), KprobeRecord(pid)],
      [SetExitState(pid), StateOp(id), Reap(pid), StateOp(id)], DeleteOp(id));
    assert t3.reports == s.reports + v3.answers by { AnswersShown(t3, s, v3); }
  }

  lemma AnswersShown(t: Sys, base: Sys, v: View)
    requires Shows(t, base, v)
    ensures t.reports == base.reports + v.answers
  {
  }

  lemma NewId(s: Sys, thread: nat, pid: int, gate: nat)
    requires Inv(s) && Free(s, thread, pid, gate)
    ensures s.nextId !in s.reg.containers && pid !in s.watch
  {
  }

  lemma FirstPart(t: Sys, base: Sys, v: View) returns (u: Sys, w: View)
    requires Shows(t, base, v) && !v.c.started && v.c.exitStatus.None? && v.phase.AtGate?
    ensures u == Run(t, [StateOp(v.c.id), StartOp(v.c.id), GateRead(v.c.pid), ExecInit(v.c.pid)])
    ensures Shows(u, base, w) && w == v.(
      c := v.c.(started := true), gate := Start, phase := Execd,
      answers := v.answers + [Report(v.c.id, Created, v.c.pid, 0)])
  {
    hide Run, Next, Shows;
    var (id, pid) := (v.c.id, v.c.pid);
    RunFour(t, StateOp(id), StartOp(id), GateRead(pid), ExecInit(pid));
    Asked(t, base, v, Created, 0);
    var v1 := v.(answers := v.answers + [Report(id, Created, pid, 0)]);
    assert v1.c == v.c.(exitStatus := None);
    var t1 := Next(t, StateOp(id));
    Released(t1, base, v1);
    var t2, v2 := Next(t1, StartOp(id)), v1.(c := v.c.(started := true), gate := Start);
    PassesGate(t2, base, v2);
    Executes(Next(t2, GateRead(pid)), base, v2.(phase := Setup));
    u, w := Next(Next(t2, GateRead(pid)), ExecInit(pid)), v2.(phase := Execd);
  }

  lemma SecondPart(t: Sys, base: Sys, v: View, word: i32) returns (u: Sys, w: View)
    requires Shows(t, base, v) && v.c.started && v.c.exitStatus.None? && v.phase.Execd? && v.code.None?
    ensures u == Run(t, [StateOp(v.c.id), DoExit(v.c.pid, word), KprobeCheck(v.c.pid), KprobeRecord(v.c.pid)])
    ensures Shows(u, base, w) && w == v.(
      phase := Exiting(word, Done), code := Some(word),
      answers := v.answers + [Report(v.c.id, Running, v.c.pid, 0)])
  {
    hide Run, Next, Shows;
    var (id, pid) := (v.c.id, v.c.pid);
    RunFour(t, StateOp(id), DoExit(pid, word), KprobeCheck(pid), KprobeRecord(pid));
    Asked(t, base, v, Running, 0);
    var t1, v1 := Next(t, StateOp(id)), v.(answers := v.answers + [Report(id, Running, pid, 0)]);
    assert v1.c == v.c.(exitStatus := None);
    Leaves(t1, base, v1, word);
    var t2 := Next(t1, DoExit(pid, word));
    Checked(t2, base, v1.(phase := Exiting(word, Pending)));
    Recorded(Next(t2, KprobeCheck(pid)), base, v1.(phase := Exiting(word, PastCheck)));
    u := Next(Next(t2, KprobeCheck(pid)), KprobeRecord(pid));
    w := v1.(phase := Exiting(word, Done), code := Some(word));
  }

  lemma ThirdPart(t: Sys, base: Sys, v: View, word: i32) returns (u: Sys, w: View)
    requires Shows(t, base, v) && v.c.started && v.c.exitStatus.None? && v.phase == Exiting(word, Done)
    requires v.code == Some(word)
    ensures u == Run(t, [SetExitState(v.c.pid), StateOp(v.c.id), Reap(v.c.pid), StateOp(v.c.id)])
    ensures Shows(u, base, w) && w == v.(
      c := v.c.(exitStatus := Some(word)), phase := Reaped(word),
      answers := v.answers + [Report(v.c.id, Stopped, v.c.pid, word), Report(v.c.id, Stopped, v.c.pid, word)])
  {
    hide Run, Next, Shows;
    var (id, pid) := (v.c.id, v.c.pid);
    var answer := Report(id, Stopped, pid, word);
    RunFour(t, SetExitState(pid), StateOp(id), Reap(pid), StateOp(id));
    Ends(t, base, v);
    var t1, v1 := Next(t, SetExitState(pid)), v.(phase := Zombie(word));
    Asked(t1, base, v1, Stopped, word);
    var t2, v2 := Next(t1, StateOp(id)), v1.(c := v.c.(exitStatus := Some(word)), answers := v.answers + [answer]);
    IsReaped(t2, base, v2);
    var t3, v3 := Next(t2, Reap(pid)), v2.(phase := Reaped(word));
    Asked(t3, base, v3, Stopped, word);
    u, w := Next(t3, StateOp(id)), v3.(answers := v3.answers + [answer]);
    assert v.answers + [answer] + [answer] == v.answers + [answer, answer];
  }

  /** An init deleted before it was started leaves with status 0, at its next look at the
      gate. */
  lemma DoomedLeaves(s: Sys, id: nat)
    requires Inv(s) && id in s.reg.containers && !s.reg.containers[id].started
    requires var pid := s.reg.containers[id].pid; s.tasks[pid].phase.AtGate?
    ensures var pid := s.reg.containers[id].pid;
      var t := Next(Next(s, DeleteOp(id)), GateRead(pid));
      pid in t.tasks && Exits(t.tasks[pid].phase, 0)
  {
    hide Ids, Slots, Recording, Reporting;
  }

  /** Between them, the check and the recording of an exit leave the table as if it had
      been recorded at once; without any slot in use the check is all. */
  lemma ProbeRecords(s: Sys, pid: int, word: i32)
    requires pid in s.tasks && s.tasks[pid].phase == Exiting(word, Pending)
    ensures var t := Next(Next(s, KprobeCheck(pid)), KprobeRecord(pid));
      && t.watch == RecordMap(s.watch, pid, word)
      && pid in t.tasks && t.tasks[pid].phase == Exiting(word, Done)
    ensures Next(s, KprobeCheck(pid)).tasks[pid].phase.kprobe.Done? <==> s.watch == map[]
  {
  }
}
