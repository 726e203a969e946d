/** The container lifecycle as a concurrent step system. Registry operations are
    one step each, since they run under the registry lock; creating a container
    (clone, number, watch, push) and exiting (call to `do_exit`, the kprobe's
    lock-free check, its locked part, `exit_state` set, reaping) are several. */
module Lifecycle {
  import opened Bytes
  import opened Outcomes
  import opened WatchTable
  import opened Registry

  datatype Kprobe = Pending | PastCheck | Done

  datatype Phase =
    | AtGate
    | Setup
    | Execd
    | Exiting(word: i32, kprobe: Kprobe)
    | Zombie(word: i32)
    | Reaped(word: i32)

  datatype Task = Task(gate: Option<nat>, phase: Phase)

  /** A `spawn` between its clone and its push. */
  datatype Flight = Flight(pid: int, gate: Option<nat>, id: Option<nat>, watchDone: bool)

  datatype Report = Report(id: nat, state: State, pid: int, word: i32)

  /** Who a watch slot belongs to. */
  datatype Slot = InFlight(thread: nat) | Of(id: nat) | Leaked

  /** The state, and below the line what is only remembered for the properties: the
      ids whose watch succeeded, the pids watched before their exit began, the owner
      of each slot, and every STATE answer. */
  datatype Sys = Sys(
    reg: Reg,
    nextId: nat,
    watch: map<int, Option<i32>>,
    tasks: map<int, Task>,
    flights: map<nat, Flight>,
    // ----
    watched: set<nat>,
    early: set<int>,
    slotOf: map<int, Slot>,
    reports: seq<Report>)

  const INIT := Sys(Reg(map[], map[]), 1, map[], map[], map[], {}, {}, map[], [])

  datatype Step =
    | CloneInit(thread: nat, pid: int, gate: Option<nat>)
    | NumberInit(thread: nat)
    | WatchInit(thread: nat)
    | PushInit(thread: nat)
    | StartOp(id: nat)
    | StateOp(id: nat)
    | KillOp(id: nat, sig: int)
    | DeleteOp(id: nat)
    | TextKill(pid: int)
    | GateRead(pid: int)
    | ExecInit(pid: int)
    | DoExit(pid: int, word: i32)
    | KprobeCheck(pid: int)
    | KprobeRecord(pid: int)
    | SetExitState(pid: int)
    | Reap(pid: int)

  predicate Held(s: Sys, pid: int) {
    (exists id :: id in s.reg.containers && s.reg.containers[id].pid == pid)
    || (exists t :: t in s.flights && s.flights[t].pid == pid)
  }

  /** A pid `krunc_spawn` may return: no live task, container, flight or slot has it. */
  predicate Unused(s: Sys, pid: int) {
    (pid in s.tasks ==> s.tasks[pid].phase.Reaped?) && !Held(s, pid) && pid !in s.watch
  }

  function ProbeOf(s: Sys, pid: int): Probe {
    if pid !in s.tasks then Gone else
      match s.tasks[pid].phase
      case Zombie(w) => Exited(w)
      case Reaped(_) => Gone
      case _ => Alive
  }

  predicate Vanished(s: Sys, pid: int) {
    pid !in s.tasks || s.tasks[pid].phase.Reaped?
  }

  predicate Live(p: Phase) {
    p.AtGate? || p.Setup? || p.Execd?
  }

  function Move(s: Sys, pid: int, p: Phase): Sys
    requires pid in s.tasks
  {
    s.(tasks := s.tasks[pid := s.tasks[pid].(phase := p)])
  }

  // ------------------------------------------------------------- the steps

  function Clone(s: Sys, thread: nat, pid: int, gate: Option<nat>): Sys {
    if thread in s.flights || !Unused(s, pid) || (gate.Some? && gate.value in s.reg.gates) then s else
    s.(reg := s.reg.(gates := Shut(s.reg.gates, gate, Wait)),
       tasks := s.tasks[pid := Task(gate, if gate.Some? then AtGate else Setup)],
       flights := s.flights[thread := Flight(pid, gate, None, false)])
  }

  function Number(s: Sys, thread: nat): Sys {
    if thread !in s.flights || s.flights[thread].id.Some? then s else
    var f := s.flights[thread];
    s.(nextId := s.nextId + 1,
       flights := s.flights[thread := f.(id := Some(s.nextId))])
  }

  function Watch(s: Sys, thread: nat): Sys {
    if thread !in s.flights || s.flights[thread].id.None? || s.flights[thread].watchDone then s else
    var f := s.flights[thread];
    var (m, ok) := WatchMap(s.watch, f.pid);
    s.(watch := m,
       flights := s.flights[thread := f.(watchDone := true)],
       watched := if ok then s.watched + {f.id.value} else s.watched,
       slotOf := if ok then s.slotOf[f.pid := InFlight(thread)] else s.slotOf,
       early := if ok && f.pid in s.tasks && Live(s.tasks[f.pid].phase) then s.early + {f.pid} else s.early)
  }

  function Push(s: Sys, thread: nat): Sys {
    if thread !in s.flights || s.flights[thread].id.None? || !s.flights[thread].watchDone then s else
    var f := s.flights[thread];
    s.(reg := PushIn(s.reg, Container(f.id.value, f.pid, f.gate, f.gate.None?, None)),
       flights := s.flights - {thread},
       slotOf := if f.id.value in s.watched then s.slotOf[f.pid := Of(f.id.value)] else s.slotOf)
  }

  function Started(s: Sys, id: nat): Sys {
    var r := StartIn(s.reg, id);
    if r.Err? then s else s.(reg := r.value)
  }

  /** STATE reads the registry, the task and the watch table. */
  function Queried(s: Sys, id: nat): Sys {
    if id !in s.reg.containers then s else
    var pid := s.reg.containers[id].pid;
    var (r, state, p, word) := StateIn(s.reg, id, ProbeOf(s, pid), CodeMap(s.watch, pid)).value;
    s.(reg := r, reports := s.reports + [Report(id, state, p, word)])
  }

  /** DELETE releases a blocked init to its doom; a started one is only signalled,
      which the exit of the task accounts for. */
  function Deleted(s: Sys, id: nat): Sys {
    if id !in s.reg.containers then s else
    var pid := s.reg.containers[id].pid;
    s.(reg := DeleteIn(s.reg, id).value, watch := s.watch - {pid}, early := s.early - {pid}, slotOf := s.slotOf - {pid})
  }

  /** The text plane's kill: fails without effect if the task is gone, else drops the
      registry entry, and nothing else. */
  function TextKilled(s: Sys, pid: int): Sys {
    if Vanished(s, pid) then s else
    s.(reg := DropPid(s.reg, pid),
       slotOf := if pid in s.slotOf && s.slotOf[pid].Of? then s.slotOf[pid := Leaked] else s.slotOf)
  }

  /** One turn of the init's gate loop. */
  function ReadGate(s: Sys, pid: int): Sys {
    if pid !in s.tasks || !s.tasks[pid].phase.AtGate? || s.tasks[pid].gate.None?
      || s.tasks[pid].gate.value !in s.reg.gates then s else
    match s.reg.gates[s.tasks[pid].gate.value]
    case Wait => s
    case Doom => Move(s, pid, Exiting(0, Pending))
    case Start => Move(s, pid, Setup)
  }

  function Exec(s: Sys, pid: int): Sys {
    if pid in s.tasks && s.tasks[pid].phase.Setup? then Move(s, pid, Execd) else s
  }

  function Exit(s: Sys, pid: int, word: i32): Sys {
    if pid in s.tasks && (s.tasks[pid].phase.Setup? || s.tasks[pid].phase.Execd?)
    then Move(s, pid, Exiting(word, Pending)) else s
  }

  /** The kprobe's early return reads the counter without the lock. */
  function Check(s: Sys, pid: int): Sys {
    if pid !in s.tasks || !s.tasks[pid].phase.Exiting? || !s.tasks[pid].phase.kprobe.Pending? then s else
    var w := s.tasks[pid].phase.word;
    Move(s, pid, Exiting(w, if |s.watch| == 0 then Done else PastCheck))
  }

  function Record(s: Sys, pid: int): Sys {
    if pid !in s.tasks || !s.tasks[pid].phase.Exiting? || !s.tasks[pid].phase.kprobe.PastCheck? then s else
    var w := s.tasks[pid].phase.word;
    Move(s.(watch := RecordMap(s.watch, pid, w)), pid, Exiting(w, Done))
  }

  function SetExit(s: Sys, pid: int): Sys {
    if pid in s.tasks && s.tasks[pid].phase.Exiting? && s.tasks[pid].phase.kprobe.Done?
    then Move(s, pid, Zombie(s.tasks[pid].phase.word)) else s
  }

  function Release(s: Sys, pid: int): Sys {
    if pid in s.tasks && s.tasks[pid].phase.Zombie? then Move(s, pid, Reaped(s.tasks[pid].phase.word)) else s
  }

  function Next(s: Sys, step: Step): Sys {
    match step
    case CloneInit(thread, pid, gate) => Clone(s, thread, pid, gate)
    case NumberInit(thread) => Number(s, thread)
    case WatchInit(thread) => Watch(s, thread)
    case PushInit(thread) => Push(s, thread)
    case StartOp(id) => Started(s, id)
    case StateOp(id) => Queried(s, id)
    case KillOp(id, sig) => s
    case DeleteOp(id) => Deleted(s, id)
    case TextKill(pid) => TextKilled(s, pid)
    case GateRead(pid) => ReadGate(s, pid)
    case ExecInit(pid) => Exec(s, pid)
    case DoExit(pid, word) => Exit(s, pid, word)
    case KprobeCheck(pid) => Check(s, pid)
    case KprobeRecord(pid) => Record(s, pid)
    case SetExitState(pid) => SetExit(s, pid)
    case Reap(pid) => Release(s, pid)
  }

  /** Any interleaving: a step that is not possible does nothing. */
  function Run(s: Sys, steps: seq<Step>): Sys
    decreases |steps|
  {
    if steps == [] then s else Run(Next(s, steps[0]), steps[1..])
  }

  // ------------------------------------------------------------ invariants

  /** Ids are unique and given out in order. */
  ghost predicate Ids(s: Sys) {
    && (forall id :: id in s.reg.containers ==> s.reg.containers[id].id == id && id < s.nextId)
    && (forall t :: t in s.flights && s.flights[t].id.Some? ==>
          s.flights[t].id.value < s.nextId && s.flights[t].id.value !in s.reg.containers
          && (!s.flights[t].watchDone ==> s.flights[t].id.value !in s.watched))
    && (forall t :: t in s.flights && s.flights[t].id.None? ==> !s.flights[t].watchDone)
    && (forall t, u :: t in s.flights && u in s.flights && t != u && s.flights[t].id.Some? ==>
          s.flights[t].id != s.flights[u].id)
    && (forall id :: id in s.watched ==> id < s.nextId)
  }

  /** Pids are unique among containers and flights, and name their tasks. */
  ghost predicate Pids(s: Sys) {
    && (forall a, b :: a in s.reg.containers && b in s.reg.containers && a != b ==>
          s.reg.containers[a].pid != s.reg.containers[b].pid)
    && (forall t, u :: t in s.flights && u in s.flights && t != u ==> s.flights[t].pid != s.flights[u].pid)
    && (forall a, t :: a in s.reg.containers && t in s.flights ==> s.reg.containers[a].pid != s.flights[t].pid)
    && (forall id :: id in s.reg.containers ==>
          s.reg.containers[id].pid in s.tasks && s.tasks[s.reg.containers[id].pid].gate == s.reg.containers[id].ctrl)
    && (forall t :: t in s.flights ==>
          s.flights[t].pid in s.tasks && s.tasks[s.flights[t].pid].gate == s.flights[t].gate)
  }

  /** Gates and what they release. */
  ghost predicate Gating(s: Sys) {
    && (forall p :: p in s.tasks && s.tasks[p].gate.Some? ==> s.tasks[p].gate.value in s.reg.gates)
    && (forall p, q :: p in s.tasks && q in s.tasks && p != q && s.tasks[p].gate.Some? ==>
          s.tasks[p].gate != s.tasks[q].gate)
    && (forall p :: p in s.tasks && s.tasks[p].gate.Some? && (s.tasks[p].phase.Setup? || s.tasks[p].phase.Execd?) ==>
          s.reg.gates[s.tasks[p].gate.value] == Start)
    && (forall id :: id in s.reg.containers ==>
          if s.reg.containers[id].ctrl.Some? then
            && s.reg.containers[id].ctrl.value in s.reg.gates
            && s.reg.gates[s.reg.containers[id].ctrl.value] == (if s.reg.containers[id].started then Start else Wait)
          else s.reg.containers[id].started)
    && (forall t :: t in s.flights && s.flights[t].gate.Some? ==>
          && s.flights[t].gate.value in s.reg.gates
          && s.reg.gates[s.flights[t].gate.value] == Wait)
  }

  /** Who is past a gate saw it open or doomed, and who has none never waits. */
  ghost predicate Passing(s: Sys) {
    && (forall p :: p in s.tasks && s.tasks[p].gate.Some? && s.tasks[p].gate.value in s.reg.gates ==>
          s.tasks[p].phase.AtGate? || s.reg.gates[s.tasks[p].gate.value] != Wait)
    && (forall p :: p in s.tasks && s.tasks[p].gate.None? ==> !s.tasks[p].phase.AtGate?)
  }

  /** The slots in use and their owners. */
  ghost predicate Slots(s: Sys) {
    && |s.watch| <= 64
    && s.watch.Keys == s.slotOf.Keys
    && (forall p :: p in s.slotOf ==> p in s.tasks && Owned(s, p))
    && (forall id :: id in s.reg.containers ==> Owns(s, s.reg.containers[id].pid, id, Of(id)))
    && (forall t :: t in s.flights && s.flights[t].id.Some? ==>
          Owns(s, s.flights[t].pid, s.flights[t].id.value, InFlight(t)))
    && (forall t :: t in s.flights && s.flights[t].id.None? ==> s.flights[t].pid !in s.slotOf)
  }

  /** The owner of a slot has the slot's pid. */
  ghost predicate Owned(s: Sys, p: int)
    requires p in s.slotOf
  {
    match s.slotOf[p]
    case InFlight(t) => t in s.flights && s.flights[t].pid == p && s.flights[t].watchDone
    case Of(id) => id in s.reg.containers && s.reg.containers[id].pid == p
    case Leaked => true
  }

  /** A container has a slot if and only if its watch succeeded. */
  ghost predicate Owns(s: Sys, pid: int, id: nat, owner: Slot) {
    if id in s.watched then pid in s.slotOf && s.slotOf[pid] == owner else pid !in s.slotOf
  }

  /** What the slots hold. */
  ghost predicate Recording(s: Sys) {
    && s.early <= s.watch.Keys
    && (forall p :: p in s.watch && s.watch[p].Some? && p in s.tasks ==>
          var f := s.tasks[p].phase;
          (f.Exiting? && f.kprobe.Done? && f.word == s.watch[p].value)
          || f == Zombie(s.watch[p].value) || f == Reaped(s.watch[p].value))
    && (forall p :: p in s.early && p in s.tasks ==>
          var f := s.tasks[p].phase;
          if Live(f) || (f.Exiting? && !f.kprobe.Done?) then s.watch[p] == None else s.watch[p] == Some(f.word))
  }

  predicate Ended(f: Phase) {
    f.Zombie? || f.Reaped?
  }

  /** What has been cached and reported. */
  ghost predicate Reporting(s: Sys) {
    && (forall id :: id in s.reg.containers ==> Cached(s, s.reg.containers[id]))
    && (forall i :: 0 <= i < |s.reports| ==> s.reports[i].id < s.nextId)
    && (forall i, t :: 0 <= i < |s.reports| && t in s.flights ==> s.flights[t].id != Some(s.reports[i].id))
    && (forall i :: 0 <= i < |s.reports| && s.reports[i].id in s.reg.containers ==>
          Stands(s, s.reports[i], s.reg.containers[s.reports[i].id]))
    && Monotone(s.reports)
  }

  /** A cached status is that of a task that has ended. */
  ghost predicate Cached(s: Sys, c: Container) {
    c.exitStatus.Some? && c.pid in s.tasks ==>
      c.started && Ended(s.tasks[c.pid].phase) && s.tasks[c.pid].phase.word == c.exitStatus.value
  }

  /** An earlier answer that the next one will not contradict. */
  ghost predicate Stands(s: Sys, r: Report, c: Container) {
    && r.pid == c.pid
    && (r.state.Running? ==> c.started)
    && (r.state.Stopped? && c.pid in s.tasks ==>
          && c.started && Ended(s.tasks[c.pid].phase)
          && (c.exitStatus == Some(r.word)
              || (c.exitStatus == None && r.word == 0 && s.tasks[c.pid].phase.Reaped?
                && CodeMap(s.watch, c.pid) == None)))
  }

  /** Answers about one container never go back, and its exit status never changes. */
  ghost predicate Monotone(rs: seq<Report>) {
    forall i, j :: 0 <= i < j < |rs| && rs[i].id == rs[j].id ==> Follows(rs[i], rs[j])
  }

  predicate Follows(r: Report, q: Report) {
    && Rank(r.state) <= Rank(q.state) && r.pid == q.pid
    && (r.state.Stopped? && q.state.Stopped? ==> r.word == q.word)
  }

  ghost predicate Inv(s: Sys) {
    Ids(s) && Pids(s) && Gating(s) && Passing(s) && Slots(s) && Recording(s) && Reporting(s)
  }
}
