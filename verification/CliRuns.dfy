/** What the commands do to a container that is saved: who can take its state file over,
    and where the whole sequences of create, start, state and delete lead. */
module CliRuns {
  import opened Outcomes
  import opened CliProtocol

  // --------------------------------------------------------- a saved container

  /** On its way to save a new container under this id. */
  predicate Prepares(p: Proc, id: nat) {
    match p
    case Creating(i, _, _) => i == id
    case Made(i, _, _) => i == id
    case UidMapped(i, _, _) => i == id
    case Mapped(i, _, _) => i == id
    case Placed(i, _, _) => i == id
    case Armed(i, _, _) => i == id
    case _ => false
  }

  /** Holding the state of this id as something else. */
  predicate HoldsOther(p: Proc, id: nat, st: Saved) {
    match p
    case Starting(i, _, s) => i == id && s != st
    case Started(i, _, s) => i == id && s != st
    case Waiting(i, s) => i == id && s != st
    case Querying(i, s) => i == id && s != st
    case Deleting(i, s) => i == id && s != st
    case Deleted(i, s, _) => i == id && s != st
    case _ => false
  }

  /** Saved, with no create of it under way and no command that read another state. */
  ghost predicate Settled(w: World, id: nat, st: Saved) {
    && id in w.files && w.files[id] == st
    && forall p :: p in w.procs ==> !Prepares(w.procs[p], id) && !HoldsOther(w.procs[p], id, st)
  }

  /** The step removes the state file of this id. */
  predicate Removes(w: World, step: Step, id: nat) {
    step.RemoveState? && step.proc in w.procs
    && (w.procs[step.proc] == Disarmed(id) || w.procs[step.proc] == Cleaning(id))
  }

  lemma OthersStayPreparing(w: World, step: Step)
    requires PreparesOrDisarms(step)
    ensures forall p :: p != step.proc ==> At(Next(w, step), p) == At(w, p)
  {
    hide MapsWritten, Guarded;
  }

  lemma OthersStayPlainly(w: World, step: Step)
    requires !PreparesOrDisarms(step) && !step.TextKill?
    ensures forall p :: p != step.proc ==> At(Next(w, step), p) == At(w, p)
  {
    hide MapsWritten, Guarded;
  }

  lemma MoverSettledPreparing(w: World, step: Step, id: nat, st: Saved)
    requires PreparesOrDisarms(step) && Settled(w, id, st)
    ensures var p := At(Next(w, step), step.proc); !Prepares(p, id) && !HoldsOther(p, id, st)
  {
    hide MapsWritten, Guarded;
  }

  lemma MoverSettledLoading(w: World, step: Step, id: nat, st: Saved)
    requires Loads(step) && Settled(w, id, st)
    ensures var p := At(Next(w, step), step.proc); !Prepares(p, id) && !HoldsOther(p, id, st)
  {
    hide MapsWritten, Guarded;
  }

  lemma SaverSettled(w: World, proc: nat, id: nat, st: Saved)
    requires Settled(w, id, st)
    ensures var p := At(SaveState(w, proc), proc); !Prepares(p, id) && !HoldsOther(p, id, st)
    ensures id in SaveState(w, proc).files && SaveState(w, proc).files[id] == st
  {
  }

  lemma StarterSettled(w: World, proc: nat, opens: bool, id: nat, st: Saved)
    requires Settled(w, id, st)
    ensures var p := At(Start(w, proc, opens), proc); !Prepares(p, id) && !HoldsOther(p, id, st)
  {
    hide MapsWritten, Guarded;
  }

  predicate Unmakes(step: Step) {
    step.RunDelete? || step.KernelDelete? || step.RemoveState? || step.AbortDelete?
  }

  lemma UnmakerSettled(w: World, step: Step, id: nat, st: Saved)
    requires Unmakes(step) && Settled(w, id, st)
    ensures var p := At(Next(w, step), step.proc); !Prepares(p, id) && !HoldsOther(p, id, st)
  {
  }

  lemma MoverSettled(w: World, step: Step, id: nat, st: Saved)
    requires Settled(w, id, st) && !step.TextKill?
    ensures var p := At(Next(w, step), step.proc); !Prepares(p, id) && !HoldsOther(p, id, st)
  {
    hide Settled, At, SaveState, Start;
    if PreparesOrDisarms(step) {
      MoverSettledPreparing(w, step, id, st);
    } else if Loads(step) {
      MoverSettledLoading(w, step, id, st);
    } else if step.Save? {
      SaverSettled(w, step.proc, id, st);
    } else if step.KernelStart? {
      StarterSettled(w, step.proc, step.opens, id, st);
    } else {
      UnmakerSettled(w, step, id, st);
    }
  }

  /** Only saving and removing touch a file. */
  lemma FilesStay(w: World, step: Step)
    requires !step.Save? && !step.RemoveState?
    ensures Next(w, step).files == w.files
  {
    hide MapsWritten, Guarded;
  }

  lemma FileStays(w: World, step: Step, id: nat, st: Saved)
    requires Settled(w, id, st) && !Removes(w, step, id)
    ensures id in Next(w, step).files && Next(w, step).files[id] == st
  {
    hide SaveState;
    if step.Save? {
      SaverSettled(w, step.proc, id, st);
    } else if !step.RemoveState? {
      FilesStay(w, step);
    }
  }

  lemma KillMovesNone(w: World, kid: nat)
    ensures Next(w, TextKill(kid)).procs == w.procs
  {
  }

  lemma SettledStep(w: World, step: Step, id: nat, st: Saved)
    requires Settled(w, id, st) && !Removes(w, step, id)
    ensures Settled(Next(w, step), id, st)
  {
    hide Next, Removes;
    FileStays(w, step, id, st);
    var v := Next(w, step);
    if step.TextKill? {
      KillMovesNone(w, step.kid);
    } else {
      if PreparesOrDisarms(step) {
        OthersStayPreparing(w, step);
      } else {
        OthersStayPlainly(w, step);
      }
      MoverSettled(w, step, id, st);
      forall p | p in v.procs
        ensures !Prepares(v.procs[p], id) && !HoldsOther(v.procs[p], id, st)
      {
        assert At(v, p) == v.procs[p];
      }
    }
  }

  /** Whatever commands run, a saved container that no create is about to take over keeps
      its file, and every command on it finds the same kernel id, until the file is
      removed. */
  lemma {:induction false} SavedUntilRemoved(w: World, steps: seq<Step>, id: nat, st: Saved)
    requires Settled(w, id, st)
    requires forall k :: 0 <= k < |steps| ==> !Removes(Run(w, steps[..k]), steps[k], id)
    ensures Settled(Run(w, steps), id, st)
    decreases |steps|
  {
    hide Settled, Next, Removes;
    if steps != [] {
      var n := |steps| - 1;
      forall k | 0 <= k < n
        ensures !Removes(Run(w, steps[..n][..k]), steps[..n][k], id)
      {
        assert steps[..n][..k] == steps[..k];
      }
      SavedUntilRemoved(w, steps[..n], id, st);
      SettledStep(Run(w, steps[..n]), steps[n], id, st);
      RunSnoc(w, steps[..n], steps[n]);
      assert steps == steps[..n] + [steps[n]];
    }
  }

  lemma {:induction false} RunSnoc(w: World, steps: seq<Step>, last: Step)
    ensures Run(w, steps + [last]) == Next(Run(w, steps), last)
    decreases |steps|
  {
    hide Next;
    if steps == [] {
      assert steps + [last] == [last];
      assert [last][1..] == [];
    } else {
      assert (steps + [last])[1..] == steps[1..] + [last];
      RunSnoc(Next(w, steps[0]), steps[1..], last);
    }
  }

  /** A create of a saved container, or by a process at work, is refused. */
  lemma CreateRefused(w: World, proc: nat, id: nat, conf: Conf, run: bool)
    ensures Next(w, BeginCreate(proc, id, conf, run)) != w <==> id !in w.files && proc !in w.procs
  {
    if id !in w.files && proc !in w.procs {
      assert proc in Next(w, BeginCreate(proc, id, conf, run)).procs;
    }
  }

  // ------------------------------------------------------ whole commands

  lemma RunThree(w: World, a: Step, b: Step, c: Step)
    ensures Run(w, [a, b, c]) == Next(Next(Next(w, a), b), c)
  {
    hide Run, Next;
    var steps := [a, b, c];
    RunDrop(w, steps, 0);
    RunDrop(Next(w, a), steps, 1);
    RunDrop(Next(Next(w, a), b), steps, 2);
    assert steps[0..] == steps && steps[3..] == [];
    RunNone(Next(Next(Next(w, a), b), c));
  }

  lemma RunFour(w: World, a: Step, b: Step, c: Step, d: Step)
    ensures Run(w, [a, b, c, d]) == Next(Next(Next(Next(w, a), b), c), d)
  {
    hide Run, Next;
    RunThree(w, a, b, c);
    RunSnoc(w, [a, b, c], d);
    assert [a, b, c] + [d] == [a, b, c, d];
  }

  /** `start` of a saved container: the kernel releases its init, and nothing else
      changes; a container the kernel does not know is not released. */
  lemma StartCommand(w: World, proc: nat, id: nat)
    requires proc !in w.procs && id in w.files
    ensures var kid := w.files[id].kid;
      var v := Run(w, [BeginStart(proc, id), KernelStart(proc, true), Save(proc)]);
      v == w.(procs := w.procs[proc := Ended],
              releases := if kid in w.kernel && kid in w.info then w.releases + [Released(w, kid)] else w.releases)
  {
    hide Run, Start, SaveState, Released;
    var st, m := w.files[id], w.procs;
    RunThree(w, BeginStart(proc, id), KernelStart(proc, true), Save(proc));
    var w1 := w.(procs := m[proc := Starting(id, false, st)]);
    assert Next(w, BeginStart(proc, id)) == w1;
    if st.kid in w.kernel && st.kid in w.info {
      SameRelease(w, w1, st.kid);
      var w2 := w.(procs := m[proc := Started(id, false, st)], releases := w.releases + [Released(w, st.kid)]);
      assert Start(w1, proc, true) == w2 by { StartMoves(w1, m, proc, id, st); }
      assert SaveState(w2, proc) == w2.(procs := m[proc := Ended]) by { SaveMoves(w2, m, proc, id, st); }
    } else {
      var w2 := w.(procs := m[proc := Ended]);
      assert Start(w1, proc, true) == w2 by { StartRefused(w1, m, proc, id, st); }
      assert SaveState(w2, proc) == w2 by { EndedStays(w2, proc); }
    }
  }

  /** What is recorded of a release. */
  function Released(w: World, kid: nat): Release
    requires kid in w.info
  {
    Release(kid, MapsWritten(w, kid), Guarded(w, kid), kid in w.skipped)
  }

  lemma SameRelease(w: World, v: World, kid: nat)
    requires kid in w.info && v == w.(procs := v.procs)
    ensures Released(v, kid) == Released(w, kid)
  {
  }

  lemma StartMoves(w: World, m: map<nat, Proc>, proc: nat, id: nat, st: Saved)
    requires w.procs == m[proc := Starting(id, false, st)] && st.kid in w.kernel && st.kid in w.info
    ensures Start(w, proc, true) ==
      w.(procs := m[proc := Started(id, false, st)], releases := w.releases + [Released(w, st.kid)])
  {
    hide MapsWritten, Guarded;
    Twice(m, proc, Starting(id, false, st), Started(id, false, st));
  }

  lemma StartRefused(w: World, m: map<nat, Proc>, proc: nat, id: nat, st: Saved)
    requires w.procs == m[proc := Starting(id, false, st)] && !(st.kid in w.kernel && st.kid in w.info)
    ensures Start(w, proc, true) == w.(procs := m[proc := Ended])
  {
    hide MapsWritten, Guarded;
    Twice(m, proc, Starting(id, false, st), Ended);
  }

  lemma SaveMoves(w: World, m: map<nat, Proc>, proc: nat, id: nat, st: Saved)
    requires w.procs == m[proc := Started(id, false, st)] && id in w.files && w.files[id] == st
    ensures SaveState(w, proc) == w.(procs := m[proc := Ended])
  {
    Twice(m, proc, Started(id, false, st), Ended);
    assert w.files[id := st] == w.files;
  }

  lemma EndedStays(w: World, proc: nat)
    requires At(w, proc) == Ended
    ensures SaveState(w, proc) == w
  {
  }

  lemma Twice<K, V>(m: map<K, V>, k: K, a: V, b: V)
    ensures m[k := a][k := b] == m[k := b]
  {
  }

  /** `delete` of a saved container: it is unregistered, unguarded, and its file is
      gone. */
  lemma DeleteCommand(w: World, proc: nat, id: nat)
    requires proc !in w.procs && id in w.files
    ensures var st := w.files[id];
      var v := Run(w, [BeginDelete(proc, id), KernelDelete(proc, true), Disarm(proc, true), RemoveState(proc)]);
      v == w.(
        procs := w.procs[proc := Ended], kernel := w.kernel - {st.kid}, files := w.files - {id},
        guarded := if st.bpfLsm.Some? && st.cgroup.Some? then w.guarded - {st.cgroup.value} else w.guarded)
  {
    hide Run, Delete, DisarmLsm, Remove;
    var st, m := w.files[id], w.procs;
    RunFour(w, BeginDelete(proc, id), KernelDelete(proc, true), Disarm(proc, true), RemoveState(proc));
    var w1 := w.(procs := m[proc := Deleting(id, st)]);
    assert Next(w, BeginDelete(proc, id)) == w1;
    var w2 := w.(procs := m[proc := Deleted(id, st, true)], kernel := w.kernel - {st.kid});
    DeleteMoves(w1, m, proc, id, st);
    var w3 := w2.(procs := m[proc := Disarmed(id)],
      guarded := if st.bpfLsm.Some? && st.cgroup.Some? then w.guarded - {st.cgroup.value} else w.guarded);
    DisarmMoves(w2, m, proc, id, st);
    RemoveMoves(w3, m, proc, id);
  }

  lemma DeleteMoves(w: World, m: map<nat, Proc>, proc: nat, id: nat, st: Saved)
    requires w.procs == m[proc := Deleting(id, st)]
    ensures Delete(w, proc, true) == w.(procs := m[proc := Deleted(id, st, true)], kernel := w.kernel - {st.kid})
  {
    Twice(m, proc, Deleting(id, st), Deleted(id, st, true));
  }

  lemma DisarmMoves(w: World, m: map<nat, Proc>, proc: nat, id: nat, st: Saved)
    requires w.procs == m[proc := Deleted(id, st, true)]
    ensures DisarmLsm(w, proc, true) == w.(procs := m[proc := Disarmed(id)],
      guarded := if st.bpfLsm.Some? && st.cgroup.Some? then w.guarded - {st.cgroup.value} else w.guarded)
  {
    Twice(m, proc, Deleted(id, st, true), Disarmed(id));
  }

  lemma RemoveMoves(w: World, m: map<nat, Proc>, proc: nat, id: nat)
    requires w.procs == m[proc := Disarmed(id)]
    ensures Remove(w, proc) == w.(procs := m[proc := Ended], files := w.files - {id})
  {
    Twice(m, proc, Disarmed(id), Ended);
  }

  /** `state` of a saved container leaves it as it is. */
  lemma StateCommand(w: World, proc: nat, id: nat)
    requires proc !in w.procs && id in w.files
    ensures Run(w, [BeginState(proc, id), Save(proc)]) == w.(procs := w.procs[proc := Ended])
  {
    hide Run, SaveState;
    var (st, m) := (w.files[id], w.procs);
    RunTwo(w, BeginState(proc, id), Save(proc));
    var w1 := w.(procs := m[proc := Querying(id, st)]);
    assert Next(w, BeginState(proc, id)) == w1;
    QuerySaves(w1, m, proc, id, st);
  }

  lemma QuerySaves(w: World, m: map<nat, Proc>, proc: nat, id: nat, st: Saved)
    requires w.procs == m[proc := Querying(id, st)] && id in w.files && w.files[id] == st
    ensures SaveState(w, proc) == w.(procs := m[proc := Ended])
  {
    Twice(m, proc, Querying(id, st), Ended);
    assert w.files[id := st] == w.files;
  }

  /** What a finished create of `conf` leaves. */
  function AfterCreate(w: World, id: nat, conf: Conf, pid: int, cgroup: Option<nat>): World {
    var k := w.nextKid;
    w.(
      nextKid := k + 1, kernel := w.kernel + {k}, pids := w.pids + {pid},
      cgroups := if cgroup.Some? then w.cgroups + {cgroup.value} else w.cgroups,
      uidMap := if conf.uidMaps != [] then w.uidMap[pid := conf.uidMaps] else w.uidMap,
      gidMap := if conf.gidMaps != [] then w.gidMap[pid := conf.gidMaps] else w.gidMap,
      guarded := if conf.bpfLsm.Some? && cgroup.Some? then w.guarded[cgroup.value := conf.bpfLsm.value] else w.guarded,
      files := w.files[id := Saved(k, cgroup, conf.bpfLsm)],
      info := w.info[k := Info(conf, pid, cgroup)], ready := w.ready + {k})
  }

  function CreateSteps(proc: nat, id: nat, conf: Conf, run: bool, pid: int, cgroup: Option<nat>): seq<Step> {
    [BeginCreate(proc, id, conf, run), KernelCreate(proc, pid), WriteUidMap(proc, true), WriteGidMap(proc, true),
     MakeCgroup(proc, cgroup), Arm(proc, true, true), Save(proc)]
  }

  /** `create` under a free id: a registered container with its maps written and its
      cgroup guarded as configured, saved under the id. `run` goes on to start it. */
  lemma CreateCommand(w: World, proc: nat, id: nat, conf: Conf, run: bool, pid: int, cgroup: Option<nat>)
    requires proc !in w.procs && id !in w.files && pid !in w.pids
    requires (cgroup.Some? ==> cgroup.value !in w.cgroups) && (conf.bpfLsm.Some? ==> cgroup.Some?)
    ensures var end := if run then Starting(id, true, Saved(w.nextKid, cgroup, conf.bpfLsm)) else Ended;
      Run(w, CreateSteps(proc, id, conf, run, pid, cgroup)) ==
      AfterCreate(w, id, conf, pid, cgroup).(procs := w.procs[proc := end])
  {
    hide Run, Create, Finish, AfterCreate, CreateSteps;
    var m, k := w.procs, w.nextKid;
    var w1 := w.(procs := m[proc := Creating(id, conf, run)]);
    assert Begin(w, proc, id, conf, run) == w1;
    CreateMoves(w1, m, proc, id, conf, run, pid);
    FinishMoves(Create(w1, proc, pid), m, proc, id, run, k, cgroup);
    RunCreate(w, proc, id, conf, run, pid, cgroup);
    CreateLeaves(w, proc, id, conf, run, pid, cgroup);
  }

  /** What the last five steps leave. */
  function Finished(w: World, m: map<nat, Proc>, proc: nat, id: nat, run: bool, k: nat, cgroup: Option<nat>): World
    requires k in w.info
  {
    var i := w.info[k];
    var st := Saved(k, cgroup, i.conf.bpfLsm);
    w.(procs := m[proc := if run then Starting(id, true, st) else Ended],
       uidMap := if i.conf.uidMaps != [] then w.uidMap[i.pid := i.conf.uidMaps] else w.uidMap,
       gidMap := if i.conf.gidMaps != [] then w.gidMap[i.pid := i.conf.gidMaps] else w.gidMap,
       cgroups := if cgroup.Some? then w.cgroups + {cgroup.value} else w.cgroups,
       info := w.info[k := i.(cgroup := cgroup)], ready := w.ready + {k},
       guarded := if i.conf.bpfLsm.Some? && cgroup.Some?
         then w.guarded[cgroup.value := i.conf.bpfLsm.value] else w.guarded,
       files := w.files[id := st])
  }

  lemma FinishMoves(w: World, m: map<nat, Proc>, proc: nat, id: nat, run: bool, k: nat, cgroup: Option<nat>)
    requires w.procs == m[proc := Made(id, run, k)] && k in w.info
    requires (cgroup.Some? ==> cgroup.value !in w.cgroups) && (w.info[k].conf.bpfLsm.Some? ==> cgroup.Some?)
    ensures Finish(w, proc, cgroup) == Finished(w, m, proc, id, run, k, cgroup)
  {
    hide UidMap, GidMap, Cgroup, ArmLsm, SaveState;
    var w3 := UidMap(w, proc, true);
    UidMoves(w, m, proc, id, run, k);
    var w4 := GidMap(w3, proc, true);
    GidMoves(w3, m, proc, id, run, k);
    var w5 := Cgroup(w4, proc, cgroup);
    CgroupMoves(w4, m, proc, id, run, k, cgroup);
    ArmMoves(w5, m, proc, id, run, k);
    CreateSaves(ArmLsm(w5, proc, true, true), m, proc, id, run, Saved(k, cgroup, w.info[k].conf.bpfLsm));
  }

  lemma CreateLeaves(w: World, proc: nat, id: nat, conf: Conf, run: bool, pid: int, cgroup: Option<nat>)
    ensures var (m, k) := (w.procs, w.nextKid);
      var w2 := w.(procs := m[proc := Made(id, run, k)], nextKid := k + 1, kernel := w.kernel + {k},
                   pids := w.pids + {pid}, info := w.info[k := Info(conf, pid, None)]);
      var end := if run then Starting(id, true, Saved(k, cgroup, conf.bpfLsm)) else Ended;
      Finished(w2, m, proc, id, run, k, cgroup) == AfterCreate(w, id, conf, pid, cgroup).(procs := m[proc := end])
  {
    Twice(w.info, w.nextKid, Info(conf, pid, None), Info(conf, pid, cgroup));
  }

  lemma RunCreate(w: World, proc: nat, id: nat, conf: Conf, run: bool, pid: int, cgroup: Option<nat>)
    ensures Run(w, CreateSteps(proc, id, conf, run, pid, cgroup)) ==
      Finish(Create(Begin(w, proc, id, conf, run), proc, pid), proc, cgroup)
  {
    hide Run, Begin, Create, UidMap, GidMap, Cgroup, ArmLsm, SaveState;
    var steps := CreateSteps(proc, id, conf, run, pid, cgroup);
    var w1 := Begin(w, proc, id, conf, run);
    RunDrop(w, steps, 0);
    RunDrop(w1, steps, 1);
    RunFive(Create(w1, proc, pid), steps[2..]);
    assert steps[0..] == steps;
  }

  /** The last five steps. */
  function Finish(w: World, proc: nat, cgroup: Option<nat>): World {
    SaveState(ArmLsm(Cgroup(GidMap(UidMap(w, proc, true), proc, true), proc, cgroup), proc, true, true), proc)
  }

  lemma CreateMoves(w: World, m: map<nat, Proc>, proc: nat, id: nat, conf: Conf, run: bool, pid: int)
    requires w.procs == m[proc := Creating(id, conf, run)] && pid !in w.pids
    ensures Create(w, proc, pid) == w.(procs := m[proc := Made(id, run, w.nextKid)],
      nextKid := w.nextKid + 1, kernel := w.kernel + {w.nextKid}, pids := w.pids + {pid},
      info := w.info[w.nextKid := Info(conf, pid, None)])
  {
    Twice(m, proc, Creating(id, conf, run), Made(id, run, w.nextKid));
  }

  lemma UidMoves(w: World, m: map<nat, Proc>, proc: nat, id: nat, run: bool, k: nat)
    requires w.procs == m[proc := Made(id, run, k)] && k in w.info
    ensures var i := w.info[k];
      UidMap(w, proc, true) == w.(procs := m[proc := UidMapped(id, run, k)],
        uidMap := if i.conf.uidMaps != [] then w.uidMap[i.pid := i.conf.uidMaps] else w.uidMap)
  {
    Twice(m, proc, Made(id, run, k), UidMapped(id, run, k));
  }

  lemma GidMoves(w: World, m: map<nat, Proc>, proc: nat, id: nat, run: bool, k: nat)
    requires w.procs == m[proc := UidMapped(id, run, k)] && k in w.info
    ensures var i := w.info[k];
      GidMap(w, proc, true) == w.(procs := m[proc := Mapped(id, run, k)],
        gidMap := if i.conf.gidMaps != [] then w.gidMap[i.pid := i.conf.gidMaps] else w.gidMap)
  {
    Twice(m, proc, UidMapped(id, run, k), Mapped(id, run, k));
  }

  lemma CgroupMoves(w: World, m: map<nat, Proc>, proc: nat, id: nat, run: bool, k: nat, cgroup: Option<nat>)
    requires w.procs == m[proc := Mapped(id, run, k)] && k in w.info
    requires cgroup.Some? ==> cgroup.value !in w.cgroups
    ensures Cgroup(w, proc, cgroup) == w.(procs := m[proc := Placed(id, run, k)],
        cgroups := if cgroup.Some? then w.cgroups + {cgroup.value} else w.cgroups,
        info := w.info[k := w.info[k].(cgroup := cgroup)])
  {
    Twice(m, proc, Mapped(id, run, k), Placed(id, run, k));
  }

  lemma ArmMoves(w: World, m: map<nat, Proc>, proc: nat, id: nat, run: bool, k: nat)
    requires w.procs == m[proc := Placed(id, run, k)] && k in w.info
    requires w.info[k].conf.bpfLsm.Some? ==> w.info[k].cgroup.Some?
    ensures var i := w.info[k];
      var st := Saved(k, i.cgroup, i.conf.bpfLsm);
      ArmLsm(w, proc, true, true) == w.(procs := m[proc := Armed(id, run, st)], ready := w.ready + {k},
        guarded := if i.conf.bpfLsm.Some? && i.cgroup.Some?
          then w.guarded[i.cgroup.value := i.conf.bpfLsm.value] else w.guarded)
  {
    Twice(m, proc, Placed(id, run, k), Armed(id, run, Saved(k, w.info[k].cgroup, w.info[k].conf.bpfLsm)));
  }

  lemma CreateSaves(w: World, m: map<nat, Proc>, proc: nat, id: nat, run: bool, st: Saved)
    requires w.procs == m[proc := Armed(id, run, st)]
    ensures SaveState(w, proc) ==
      w.(procs := m[proc := if run then Starting(id, true, st) else Ended], files := w.files[id := st])
  {
    Twice(m, proc, Armed(id, run, st), if run then Starting(id, true, st) else Ended);
  }

  /** No process has to do with this id. */
  predicate Untouched(w: World, id: nat) {
    forall p :: p in w.procs ==> !Prepares(w.procs[p], id) && !Holds(w.procs[p], id)
  }

  predicate Holds(p: Proc, id: nat) {
    match p
    case Starting(i, _, _) => i == id
    case Started(i, _, _) => i == id
    case Waiting(i, _) => i == id
    case Querying(i, _) => i == id
    case Deleting(i, _) => i == id
    case Deleted(i, _, _) => i == id
    case _ => false
  }

  /** A create that is alone with its id leaves a container whose file no other command
      takes over. */
  lemma CreatedIsSettled(w: World, proc: nat, id: nat, conf: Conf, run: bool, pid: int, cgroup: Option<nat>)
    requires proc !in w.procs && id !in w.files && pid !in w.pids && Untouched(w, id)
    requires (cgroup.Some? ==> cgroup.value !in w.cgroups) && (conf.bpfLsm.Some? ==> cgroup.Some?)
    ensures Settled(Run(w, CreateSteps(proc, id, conf, run, pid, cgroup)), id, Saved(w.nextKid, cgroup, conf.bpfLsm))
  {
    hide Run, CreateSteps;
    CreateCommand(w, proc, id, conf, run, pid, cgroup);
  }

  /** But the check for the file comes first and the file last: a create that passed the
      check before another one saved its container goes on to replace the file, and the
      first container stays registered with nothing naming it. */
  lemma LateCreateTakesOver(
    w: World, proc: nat, id: nat, conf: Conf, run: bool, pid: int, cgroup: Option<nat>)
    requires Inv(w) && id in w.files && At(w, proc) == Creating(id, conf, run) && pid !in w.pids
    requires (cgroup.Some? ==> cgroup.value !in w.cgroups) && (conf.bpfLsm.Some? ==> cgroup.Some?)
    ensures var v := Run(w, CreateSteps(proc, id, conf, run, pid, cgroup)[1..]);
      && id in v.files && v.files[id].kid == w.nextKid != w.files[id].kid
      && w.kernel <= v.kernel
  {
    hide Run, Create, Finish, CreateSteps, Inv;
    CreateMoves(w, w.procs, proc, id, conf, run, pid);
    assert w.procs == w.procs[proc := Creating(id, conf, run)];
    FinishMoves(Create(w, proc, pid), w.procs, proc, id, run, w.nextKid, cgroup);
    LateSteps(w, proc, id, conf, run, pid, cgroup);
    SavedIsOld(w, id);
  }

  lemma SavedIsOld(w: World, id: nat)
    requires Inv(w) && id in w.files
    ensures w.files[id].kid < w.nextKid
  {
    assert SavedOk(w, w.files[id]);
  }

  lemma LateSteps(w: World, proc: nat, id: nat, conf: Conf, run: bool, pid: int, cgroup: Option<nat>)
    ensures Run(w, CreateSteps(proc, id, conf, run, pid, cgroup)[1..]) == Finish(Create(w, proc, pid), proc, cgroup)
  {
    hide Run, Create, UidMap, GidMap, Cgroup, ArmLsm, SaveState;
    var steps := CreateSteps(proc, id, conf, run, pid, cgroup);
    RunDrop(w, steps, 1);
    RunFive(Create(w, proc, pid), steps[2..]);
  }

  /** `run` after its create: start, wait, and clean up what was created. */
  lemma RunCommand(w: World, proc: nat, id: nat, st: Saved)
    requires proc in w.procs && w.procs[proc] == Starting(id, true, st) && st.kid in w.kernel && st.kid in w.info
    ensures Run(w, [KernelStart(proc, true), Save(proc), RunDelete(proc), RemoveState(proc)]) ==
      w.(procs := w.procs[proc := Ended], releases := w.releases + [Released(w, st.kid)],
         kernel := w.kernel - {st.kid}, files := w.files - {id})
  {
    hide Run, Released, Next;
    RunFour(w, KernelStart(proc, true), Save(proc), RunDelete(proc), RemoveState(proc));
    var m := w.procs;
    var w1 := w.(procs := m[proc := Started(id, true, st)], releases := w.releases + [Released(w, st.kid)]);
    RunStarts(w, proc, id, st);
    var w2 := w1.(procs := m[proc := Waiting(id, st)], files := w.files[id := st]);
    RunSaves(w1, m, proc, id, st);
    var w3 := w2.(procs := m[proc := Cleaning(id)], kernel := w.kernel - {st.kid});
    RunDeletes(w2, m, proc, id, st);
    RunRemoves(w3, m, proc, id);
    assert w.files[id := st] - {id} == w.files - {id};
  }

  lemma RunSaves(w: World, m: map<nat, Proc>, proc: nat, id: nat, st: Saved)
    requires w.procs == m[proc := Started(id, true, st)]
    ensures Next(w, Save(proc)) == w.(procs := m[proc := Waiting(id, st)], files := w.files[id := st])
  {
    Twice(m, proc, Started(id, true, st), Waiting(id, st));
  }

  lemma RunDeletes(w: World, m: map<nat, Proc>, proc: nat, id: nat, st: Saved)
    requires w.procs == m[proc := Waiting(id, st)]
    ensures Next(w, RunDelete(proc)) == w.(procs := m[proc := Cleaning(id)], kernel := w.kernel - {st.kid})
  {
    Twice(m, proc, Waiting(id, st), Cleaning(id));
  }

  lemma RunRemoves(w: World, m: map<nat, Proc>, proc: nat, id: nat)
    requires w.procs == m[proc := Cleaning(id)]
    ensures Next(w, RemoveState(proc)) == w.(procs := m[proc := Ended], files := w.files - {id})
  {
    Twice(m, proc, Cleaning(id), Ended);
  }

  lemma RunStarts(w: World, proc: nat, id: nat, st: Saved)
    requires proc in w.procs && w.procs[proc] == Starting(id, true, st) && st.kid in w.kernel && st.kid in w.info
    ensures Next(w, KernelStart(proc, true)) ==
      w.(procs := w.procs[proc := Started(id, true, st)], releases := w.releases + [Released(w, st.kid)])
  {
    hide MapsWritten, Guarded;
  }

  /** A create that cannot write a map, or cannot guard, takes its container back and
      saves nothing. */
  lemma FailedCreate(w: World, proc: nat, step: Step)
    requires proc in w.procs && Making(w.procs[proc]) && w.procs[proc].kid in w.info
    requires var (p, i) := (w.procs[proc], w.info[w.procs[proc].kid]);
      || (p.Made? && i.conf.uidMaps != [] && step == WriteUidMap(proc, false))
      || (p.UidMapped? && i.conf.gidMaps != [] && step == WriteGidMap(proc, false))
      || (p.Placed? && i.conf.bpfLsm.Some? && step == Arm(proc, false, false))
    ensures Run(w, [step, AbortDelete(proc)]) ==
      w.(procs := w.procs[proc := Ended], kernel := w.kernel - {w.procs[proc].kid})
  {
    hide Run, Next;
    RunTwo(w, step, AbortDelete(proc));
    var (p, m) := (w.procs[proc], w.procs);
    PreparingFails(w, proc, step);
    Aborts(w.(procs := m[proc := Aborting(p.kid)]), m, proc, p.kid);
  }

  lemma PreparingFails(w: World, proc: nat, step: Step)
    requires proc in w.procs && Making(w.procs[proc]) && w.procs[proc].kid in w.info
    requires var (p, i) := (w.procs[proc], w.info[w.procs[proc].kid]);
      || (p.Made? && i.conf.uidMaps != [] && step == WriteUidMap(proc, false))
      || (p.UidMapped? && i.conf.gidMaps != [] && step == WriteGidMap(proc, false))
      || (p.Placed? && i.conf.bpfLsm.Some? && step == Arm(proc, false, false))
    ensures Next(w, step) == w.(procs := w.procs[proc := Aborting(w.procs[proc].kid)])
  {
  }

  lemma Aborts(w: World, m: map<nat, Proc>, proc: nat, kid: nat)
    requires w.procs == m[proc := Aborting(kid)]
    ensures Next(w, AbortDelete(proc)) == w.(procs := m[proc := Ended], kernel := w.kernel - {kid})
  {
    Twice(m, proc, Aborting(kid), Ended);
  }

  lemma RunTwo(w: World, a: Step, b: Step)
    ensures Run(w, [a, b]) == Next(Next(w, a), b)
  {
    hide Next;
    RunSnoc(w, [], a);
    RunSnoc(w, [a], b);
    assert [] + [a] == [a] && [a] + [b] == [a, b];
    RunNone(w);
  }

  /** Arming that fails leaves the guard it had written, and the container is taken
      back. */
  lemma HalfArmed(w: World, proc: nat, wrote: bool)
    requires proc in w.procs && w.procs[proc].Placed? && w.procs[proc].kid in w.info
    requires w.info[w.procs[proc].kid].conf.bpfLsm.Some?
    ensures var i := w.info[w.procs[proc].kid];
      Next(w, Arm(proc, wrote, false)) == w.(
        procs := w.procs[proc := Aborting(w.procs[proc].kid)],
        guarded := if wrote && i.cgroup.Some? then w.guarded[i.cgroup.value := i.conf.bpfLsm.value] else w.guarded)
  {
  }

  /** Opting in without a cgroup is a failure too. */
  lemma NoCgroupNoGuard(w: World, proc: nat, wrote: bool, ok: bool)
    requires proc in w.procs && w.procs[proc].Placed? && w.procs[proc].kid in w.info
    requires var i := w.info[w.procs[proc].kid]; i.conf.bpfLsm.Some? && i.cgroup.None?
    ensures Next(w, Arm(proc, wrote, ok)) == w.(procs := w.procs[proc := Aborting(w.procs[proc].kid)])
  {
  }

  /** `delete` that can neither open the device nor disarm removes the file and nothing
      else: the container stays registered and guarded. */
  lemma DeleteWithoutDevice(w: World, proc: nat, id: nat)
    requires proc !in w.procs && id in w.files
    ensures Run(w, [BeginDelete(proc, id), KernelDelete(proc, false), Disarm(proc, false), RemoveState(proc)]) ==
      w.(procs := w.procs[proc := Ended], files := w.files - {id})
  {
    hide Run, Delete, DisarmLsm, Remove;
    var st, m := w.files[id], w.procs;
    RunFour(w, BeginDelete(proc, id), KernelDelete(proc, false), Disarm(proc, false), RemoveState(proc));
    var w1 := w.(procs := m[proc := Deleting(id, st)]);
    assert Next(w, BeginDelete(proc, id)) == w1;
    var w2 := w.(procs := m[proc := Deleted(id, st, false)]);
    DeleteStays(w1, m, proc, id, st);
    var w3 := w.(procs := m[proc := Disarmed(id)]);
    DisarmStays(w2, m, proc, id, st);
    RemoveMoves(w3, m, proc, id);
  }

  lemma DeleteStays(w: World, m: map<nat, Proc>, proc: nat, id: nat, st: Saved)
    requires w.procs == m[proc := Deleting(id, st)]
    ensures Delete(w, proc, false) == w.(procs := m[proc := Deleted(id, st, false)])
  {
    Twice(m, proc, Deleting(id, st), Deleted(id, st, false));
  }

  lemma DisarmStays(w: World, m: map<nat, Proc>, proc: nat, id: nat, st: Saved)
    requires w.procs == m[proc := Deleted(id, st, false)]
    ensures DisarmLsm(w, proc, false) == w.(procs := m[proc := Disarmed(id)])
  {
    Twice(m, proc, Deleted(id, st, false), Disarmed(id));
  }

  /** A `start` that cannot open the device, or whose container was killed before, releases
      nothing. */
  lemma StartReleasesNothing(w: World, proc: nat, id: nat, opens: bool)
    requires proc !in w.procs && id in w.files
    ensures Run(w, [BeginStart(proc, id), KernelStart(proc, false)]) == w.(procs := w.procs[proc := Ended])
    ensures Run(w, [TextKill(w.files[id].kid), BeginStart(proc, id), KernelStart(proc, opens)]) ==
      w.(procs := w.procs[proc := Ended], kernel := w.kernel - {w.files[id].kid})
  {
    hide Run, Start;
    var st, m := w.files[id], w.procs;
    RunTwo(w, BeginStart(proc, id), KernelStart(proc, false));
    RunThree(w, TextKill(st.kid), BeginStart(proc, id), KernelStart(proc, opens));
    var w1 := w.(procs := m[proc := Starting(id, false, st)]);
    assert Next(w, BeginStart(proc, id)) == w1;
    StartStays(w1, m, proc, id, st, false);
    var w2 := w.(kernel := w.kernel - {st.kid});
    assert Next(w, TextKill(st.kid)) == w2;
    var w3 := w2.(procs := m[proc := Starting(id, false, st)]);
    assert Next(w2, BeginStart(proc, id)) == w3;
    StartStays(w3, m, proc, id, st, opens);
  }

  lemma StartStays(w: World, m: map<nat, Proc>, proc: nat, id: nat, st: Saved, opens: bool)
    requires w.procs == m[proc := Starting(id, false, st)] && (!opens || st.kid !in w.kernel)
    ensures Start(w, proc, opens) == w.(procs := m[proc := Ended])
  {
    hide MapsWritten, Guarded;
    Twice(m, proc, Starting(id, false, st), Ended);
  }
}
