/** The command-line processes as a step system over the kernel's registry, the state
    files, the id maps and the guarded-cgroup map. Any number of processes run at
    once, and one may stop for good after any step. */
module CliProtocol {
  import opened Bytes
  import opened Outcomes
  import opened AbiFormat

  datatype Mode = Block | KillTask

  /** What a bundle configures, as far as this protocol goes. */
  datatype Conf = Conf(uidMaps: seq<IdMap>, gidMaps: seq<IdMap>, bpfLsm: Option<Mode>)

  /** The persisted state of a container. */
  datatype Saved = Saved(kid: nat, cgroup: Option<nat>, bpfLsm: Option<Mode>)

  /** Where a process is. `run` goes on to start what it created. */
  datatype Proc =
    | Creating(id: nat, conf: Conf, run: bool)
    | Made(id: nat, run: bool, kid: nat)
    | UidMapped(id: nat, run: bool, kid: nat)
    | Mapped(id: nat, run: bool, kid: nat)
    | Placed(id: nat, run: bool, kid: nat)
    | Armed(id: nat, run: bool, st: Saved)
    | Starting(id: nat, run: bool, st: Saved)
    | Started(id: nat, run: bool, st: Saved)
    | Waiting(id: nat, st: Saved)
    | Cleaning(id: nat)
    | Querying(id: nat, st: Saved)
    | Deleting(id: nat, st: Saved)
    | Deleted(id: nat, st: Saved, asked: bool)
    | Disarmed(id: nat)
    | Aborting(kid: nat)
    | Ended

  /** A container the kernel has made. */
  datatype Info = Info(conf: Conf, pid: int, cgroup: Option<nat>)

  /** A START that the kernel accepted: whether the id maps were written, whether the
      cgroup was guarded as asked, and whether a delete that could not open the device
      had disarmed it. */
  datatype Release = Release(kid: nat, mapped: bool, guarded: bool, skipped: bool)

  /** The state, and below the line what is only remembered: the containers made, those
      whose creator got past arming, those disarmed by a delete that could not open the
      device, and the releases. */
  datatype World = World(
    nextKid: nat,
    kernel: set<nat>,
    pids: set<int>,
    cgroups: set<nat>,
    uidMap: map<int, seq<IdMap>>,
    gidMap: map<int, seq<IdMap>>,
    guarded: map<nat, Mode>,
    files: map<nat, Saved>,
    procs: map<nat, Proc>,
    // ----
    info: map<nat, Info>,
    ready: set<nat>,
    skipped: set<nat>,
    releases: seq<Release>)

  const INIT := World(1, {}, {}, {}, map[], map[], map[], map[], map[], map[], {}, {}, [])

  datatype Step =
    | BeginCreate(proc: nat, id: nat, conf: Conf, run: bool)
    | KernelCreate(proc: nat, pid: int)
    | WriteUidMap(proc: nat, ok: bool)
    | WriteGidMap(proc: nat, ok: bool)
    | MakeCgroup(proc: nat, cgroup: Option<nat>)
    | Arm(proc: nat, wrote: bool, ok: bool)
    | Save(proc: nat)
    | BeginStart(proc: nat, id: nat)
    | KernelStart(proc: nat, opens: bool)
    | RunDelete(proc: nat)
    | BeginState(proc: nat, id: nat)
    | BeginDelete(proc: nat, id: nat)
    | KernelDelete(proc: nat, opens: bool)
    | Disarm(proc: nat, ok: bool)
    | RemoveState(proc: nat)
    | AbortDelete(proc: nat)
    | TextKill(kid: nat)

  function At(w: World, proc: nat): Proc {
    if proc in w.procs then w.procs[proc] else Ended
  }

  function Go(w: World, proc: nat, p: Proc): World {
    w.(procs := w.procs[proc := p])
  }

  /** The maps a container configures are the ones written for its init. */
  predicate MapsWritten(w: World, kid: nat)
    requires kid in w.info
  {
    var i := w.info[kid];
    && (i.conf.uidMaps != [] ==> i.pid in w.uidMap && w.uidMap[i.pid] == i.conf.uidMaps)
    && (i.conf.gidMaps != [] ==> i.pid in w.gidMap && w.gidMap[i.pid] == i.conf.gidMaps)
  }

  /** A container that opted in has its cgroup guarded in its mode. */
  predicate Guarded(w: World, kid: nat)
    requires kid in w.info
  {
    var i := w.info[kid];
    i.conf.bpfLsm.Some? ==>
      i.cgroup.Some? && i.cgroup.value in w.guarded
      && w.guarded[i.cgroup.value] == i.conf.bpfLsm.value
  }

  function Begin(w: World, proc: nat, id: nat, conf: Conf, run: bool): World {
    if proc in w.procs || id in w.files then w else Go(w, proc, Creating(id, conf, run))
  }

  /** Ids and pids the kernel hands out are new. */
  function Create(w: World, proc: nat, pid: int): World {
    if !At(w, proc).Creating? || pid in w.pids then w else
    var p := At(w, proc);
    Go(w, proc, Made(p.id, p.run, w.nextKid)).(
      nextKid := w.nextKid + 1, kernel := w.kernel + {w.nextKid}, pids := w.pids + {pid},
      info := w.info[w.nextKid := Info(p.conf, pid, None)])
  }

  /** No maps, no write. */
  function UidMap(w: World, proc: nat, ok: bool): World {
    if !At(w, proc).Made? || At(w, proc).kid !in w.info then w else
    var p := At(w, proc);
    var i := w.info[p.kid];
    w.(procs := w.procs[proc := if i.conf.uidMaps == [] || ok then UidMapped(p.id, p.run, p.kid) else Aborting(p.kid)],
       uidMap := if i.conf.uidMaps != [] && ok then w.uidMap[i.pid := i.conf.uidMaps] else w.uidMap)
  }

  function GidMap(w: World, proc: nat, ok: bool): World {
    if !At(w, proc).UidMapped? || At(w, proc).kid !in w.info then w else
    var p := At(w, proc);
    var i := w.info[p.kid];
    w.(procs := w.procs[proc := if i.conf.gidMaps == [] || ok then Mapped(p.id, p.run, p.kid) else Aborting(p.kid)],
       gidMap := if i.conf.gidMaps != [] && ok then w.gidMap[i.pid := i.conf.gidMaps] else w.gidMap)
  }

  /** No cgroup is configured or its set-up failed, or it is one no other container has. */
  function Cgroup(w: World, proc: nat, cgroup: Option<nat>): World {
    if !At(w, proc).Mapped? || At(w, proc).kid !in w.info || (cgroup.Some? && cgroup.value in w.cgroups) then w else
    var p := At(w, proc);
    Go(w, proc, Placed(p.id, p.run, p.kid)).(
      cgroups := if cgroup.Some? then w.cgroups + {cgroup.value} else w.cgroups,
      info := w.info[p.kid := w.info[p.kid].(cgroup := cgroup)])
  }

  /** Opting in takes a cgroup to guard; arming that fails may have written the guard
      or not. */
  function ArmLsm(w: World, proc: nat, wrote: bool, ok: bool): World {
    if !At(w, proc).Placed? || At(w, proc).kid !in w.info then w else
    var p := At(w, proc);
    var i := w.info[p.kid];
    var armed := i.conf.bpfLsm.None? || (i.cgroup.Some? && ok);
    w.(procs := w.procs[proc := if armed then Armed(p.id, p.run, Saved(p.kid, i.cgroup,
      i.conf.bpfLsm)) else Aborting(p.kid)],
       ready := if armed then w.ready + {p.kid} else w.ready,
       guarded := if i.conf.bpfLsm.Some? && i.cgroup.Some? && (ok || wrote)
         then w.guarded[i.cgroup.value := i.conf.bpfLsm.value] else w.guarded)
  }

  /** `save_state`, after creating, starting and querying. */
  function SaveState(w: World, proc: nat): World {
    var p := At(w, proc);
    if !p.Armed? && !p.Started? && !p.Querying? then w else
    w.(procs := w.procs[proc := AfterSave(p)], files := w.files[p.id := p.st])
  }

  function AfterSave(p: Proc): Proc {
    match p
    case Armed(id, true, st) => Starting(id, true, st)
    case Started(id, true, st) => Waiting(id, st)
    case _ => Ended
  }

  function Start(w: World, proc: nat, opens: bool): World {
    if !At(w, proc).Starting? then w else
    var p := At(w, proc);
    if !opens || p.st.kid !in w.kernel || p.st.kid !in w.info then Go(w, proc, Ended) else
    Go(w, proc, Started(p.id, p.run, p.st)).(
      releases := w.releases + [Release(p.st.kid, MapsWritten(w, p.st.kid), Guarded(w, p.st.kid),
        p.st.kid in w.skipped)])
  }

  /** A command that loads the state of an existing container. */
  function Load(w: World, proc: nat, id: nat, next: Saved -> Proc): World {
    if proc in w.procs || id !in w.files then w else Go(w, proc, next(w.files[id]))
  }

  function Delete(w: World, proc: nat, opens: bool): World {
    if !At(w, proc).Deleting? then w else
    var p := At(w, proc);
    Go(w, proc, Deleted(p.id, p.st, opens)).(kernel := if opens then w.kernel - {p.st.kid} else w.kernel)
  }

  function DisarmLsm(w: World, proc: nat, ok: bool): World {
    if !At(w, proc).Deleted? then w else
    var p := At(w, proc);
    if !ok || p.st.bpfLsm.None? || p.st.cgroup.None? then Go(w, proc, Disarmed(p.id)) else
    Go(w, proc, Disarmed(p.id)).(
      guarded := w.guarded - {p.st.cgroup.value},
      skipped := if p.asked then w.skipped else w.skipped + {p.st.kid})
  }

  function Remove(w: World, proc: nat): World {
    match At(w, proc)
    case Disarmed(id) => Go(w, proc, Ended).(files := w.files - {id})
    case Cleaning(id) => Go(w, proc, Ended).(files := w.files - {id})
    case _ => w
  }

  function Next(w: World, step: Step): World {
    match step
    case BeginCreate(proc, id, conf, run) => Begin(w, proc, id, conf, run)
    case KernelCreate(proc, pid) => Create(w, proc, pid)
    case WriteUidMap(proc, ok) => UidMap(w, proc, ok)
    case WriteGidMap(proc, ok) => GidMap(w, proc, ok)
    case MakeCgroup(proc, cgroup) => Cgroup(w, proc, cgroup)
    case Arm(proc, wrote, ok) => ArmLsm(w, proc, wrote, ok)
    case Save(proc) => SaveState(w, proc)
    case BeginStart(proc, id) => Load(w, proc, id, (st: Saved) => Starting(id, false, st))
    case KernelStart(proc, opens) => Start(w, proc, opens)
    case RunDelete(proc) =>
      if !At(w, proc).Waiting? then w
      else Go(w, proc, Cleaning(At(w, proc).id)).(kernel := w.kernel - {At(w, proc).st.kid})
    case BeginState(proc, id) => Load(w, proc, id, (st: Saved) => Querying(id, st))
    case BeginDelete(proc, id) => Load(w, proc, id, (st: Saved) => Deleting(id, st))
    case KernelDelete(proc, opens) => Delete(w, proc, opens)
    case Disarm(proc, ok) => DisarmLsm(w, proc, ok)
    case RemoveState(proc) => Remove(w, proc)
    case AbortDelete(proc) =>
      if !At(w, proc).Aborting? then w else Go(w, proc, Ended).(kernel := w.kernel - {At(w, proc).kid})
    case TextKill(kid) => w.(kernel := w.kernel - {kid})
  }

  function Run(w: World, steps: seq<Step>): World
    decreases |steps|
  {
    if steps == [] then w else Run(Next(w, steps[0]), steps[1..])
  }

  // ------------------------------------------------------------- invariant

  ghost predicate Kids(w: World) {
    && (forall k :: k in w.info ==> k < w.nextKid && w.info[k].pid in w.pids)
    && w.kernel <= w.info.Keys && w.skipped <= w.ready <= w.info.Keys
    && (forall k, l :: k in w.info && l in w.info && k != l ==> w.info[k].pid != w.info[l].pid)
    && (forall k :: k in w.info && w.info[k].cgroup.Some? ==> w.info[k].cgroup.value in w.cgroups)
    && (forall k, l :: k in w.info && l in w.info && k != l && w.info[k].cgroup.Some? ==>
          w.info[k].cgroup != w.info[l].cgroup)
  }

  /** Still being prepared by its creator. */
  predicate Making(p: Proc) {
    p.Made? || p.UidMapped? || p.Mapped? || p.Placed?
  }

  predicate UidWritten(w: World, kid: nat)
    requires kid in w.info
  {
    var i := w.info[kid];
    i.conf.uidMaps != [] ==> i.pid in w.uidMap && w.uidMap[i.pid] == i.conf.uidMaps
  }

  /** What is saved is what was made, once it was prepared. */
  ghost predicate SavedOk(w: World, st: Saved) {
    st.kid in w.ready && st.kid in w.info && st.cgroup == w.info[st.kid].cgroup
      && st.bpfLsm == w.info[st.kid].conf.bpfLsm
  }

  /** Holding a container's saved state. */
  predicate Loaded(p: Proc) {
    p.Armed? || p.Starting? || p.Started? || p.Waiting? || p.Querying? || p.Deleting? || p.Deleted?
  }

  ghost predicate ProcOk(w: World, p: Proc) {
    && (Making(p) ==> p.kid in w.info && p.kid !in w.ready)
    && (p.UidMapped? ==> UidWritten(w, p.kid))
    && (p.Mapped? || p.Placed? ==> MapsWritten(w, p.kid))
    && (Loaded(p) ==> SavedOk(w, p.st))
    && (p.Deleted? && p.asked ==> p.st.kid !in w.kernel)
  }

  ghost predicate Procs(w: World) {
    && (forall p :: p in w.procs ==> ProcOk(w, w.procs[p]))
    && (forall p, q :: p in w.procs && q in w.procs && p != q && Making(w.procs[p]) && Making(w.procs[q]) ==>
          w.procs[p].kid != w.procs[q].kid)
  }

  ghost predicate Files(w: World) {
    forall id :: id in w.files ==> SavedOk(w, w.files[id])
  }

  /** A prepared container has its maps and, as long as it is registered, its guard,
      unless it was disarmed past the kernel. */
  ghost predicate Prepared(w: World, k: nat)
    requires k in w.info
  {
    && MapsWritten(w, k)
    && (w.info[k].conf.bpfLsm.Some? ==> w.info[k].cgroup.Some?)
    && (k in w.kernel && k !in w.skipped ==> Guarded(w, k))
    && (k in w.skipped ==>
          w.info[k].conf.bpfLsm.Some? && w.info[k].cgroup.Some?
          && w.info[k].cgroup.value !in w.guarded)
  }

  ghost predicate Ready(w: World) {
    forall k :: k in w.ready && k in w.info ==> Prepared(w, k)
  }

  ghost predicate Log(w: World) {
    forall i :: 0 <= i < |w.releases| ==>
      w.releases[i].mapped && (w.releases[i].guarded <==> !w.releases[i].skipped)
  }

  ghost predicate Inv(w: World) {
    Kids(w) && Procs(w) && Files(w) && Ready(w) && Log(w)
  }

  lemma CreateKids(w: World, proc: nat, pid: int)
    requires Kids(w) && Procs(w)
    ensures Kids(Create(w, proc, pid))
  {
  }

  lemma CreateProcs(w: World, proc: nat, pid: int)
    requires Kids(w) && Procs(w)
    ensures Procs(Create(w, proc, pid))
  {
  }

  lemma CreateReady(w: World, proc: nat, pid: int)
    requires Kids(w) && Procs(w) && Files(w) && Ready(w)
    ensures Files(Create(w, proc, pid)) && Ready(Create(w, proc, pid))
  {
  }

  lemma UidMapKids(w: World, proc: nat, ok: bool)
    requires Kids(w) && Procs(w)
    ensures Kids(UidMap(w, proc, ok))
  {
  }

  lemma UidMapProcs(w: World, proc: nat, ok: bool)
    requires Kids(w) && Procs(w)
    ensures Procs(UidMap(w, proc, ok))
  {
  }

  lemma UidMapReady(w: World, proc: nat, ok: bool)
    requires Kids(w) && Procs(w) && Files(w) && Ready(w)
    ensures Files(UidMap(w, proc, ok)) && Ready(UidMap(w, proc, ok))
  {
  }

  lemma GidMapKids(w: World, proc: nat, ok: bool)
    requires Kids(w) && Procs(w)
    ensures Kids(GidMap(w, proc, ok))
  {
  }

  lemma GidMapProcs(w: World, proc: nat, ok: bool)
    requires Kids(w) && Procs(w)
    ensures Procs(GidMap(w, proc, ok))
  {
  }

  lemma GidMapReady(w: World, proc: nat, ok: bool)
    requires Kids(w) && Procs(w) && Files(w) && Ready(w)
    ensures Files(GidMap(w, proc, ok)) && Ready(GidMap(w, proc, ok))
  {
  }

  lemma CgroupKids(w: World, proc: nat, cgroup: Option<nat>)
    requires Kids(w) && Procs(w)
    ensures Kids(Cgroup(w, proc, cgroup))
  {
  }

  lemma CgroupProcs(w: World, proc: nat, cgroup: Option<nat>)
    requires Kids(w) && Procs(w)
    ensures Procs(Cgroup(w, proc, cgroup))
  {
  }

  lemma CgroupReady(w: World, proc: nat, cgroup: Option<nat>)
    requires Kids(w) && Procs(w) && Files(w) && Ready(w)
    ensures Files(Cgroup(w, proc, cgroup)) && Ready(Cgroup(w, proc, cgroup))
  {
  }

  lemma ArmLsmKids(w: World, proc: nat, wrote: bool, ok: bool)
    requires Kids(w) && Procs(w)
    ensures Kids(ArmLsm(w, proc, wrote, ok))
  {
  }

  lemma ArmLsmProcs(w: World, proc: nat, wrote: bool, ok: bool)
    requires Kids(w) && Procs(w)
    ensures Procs(ArmLsm(w, proc, wrote, ok))
  {
  }

  lemma ArmLsmReady(w: World, proc: nat, wrote: bool, ok: bool)
    requires Kids(w) && Procs(w) && Files(w) && Ready(w)
    ensures Files(ArmLsm(w, proc, wrote, ok)) && Ready(ArmLsm(w, proc, wrote, ok))
  {
  }

  lemma DisarmLsmKids(w: World, proc: nat, ok: bool)
    requires Kids(w) && Procs(w)
    ensures Kids(DisarmLsm(w, proc, ok))
  {
  }

  lemma DisarmLsmProcs(w: World, proc: nat, ok: bool)
    requires Kids(w) && Procs(w)
    ensures Procs(DisarmLsm(w, proc, ok))
  {
  }

  lemma DisarmLsmReady(w: World, proc: nat, ok: bool)
    requires Kids(w) && Procs(w) && Files(w) && Ready(w)
    ensures Files(DisarmLsm(w, proc, ok)) && Ready(DisarmLsm(w, proc, ok))
  {
  }

  /** A process's move that changes no more than the registry, the files and the log. */
  predicate Plain(w: World, v: World) {
    && v == w.(kernel := v.kernel, files := v.files, procs := v.procs, releases := v.releases)
    && v.kernel <= w.kernel
  }

  lemma PlainKeeps(w: World, v: World, proc: nat, p: Proc)
    requires Kids(w) && Procs(w) && Files(w) && Ready(w) && Plain(w, v) && Log(v)
    requires v.procs == w.procs[proc := p] && ProcOk(v, p) && !Making(p)
    requires forall id :: id in v.files ==> SavedOk(w, v.files[id])
    ensures Inv(v)
  {
  }

  predicate PreparesOrDisarms(step: Step) {
    step.KernelCreate? || step.WriteUidMap? || step.WriteGidMap? || step.MakeCgroup? || step.Arm? || step.Disarm?
  }

  predicate Loads(step: Step) {
    step.BeginCreate? || step.BeginStart? || step.BeginState? || step.BeginDelete?
  }

  ghost predicate PlainTo(w: World, v: World, proc: nat, p: Proc) {
    && Plain(w, v) && v.procs == w.procs[proc := p] && ProcOk(v, p) && !Making(p)
    && (forall id :: id in v.files ==> SavedOk(w, v.files[id]))
  }

  lemma LoadIsPlain(w: World, step: Step)
    requires Files(w) && Loads(step) && Next(w, step) != w
    ensures PlainTo(w, Next(w, step), step.proc, At(Next(w, step), step.proc))
  {
    hide MapsWritten, UidWritten;
  }

  lemma SaveIsPlain(w: World, proc: nat)
    requires Procs(w) && Files(w) && SaveState(w, proc) != w
    ensures PlainTo(w, SaveState(w, proc), proc, At(SaveState(w, proc), proc))
  {
    hide MapsWritten, UidWritten;
  }

  lemma StartIsPlain(w: World, proc: nat, opens: bool)
    requires Procs(w) && Files(w) && Start(w, proc, opens) != w
    ensures PlainTo(w, Start(w, proc, opens), proc, At(Start(w, proc, opens), proc))
  {
    hide MapsWritten, UidWritten, Guarded;
  }

  lemma OtherIsPlain(w: World, step: Step)
    requires Procs(w) && Files(w) && Next(w, step) != w
    requires step.RunDelete? || step.KernelDelete? || step.RemoveState? || step.AbortDelete?
    ensures PlainTo(w, Next(w, step), step.proc, At(Next(w, step), step.proc))
  {
    hide MapsWritten, UidWritten;
  }

  lemma TextKillKeeps(w: World, kid: nat)
    requires Inv(w)
    ensures Inv(Next(w, TextKill(kid)))
  {
  }

  /** What the kernel releases was prepared. */
  lemma StartLogs(w: World, proc: nat, opens: bool)
    requires Kids(w) && Procs(w) && Ready(w) && Log(w)
    ensures Log(Start(w, proc, opens))
  {
    if Start(w, proc, opens) != w && At(w, proc).Starting? {
      var st := At(w, proc).st;
      assert SavedOk(w, st);
      if st.kid in w.kernel {
        assert Prepared(w, st.kid);
      }
    }
  }

  lemma OnlyStartLogs(w: World, step: Step)
    requires !step.KernelStart?
    ensures Next(w, step).releases == w.releases
  {
    hide At;
    if !PreparesOrDisarms(step) {
      OnlyStartLogsPlain(w, step);
    }
  }

  lemma OnlyStartLogsPlain(w: World, step: Step)
    requires !step.KernelStart? && !PreparesOrDisarms(step)
    ensures Next(w, step).releases == w.releases
  {
    hide At, AfterSave;
  }

  lemma PreparingKeeps(w: World, step: Step)
    requires Inv(w) && PreparesOrDisarms(step)
    ensures Inv(Next(w, step))
  {
    hide Kids, Procs, Files, Ready, Create, UidMap, GidMap, Cgroup, ArmLsm, DisarmLsm;
    OnlyStartLogs(w, step);
    match step
    case KernelCreate(p, pid) => CreateKids(w, p, pid); CreateProcs(w, p, pid); CreateReady(w, p, pid);
    case WriteUidMap(p, ok) => UidMapKids(w, p, ok); UidMapProcs(w, p, ok); UidMapReady(w, p, ok);
    case WriteGidMap(p, ok) => GidMapKids(w, p, ok); GidMapProcs(w, p, ok); GidMapReady(w, p, ok);
    case MakeCgroup(p, c) => CgroupKids(w, p, c); CgroupProcs(w, p, c); CgroupReady(w, p, c);
    case Arm(p, wrote, ok) => ArmLsmKids(w, p, wrote, ok); ArmLsmProcs(w, p, wrote, ok); ArmLsmReady(w, p, wrote, ok);
    case Disarm(p, ok) => DisarmLsmKids(w, p, ok); DisarmLsmProcs(w, p, ok); DisarmLsmReady(w, p, ok);
  }

  lemma StepKeeps(w: World, step: Step)
    requires Inv(w)
    ensures Inv(Next(w, step))
  {
    hide Kids, Procs, Files, Ready, Log;
    var v := Next(w, step);
    if PreparesOrDisarms(step) {
      PreparingKeeps(w, step);
    } else if step.TextKill? {
      TextKillKeeps(w, step.kid);
    } else if v != w {
      StepIsPlain(w, step);
      StepLogs(w, step);
      PlainKeeps(w, v, step.proc, At(v, step.proc));
    }
  }

  lemma StepIsPlain(w: World, step: Step)
    requires Procs(w) && Files(w) && Next(w, step) != w && !PreparesOrDisarms(step) && !step.TextKill?
    ensures PlainTo(w, Next(w, step), step.proc, At(Next(w, step), step.proc))
  {
    hide Procs, Files, PlainTo, SaveState, Start;
    if Loads(step) {
      LoadIsPlain(w, step);
    } else if step.Save? {
      SaveIsPlain(w, step.proc);
    } else if step.KernelStart? {
      StartIsPlain(w, step.proc, step.opens);
    } else {
      OtherIsPlain(w, step);
    }
  }

  lemma StepLogs(w: World, step: Step)
    requires Kids(w) && Procs(w) && Ready(w) && Log(w)
    ensures Log(Next(w, step))
  {
    hide Kids, Procs, Ready, Start;
    if step.KernelStart? {
      StartLogs(w, step.proc, step.opens);
    } else {
      OnlyStartLogs(w, step);
    }
  }

  // ---------------------------------------------------------- over all runs

  lemma {:induction false} RunKeeps(w: World, steps: seq<Step>)
    requires Inv(w)
    ensures Inv(Run(w, steps))
    decreases |steps|
  {
    hide Inv, Next;
    if steps != [] {
      StepKeeps(w, steps[0]);
      RunKeeps(Next(w, steps[0]), steps[1..]);
    }
  }

  lemma EmptyInv(w: World)
    requires w.info == map[] && w.kernel == {} && w.ready == {} && w.skipped == {}
    requires w.procs == map[] && w.files == map[] && w.releases == []
    ensures Inv(w)
  {
  }

  /** Whatever processes run, and wherever they stop: every init the kernel releases has
      its configured id maps written; and its cgroup is guarded as it asked if and only
      if no delete that could not open the device had disarmed it. */
  lemma ReleasedIsPrepared(steps: seq<Step>, i: nat)
    requires i < |Run(INIT, steps).releases|
    ensures var r := Run(INIT, steps).releases[i];
      r.mapped && (r.guarded <==> !r.skipped)
  {
    hide Run, Kids, Procs, Files, Ready;
    EmptyInv(INIT);
    RunKeeps(INIT, steps);
  }

  ghost predicate NoneSkipped(w: World) {
    && w.skipped == {}
    && (forall p :: p in w.procs && w.procs[p].Deleted? ==> w.procs[p].asked)
    && (forall i :: 0 <= i < |w.releases| ==> !w.releases[i].skipped)
  }

  predicate Opens(step: Step) {
    step.KernelDelete? ==> step.opens
  }

  lemma NoneSkippedStep(w: World, step: Step)
    requires NoneSkipped(w) && Opens(step)
    ensures NoneSkipped(Next(w, step))
  {
    hide MapsWritten, Guarded;
  }

  lemma {:induction false} NoneSkippedRun(w: World, steps: seq<Step>)
    requires NoneSkipped(w) && forall k :: 0 <= k < |steps| ==> Opens(steps[k])
    ensures NoneSkipped(Run(w, steps))
    decreases |steps|
  {
    hide NoneSkipped, Next, Opens;
    if steps != [] {
      NoneSkippedStep(w, steps[0]);
      NoneSkippedRun(Next(w, steps[0]), steps[1..]);
    }
  }

  /** As long as every delete can open the device, every release is prepared. */
  lemma AllPrepared(steps: seq<Step>, i: nat)
    requires forall k :: 0 <= k < |steps| ==> Opens(steps[k])
    requires i < |Run(INIT, steps).releases|
    ensures Run(INIT, steps).releases[i].mapped && Run(INIT, steps).releases[i].guarded
  {
    hide Run, Opens;
    assert NoneSkipped(INIT);
    NoneSkippedRun(INIT, steps);
    ReleasedIsPrepared(steps, i);
  }

  /** Two processes on one saved container: a start that has loaded its state, and a
      delete that cannot open the device. */
  function Race(id: nat, start: nat, delete: nat): seq<Step> {
    [BeginStart(start, id), BeginDelete(delete, id), KernelDelete(delete, false), Disarm(delete, true),
     KernelStart(start, true)]
  }

  lemma RaceRuns(w: World, id: nat, start: nat, delete: nat)
    ensures var v := Load(w, start, id, (st: Saved) => Starting(id, false, st));
      var u := Load(v, delete, id, (st: Saved) => Deleting(id, st));
      Run(w, Race(id, start, delete)) == Start(DisarmLsm(Delete(u, delete, false), delete, true), start, true)
  {
    hide Run, Load, Delete, DisarmLsm, Start, At;
    RunFive(w, Race(id, start, delete));
  }

  lemma RunFive(w: World, steps: seq<Step>)
    requires |steps| == 5
    ensures Run(w, steps) == Next(Next(Next(Next(Next(w, steps[0]), steps[1]), steps[2]), steps[3]), steps[4])
  {
    hide Run, Next;
    var w2 := Next(Next(w, steps[0]), steps[1]);
    var w4 := Next(Next(w2, steps[2]), steps[3]);
    RunDrop(w, steps, 0);
    RunDrop(Next(w, steps[0]), steps, 1);
    RunDrop(w2, steps, 2);
    RunDrop(Next(w2, steps[2]), steps, 3);
    RunDrop(w4, steps, 4);
    RunNone(Next(w4, steps[4]));
    assert steps[0..] == steps && steps[5..] == [];
  }

  /** Wherever a container that opted in is saved and registered, that race releases its
      init with its cgroup unguarded. */
  lemma RaceReleasesUnguarded(w: World, id: nat, start: nat, delete: nat)
    requires Inv(w) && id in w.files && w.files[id].kid in w.kernel && w.files[id].bpfLsm.Some?
    requires start !in w.procs && delete !in w.procs && start != delete
    ensures var v := Run(w, Race(id, start, delete));
      |v.releases| == |w.releases| + 1
      && v.releases[|w.releases|].kid == w.files[id].kid && !v.releases[|w.releases|].guarded
  {
    hide Run, Inv, Race, MapsWritten, Load, Delete, DisarmLsm;
    RaceRuns(w, id, start, delete);
    SavedIsMade(w, id);
    RaceDisarms(w, id, start, delete);
  }

  lemma SavedIsMade(w: World, id: nat)
    requires Inv(w) && id in w.files
    ensures var st := w.files[id];
      st.kid in w.info && st.cgroup == w.info[st.kid].cgroup && st.bpfLsm == w.info[st.kid].conf.bpfLsm
      && (st.bpfLsm.Some? ==> st.cgroup.Some?)
  {
    assert SavedOk(w, w.files[id]);
  }

  lemma RaceDisarms(w: World, id: nat, start: nat, delete: nat)
    requires id in w.files && w.files[id].bpfLsm.Some? && w.files[id].cgroup.Some?
    requires start !in w.procs && delete !in w.procs && start != delete
    ensures var st := w.files[id];
      var v := Load(w, start, id, (st: Saved) => Starting(id, false, st));
      var u := Load(v, delete, id, (st: Saved) => Deleting(id, st));
      var x := DisarmLsm(Delete(u, delete, false), delete, true);
      x.kernel == w.kernel && x.info == w.info && x.releases == w.releases
      && x.guarded == w.guarded - {st.cgroup.value} && At(x, start) == Starting(id, false, st)
  {
  }

  /** Such a container can be made. */
  lemma OptedInExists(conf: Conf) returns (steps: seq<Step>)
    requires conf.uidMaps == conf.gidMaps == [] && conf.bpfLsm.Some?
    ensures var w := Run(INIT, steps);
      7 in w.files && w.files[7].kid in w.kernel && w.files[7].bpfLsm.Some? && w.procs.Keys == {0}
  {
    steps := [BeginCreate(0, 7, conf, false), KernelCreate(0, 100), WriteUidMap(0, true), WriteGidMap(0, true),
              MakeCgroup(0, Some(5)), Arm(0, true, true), Save(0)];
    hide Run, Begin, Create, UidMap, GidMap, Cgroup;
    CreationRuns(steps, conf);
    PlacedExists(conf);
  }

  lemma PlacedExists(conf: Conf)
    requires conf.uidMaps == conf.gidMaps == [] && conf.bpfLsm.Some?
    ensures var w := GidMap(UidMap(Create(Begin(INIT, 0, 7, conf, false), 0, 100), 0, true), 0, true);
      var v := Cgroup(w, 0, Some(5));
      v.procs == map[0 := Placed(7, false, 1)] && v.info == map[1 := Info(conf, 100, Some(5))] && v.kernel == {1}
  {
    var w1 := Begin(INIT, 0, 7, conf, false);
    var w2 := Create(w1, 0, 100);
    assert At(w2, 0) == Made(7, false, 1) && w2.info == map[1 := Info(conf, 100, None)] && w2.cgroups == {};
  }

  lemma CreationRuns(steps: seq<Step>, conf: Conf)
    requires steps == [BeginCreate(0, 7, conf, false), KernelCreate(0, 100), WriteUidMap(0, true), WriteGidMap(0, true),
              MakeCgroup(0, Some(5)), Arm(0, true, true), Save(0)]
    ensures var w := UidMap(Create(Begin(INIT, 0, 7, conf, false), 0, 100), 0, true);
      Run(INIT, steps) == SaveState(ArmLsm(Cgroup(GidMap(w, 0, true), 0, Some(5)), 0, true, true), 0)
  {
    hide Run, Begin, Create, UidMap, GidMap, Cgroup, ArmLsm, SaveState;
    var w1 := Begin(INIT, 0, 7, conf, false);
    var w2 := Create(w1, 0, 100);
    var w3 := UidMap(w2, 0, true);
    var w4 := GidMap(w3, 0, true);
    var w5 := Cgroup(w4, 0, Some(5));
    RunDrop(INIT, steps, 0);
    RunDrop(w1, steps, 1);
    RunDrop(w2, steps, 2);
    RunDrop(w3, steps, 3);
    RunDrop(w4, steps, 4);
    RunDrop(w5, steps, 5);
    RunDrop(ArmLsm(w5, 0, true, true), steps, 6);
    assert steps[0..] == steps && steps[7..] == [];
    RunNone(SaveState(ArmLsm(w5, 0, true, true), 0));
  }

  lemma RunDrop(w: World, steps: seq<Step>, k: nat)
    requires k < |steps|
    ensures Run(w, steps[k..]) == Run(Next(w, steps[k]), steps[k + 1..])
  {
  }

  lemma RunNone(w: World)
    ensures Run(w, []) == w
  {
  }
}
