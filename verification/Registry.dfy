/** The registry of containers and their gates, and the operations the ioctl plane
    performs on them under the registry lock. */
module Registry {
  import opened Bytes
  import opened Outcomes
  import opened WatchTable

  /** What a paused container's init polls. */
  datatype Action = Wait | Start | Doom

  /** `ctrl` names the control block shared with the init; one-shot containers have
      none. */
  datatype Container = Container(id: nat, pid: int, ctrl: Option<nat>, started: bool, exitStatus: Option<i32>)

  datatype State = Created | Running | Stopped

  function Rank(s: State): nat {
    match s
    case Created => 0
    case Running => 1
    case Stopped => 2
  }

  /** What the task table says about a pid: alive, exited but not reaped, or gone. */
  datatype Probe = Alive | Exited(word: i32) | Gone

  /** The registry by container id, and the gates by control block. */
  datatype Reg = Reg(containers: map<nat, Container>, gates: map<nat, Action>)

  function Shut(gates: map<nat, Action>, ctrl: Option<nat>, a: Action): map<nat, Action> {
    if ctrl.Some? then gates[ctrl.value := a] else gates
  }

  function StartIn(r: Reg, id: nat): Result<Reg, Errno> {
    if id !in r.containers then Err(ENOENT) else
      var c := r.containers[id];
      Ok(Reg(r.containers[id := c.(started := true)], Shut(r.gates, c.ctrl, Start)))
  }

  /** The lifecycle state a STATE query reports. */
  function StateOf(c: Container, probe: Probe): State {
    if !c.started then Created else if probe.Alive? then Running else Stopped
  }

  /** The first observation of an exit is cached: the status recorded at `do_exit`
      if there is one, else the word of a zombie. */
  function Observed(c: Container, probe: Probe, code: Option<i32>): Container {
    if c.started && !probe.Alive? && c.exitStatus == None
    then c.(exitStatus := if code.Some? then code else if probe.Exited? then Some(probe.word) else None)
    else c
  }

  function Word(c: Container): i32 {
    if c.exitStatus.Some? then c.exitStatus.value else 0
  }

  function StateIn(r: Reg, id: nat, probe: Probe, code: Option<i32>): Result<(Reg, State, int, i32), Errno> {
    if id !in r.containers then Err(ENOENT) else
      var c := r.containers[id];
      var c' := Observed(c, probe, code);
      Ok((r.(containers := r.containers[id := c']), StateOf(c, probe), c.pid, Word(c')))
  }

  /** What a query answers for a container that was started and has ended: what an earlier
      query saw, else what was recorded at its exit, else what its zombie says. */
  lemma AnsweredWord(r: Reg, id: nat, probe: Probe, code: Option<i32>)
    requires id in r.containers && r.containers[id].started && !probe.Alive?
    ensures var c := r.containers[id];
      var (after, state, pid, word) := StateIn(r, id, probe, code).value;
      && state == Stopped && pid == c.pid
      && (c.exitStatus.Some? ==> word == c.exitStatus.value && after == r)
      && (c.exitStatus.None? && code.Some? ==> word == code.value && after.containers[id].exitStatus == code)
      && (c.exitStatus.None? && code.None? && probe.Exited? ==>
            word == probe.word && after.containers[id].exitStatus == Some(probe.word))
      && (c.exitStatus.None? && code.None? && probe.Gone? ==> word == 0 && after == r)
  {
    assert r.containers[id := r.containers[id]] == r.containers;
  }

  /** The registry after a deletion; the pid is unwatched besides. */
  function DeleteIn(r: Reg, id: nat): Result<Reg, Errno> {
    if id !in r.containers then Err(ENOENT) else
      var c := r.containers[id];
      Ok(Reg(r.containers - {id}, if c.started then r.gates else Shut(r.gates, c.ctrl, Doom)))
  }

  /** The text plane's `kill`: every entry of this pid is dropped. */
  function DropPid(r: Reg, pid: int): Reg {
    r.(containers := map id | id in r.containers && r.containers[id].pid != pid :: r.containers[id])
  }

  function PushIn(r: Reg, c: Container): Reg {
    r.(containers := r.containers[c.id := c])
  }

  // ------------------------------------------------------------ in place

  class Containers {
    var entries: seq<Container>
    var gates: map<nat, Action>

    /** Ids are unique. */
    ghost predicate Valid()
      reads this
    {
      forall i, j :: 0 <= i < j < |entries| ==> entries[i].id != entries[j].id
    }

    ghost function Abs(): Reg
      reads this
    {
      Reg(ById(entries), gates)
    }

    constructor ()
      ensures Valid() && Abs() == Reg(map[], map[])
    {
      entries := [];
      gates := map[];
    }

    /** The index of the entry with this id, if any. */
    method Position(id: nat) returns (k: int)
      requires Valid()
      ensures -1 <= k < |entries|
      ensures if id in ById(entries) then k >= 0 && entries[k].id == id && ById(entries)[id] == entries[k] else k == -1
    {
      for i := 0 to |entries|
        invariant forall j :: 0 <= j < i ==> entries[j].id != id
      {
        if entries[i].id == id {
          ByIdAt(entries, i);
          return i;
        }
      }
      if id in ById(entries) {
        var j := ByIdFrom(entries, id);
        assert false;
      }
      k := -1;
    }

    method Push(c: Container)
      requires Valid() && c.id !in ById(entries)
      modifies this`entries
      ensures Valid() && Abs() == PushIn(old(Abs()), c)
    {
      forall i | 0 <= i < |entries|
        ensures entries[i].id != c.id
      {
        ByIdAt(entries, i);
      }
      ByIdSnoc(entries, c);
      entries := entries + [c];
    }

    method StartContainer(id: nat) returns (r: Result<(), Errno>)
      requires Valid()
      modifies this
      ensures Valid()
      ensures if StartIn(old(Abs()), id).Ok? then r.Ok? && Abs() == StartIn(old(Abs()), id).value
        else r == Err(ENOENT) && Abs() == old(Abs())
    {
      var k := Position(id);
      if k < 0 {
        return Err(ENOENT);
      }
      var c := entries[k];
      if c.ctrl.Some? {
        gates := gates[c.ctrl.value := Start];
      }
      ByIdUpdate(entries, k, c.(started := true));
      entries := entries[k := c.(started := true)];
      r := Ok(());
    }

    /** STATE, given what the task table answers for the pid at this moment. */
    method ContainerState(id: nat, table: Table, probe: Probe) returns (r: Result<(State, int, i32), Errno>)
      requires Valid() && table.Valid()
      modifies this`entries
      ensures Valid() && table.Valid() && table.slots[..] == old(table.slots[..])
      ensures id !in old(Abs()).containers ==> r == Err(ENOENT) && Abs() == old(Abs())
      ensures id in old(Abs()).containers ==>
        var code := CodeIn(table.slots[..], old(Abs()).containers[id].pid);
        r.Ok? && Ok((Abs(), r.value.0, r.value.1, r.value.2)) == StateIn(old(Abs()), id, probe, code)
    {
      var k := Position(id);
      if k < 0 {
        return Err(ENOENT);
      }
      var c := entries[k];
      var state := Created;
      if c.started {
        if !probe.Alive? {
          if c.exitStatus == None {
            var code := table.GetExitCode(c.pid);
            c := c.(exitStatus := if code.Some? then code else if probe.Exited? then Some(probe.word) else None);
          }
          state := Stopped;
        } else {
          state := Running;
        }
      }
      ByIdUpdate(entries, k, c);
      entries := entries[k := c];
      r := Ok((state, c.pid, Word(c)));
    }

    method DeleteContainer(id: nat, table: Table) returns (r: Result<(), Errno>)
      requires Valid() && table.Valid()
      modifies this, table`numWatched, table.slots
      ensures Valid() && table.Valid()
      ensures id !in old(Abs()).containers ==>
        r == Err(ENOENT) && Abs() == old(Abs()) && table.slots[..] == old(table.slots[..])
      ensures id in old(Abs()).containers ==>
        r.Ok? && Ok(Abs()) == DeleteIn(old(Abs()), id)
        && table.slots[..] == UnwatchIn(old(table.slots[..]), old(Abs()).containers[id].pid)
    {
      var k := Position(id);
      if k < 0 {
        return Err(ENOENT);
      }
      var c := entries[k];
      if !c.started && c.ctrl.Some? {
        gates := gates[c.ctrl.value := Doom];
      }
      table.UnwatchPid(c.pid);
      ByIdRemove(entries, k);
      entries := entries[..k] + entries[k + 1..];
      r := Ok(());
    }

    /** `retain(|c| c.pid != pid)`. */
    method Retain(pid: int)
      requires Valid()
      modifies this`entries
      ensures Valid() && Abs() == DropPid(old(Abs()), pid)
    {
      var kept: seq<Container> := [];
      ghost var all := entries;
      for i := 0 to |entries|
        invariant entries == all
        invariant forall j, k :: 0 <= j < k < |kept| ==> kept[j].id != kept[k].id
        invariant forall c :: c in kept <==> c in all[..i] && c.pid != pid
      {
        assert all[..i + 1] == all[..i] + [all[i]];
        if entries[i].pid != pid {
          forall j | 0 <= j < |kept|
            ensures kept[j].id != entries[i].id
          {
            assert kept[j] in all[..i];
          }
          kept := kept + [entries[i]];
        }
      }
      assert all[..|all|] == all;
      ByIdFilter(all, kept, pid);
      entries := kept;
    }
  }

  // --------------------------------------------------- the registry by id

  function ById(cs: seq<Container>): map<nat, Container> {
    if cs == [] then map[] else ById(cs[1..])[cs[0].id := cs[0]]
  }

  ghost predicate UniqueIds(cs: seq<Container>) {
    forall i, j :: 0 <= i < j < |cs| ==> cs[i].id != cs[j].id
  }

  lemma {:induction false} ByIdFrom(cs: seq<Container>, id: nat) returns (i: nat)
    requires id in ById(cs)
    ensures i < |cs| && cs[i].id == id
  {
    if cs[0].id == id {
      i := 0;
    } else {
      i := ByIdFrom(cs[1..], id);
      i := i + 1;
    }
  }

  lemma {:induction false} ByIdAt(cs: seq<Container>, i: nat)
    requires i < |cs| && UniqueIds(cs)
    ensures cs[i].id in ById(cs) && ById(cs)[cs[i].id] == cs[i]
  {
    if i > 0 {
      assert forall j :: 0 <= j < |cs[1..]| ==> cs[1..][j] == cs[j + 1];
      ByIdAt(cs[1..], i - 1);
    }
  }

  /** A list with unique ids is a map if their elements agree. */
  lemma ByIdIs(cs: seq<Container>, m: map<nat, Container>)
    requires UniqueIds(cs)
    requires forall i :: 0 <= i < |cs| ==> cs[i].id in m && m[cs[i].id] == cs[i]
    requires forall id :: id in m ==> m[id] in cs && m[id].id == id
    ensures ById(cs) == m
  {
    forall id | id in m
      ensures id in ById(cs) && ById(cs)[id] == m[id]
    {
      var i :| 0 <= i < |cs| && cs[i] == m[id];
      ByIdAt(cs, i);
    }
    forall id | id in ById(cs)
      ensures id in m
    {
      var i := ByIdFrom(cs, id);
    }
  }

  lemma ByIdHolds(cs: seq<Container>)
    requires UniqueIds(cs)
    ensures forall i :: 0 <= i < |cs| ==> cs[i].id in ById(cs) && ById(cs)[cs[i].id] == cs[i]
    ensures forall id :: id in ById(cs) ==> ById(cs)[id] in cs && ById(cs)[id].id == id
  {
    forall i | 0 <= i < |cs|
      ensures cs[i].id in ById(cs) && ById(cs)[cs[i].id] == cs[i]
    {
      ByIdAt(cs, i);
    }
    forall id | id in ById(cs)
      ensures ById(cs)[id] in cs && ById(cs)[id].id == id
    {
      var i := ByIdFrom(cs, id);
      ByIdAt(cs, i);
    }
  }

  lemma ByIdSnoc(cs: seq<Container>, c: Container)
    requires UniqueIds(cs) && forall i :: 0 <= i < |cs| ==> cs[i].id != c.id
    ensures ById(cs + [c]) == ById(cs)[c.id := c]
  {
    hide ById;
    ByIdHolds(cs);
    ByIdIs(cs + [c], ById(cs)[c.id := c]);
  }

  lemma ByIdUpdate(cs: seq<Container>, k: nat, c: Container)
    requires UniqueIds(cs) && k < |cs| && c.id == cs[k].id
    ensures UniqueIds(cs[k := c]) && ById(cs[k := c]) == ById(cs)[c.id := c]
  {
    hide ById;
    ByIdHolds(cs);
    var ds, m := cs[k := c], ById(cs)[c.id := c];
    forall id | id in m
      ensures m[id] in ds && m[id].id == id
    {
      if id == c.id {
        assert ds[k] == c;
      } else {
        var i :| 0 <= i < |cs| && cs[i] == m[id];
        assert ds[i] == cs[i];
      }
    }
    ByIdIs(ds, m);
  }

  lemma ByIdRemove(cs: seq<Container>, k: nat)
    requires UniqueIds(cs) && k < |cs|
    ensures UniqueIds(cs[..k] + cs[k + 1..]) && ById(cs[..k] + cs[k + 1..]) == ById(cs) - {cs[k].id}
  {
    hide ById;
    var ds, m := cs[..k] + cs[k + 1..], ById(cs) - {cs[k].id};
    forall i, j | 0 <= i < j < |ds|
      ensures ds[i].id != ds[j].id
    {
      assert ds[i] == cs[Skip(i, k)] && ds[j] == cs[Skip(j, k)];
    }
    forall i | 0 <= i < |ds|
      ensures ds[i].id in m && m[ds[i].id] == ds[i]
    {
      assert ds[i] == cs[Skip(i, k)];
      ByIdAt(cs, Skip(i, k));
    }
    forall id | id in m
      ensures m[id] in ds && m[id].id == id
    {
      var i := ByIdFrom(cs, id);
      ByIdAt(cs, i);
      assert ds[if i < k then i else i - 1] == cs[i];
    }
    ByIdIs(ds, m);
  }

  /** Where an element stood before the `k`-th was removed. */
  function Skip(i: nat, k: nat): nat {
    if i < k then i else i + 1
  }

  lemma ByIdFilter(cs: seq<Container>, kept: seq<Container>, pid: int)
    requires UniqueIds(cs) && UniqueIds(kept)
    requires forall c :: c in kept <==> c in cs && c.pid != pid
    ensures ById(kept) == map id | id in ById(cs) && ById(cs)[id].pid != pid :: ById(cs)[id]
  {
    hide ById;
    ByIdHolds(cs);
    var m := map id | id in ById(cs) && ById(cs)[id].pid != pid :: ById(cs)[id];
    forall i | 0 <= i < |kept|
      ensures kept[i].id in m && m[kept[i].id] == kept[i]
    {
      assert kept[i] in kept;
    }
    ByIdIs(kept, m);
  }
}
