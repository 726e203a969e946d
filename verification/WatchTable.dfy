/** The helper module's exit-watch table: 64 slots under a spinlock, filled by the
    `do_exit` kprobe. */
module WatchTable {
  import opened Bytes
  import opened Outcomes

  const KRUNC_MAX_WATCH := 64

  datatype Entry = Entry(pid: int, code: i32, inUse: bool, exited: bool)

  function InUse(t: seq<Entry>): nat {
    if t == [] then 0 else (if t[0].inUse then 1 else 0) + InUse(t[1..])
  }

  lemma {:induction false} InUseUpdate(t: seq<Entry>, i: nat, e: Entry)
    requires i < |t|
    ensures InUse(t[i := e]) == InUse(t) - (if t[i].inUse then 1 else 0) + (if e.inUse then 1 else 0)
  {
    if i > 0 {
      assert t[i := e][1..] == t[1..][i - 1 := e];
      InUseUpdate(t[1..], i - 1, e);
    } else {
      assert t[i := e][1..] == t[1..];
    }
  }

  lemma {:induction false} InUseZero(t: seq<Entry>)
    ensures InUse(t) == 0 <==> forall i :: 0 <= i < |t| ==> !t[i].inUse
    ensures InUse(t) == |t| <==> forall i :: 0 <= i < |t| ==> t[i].inUse
    ensures InUse(t) <= |t|
  {
    if t != [] {
      InUseZero(t[1..]);
      assert forall i :: 0 < i < |t| ==> t[i] == t[1..][i - 1];
    }
  }

  // ------------------------------------------- the table as it is searched

  /** The first index from `i` on at which `hit` holds, or the length. */
  function First(t: seq<Entry>, hit: Entry -> bool, i: nat): (k: nat)
    requires i <= |t|
    ensures i <= k <= |t|
    ensures forall j :: i <= j < k ==> !hit(t[j])
    ensures k < |t| ==> hit(t[k])
    decreases |t| - i
  {
    if i == |t| || hit(t[i]) then i else First(t, hit, i + 1)
  }

  predicate Free(e: Entry) {
    !e.inUse
  }

  function Exited(nr: int): Entry -> bool {
    (e: Entry) => e.inUse && e.pid == nr && e.exited
  }

  function Awaited(nr: int): Entry -> bool {
    (e: Entry) => e.inUse && e.pid == nr && !e.exited
  }

  function WatchIn(t: seq<Entry>, nr: int): (seq<Entry>, bool) {
    var k := First(t, Free, 0);
    if k < |t| then (t[k := Entry(nr, 0, true, false)], true) else (t, false)
  }

  function UnwatchIn(t: seq<Entry>, nr: int): (r: seq<Entry>)
    ensures |r| == |t|
  {
    seq(|t|, i requires 0 <= i < |t| => if t[i].inUse && t[i].pid == nr then t[i].(inUse := false) else t[i])
  }

  function CodeIn(t: seq<Entry>, nr: int): Option<i32> {
    var k := First(t, Exited(nr), 0);
    if k < |t| then Some(t[k].code) else None
  }

  function RecordIn(t: seq<Entry>, nr: int, code: i32): seq<Entry> {
    var k := First(t, Awaited(nr), 0);
    if k < |t| then t[k := t[k].(code := code, exited := true)] else t
  }

  class Table {
    const slots: array<Entry>
    var numWatched: int

    ghost predicate Valid()
      reads this, slots
    {
      slots.Length == 64 && numWatched == InUse(slots[..])
    }

    constructor ()
      ensures Valid() && fresh(slots) && forall i :: 0 <= i < slots.Length ==> !slots[i].inUse
    {
      slots := new Entry[KRUNC_MAX_WATCH](i => Entry(0, 0, false, false));
      numWatched := 0;
      new;
      InUseZero(slots[..]);
    }

    /** `krunc_watch_pid`: 0, or -ENOSPC when no slot is free. */
    method WatchPid(nr: int) returns (r: Result<(), Errno>)
      requires Valid()
      modifies this`numWatched, slots
      ensures Valid() && (slots[..], r.Ok?) == WatchIn(old(slots[..]), nr)
      ensures r.Err? ==> r.error == ENOSPC
    {
      ghost var t := slots[..];
      var slot := -1;
      for i := 0 to KRUNC_MAX_WATCH
        invariant slot == -1
        invariant First(t, Free, 0) == First(t, Free, i)
      {
        if !slots[i].inUse {
          slot := i;
          break;
        }
      }
      if slot >= 0 {
        InUseUpdate(t, slot, Entry(nr, 0, true, false));
        slots[slot] := Entry(nr, 0, true, false);
        numWatched := numWatched + 1;
        assert slots[..] == t[slot := Entry(nr, 0, true, false)];
        return Ok(());
      }
      r := Err(ENOSPC);
    }

    /** `krunc_unwatch_pid`: frees every slot of this pid. */
    method UnwatchPid(nr: int)
      requires Valid()
      modifies this`numWatched, slots
      ensures Valid() && slots[..] == UnwatchIn(old(slots[..]), nr)
    {
      ghost var t := slots[..];
      for i := 0 to KRUNC_MAX_WATCH
        invariant Valid()
        invariant forall j :: 0 <= j < i ==> slots[j] == UnwatchIn(t, nr)[j]
        invariant forall j :: i <= j < KRUNC_MAX_WATCH ==> slots[j] == t[j]
      {
        ghost var now := slots[..];
        if slots[i].inUse && slots[i].pid == nr {
          InUseUpdate(now, i, slots[i].(inUse := false));
          slots[i] := slots[i].(inUse := false);
          numWatched := numWatched - 1;
          assert slots[..] == now[i := t[i].(inUse := false)];
        }
      }
    }

    /** `krunc_get_exit_code`. */
    method GetExitCode(nr: int) returns (r: Option<i32>)
      requires Valid()
      ensures r == CodeIn(slots[..], nr)
    {
      for i := 0 to KRUNC_MAX_WATCH
        invariant First(slots[..], Exited(nr), 0)
               == First(slots[..], Exited(nr), i)
      {
        if slots[i].inUse && slots[i].pid == nr && slots[i].exited {
          return Some(slots[i].code);
        }
      }
      r := None;
    }

    /** `krunc_do_exit_pre`. The early return, taken without the lock, loses
        nothing: the table afterwards is the same function of the table before. */
    method DoExitPre(nr: int, code: i32)
      requires Valid()
      modifies slots
      ensures Valid() && slots[..] == RecordIn(old(slots[..]), nr, code)
    {
      ghost var t := slots[..];
      InUseZero(t);
      if numWatched == 0 {
        return;
      }
      for i := 0 to KRUNC_MAX_WATCH
        invariant slots[..] == t
        invariant First(t, Awaited(nr), 0)
               == First(t, Awaited(nr), i)
      {
        if slots[i].inUse && slots[i].pid == nr && !slots[i].exited {
          InUseUpdate(t, i, slots[i].(code := code, exited := true));
          slots[i] := slots[i].(code := code, exited := true);
          assert slots[..] == t[i := t[i].(code := code, exited := true)];
          return;
        }
      }
    }
  }

  // ------------------------------------------------------ what it stands for

  /** No pid is watched twice. */
  ghost predicate Distinct(t: seq<Entry>) {
    forall i, j :: 0 <= i < j < |t| && t[i].inUse && t[j].inUse ==> t[i].pid != t[j].pid
  }

  /** Watched pids, and the exit status of those that have exited. */
  function AsMap(t: seq<Entry>): map<int, Option<i32>> {
    if t == [] then map[]
    else if t[0].inUse then AsMap(t[1..])[t[0].pid := if t[0].exited then Some(t[0].code) else None]
    else AsMap(t[1..])
  }

  function WatchMap(m: map<int, Option<i32>>, nr: int): (map<int, Option<i32>>, bool) {
    if |m| < 64 then (m[nr := None], true) else (m, false)
  }

  function RecordMap(m: map<int, Option<i32>>, nr: int, code: i32): map<int, Option<i32>> {
    if nr in m && m[nr] == None then m[nr := Some(code)] else m
  }

  function CodeMap(m: map<int, Option<i32>>, nr: int): Option<i32> {
    if nr in m then m[nr] else None
  }

  lemma DistinctTail(t: seq<Entry>)
    requires t != [] && Distinct(t)
    ensures Distinct(t[1..])
  {
    assert forall i :: 0 <= i < |t[1..]| ==> t[1..][i] == t[i + 1];
  }

  /** The map has exactly the pids in use. */
  lemma {:induction false} AsMapFrom(t: seq<Entry>, p: int) returns (i: nat)
    requires p in AsMap(t)
    ensures i < |t| && t[i].inUse && t[i].pid == p
  {
    if t[0].inUse && t[0].pid == p {
      i := 0;
    } else {
      i := AsMapFrom(t[1..], p);
      i := i + 1;
    }
  }

  lemma {:induction false} AsMapAt(t: seq<Entry>, i: nat)
    requires Distinct(t) && i < |t| && t[i].inUse
    ensures t[i].pid in AsMap(t) && AsMap(t)[t[i].pid] == if t[i].exited then Some(t[i].code) else None
  {
    if i > 0 {
      DistinctTail(t);
      AsMapAt(t[1..], i - 1);
    }
  }

  lemma {:induction false} AsMapSize(t: seq<Entry>)
    requires Distinct(t)
    ensures |AsMap(t)| == InUse(t)
  {
    if t != [] {
      DistinctTail(t);
      AsMapSize(t[1..]);
      assert forall i :: 0 <= i < |t| - 1 ==> t[1..][i] == t[i + 1];
      if t[0].inUse && t[0].pid in AsMap(t[1..]) {
        var i := AsMapFrom(t[1..], t[0].pid);
        assert false;
      }
    }
  }

  /** Two tables stand for the same map if every slot of one is accounted for by the
      map of the other. */
  lemma AsMapIs(t: seq<Entry>, m: map<int, Option<i32>>)
    requires Distinct(t)
    requires forall i :: 0 <= i < |t| && t[i].inUse ==>
      t[i].pid in m && m[t[i].pid] == if t[i].exited then Some(t[i].code) else None
    requires forall p :: p in m ==> exists i :: 0 <= i < |t| && t[i].inUse && t[i].pid == p
    ensures AsMap(t) == m
  {
    forall p | p in m
      ensures p in AsMap(t) && AsMap(t)[p] == m[p]
    {
      var i :| 0 <= i < |t| && t[i].inUse && t[i].pid == p;
      AsMapAt(t, i);
    }
    forall p | p in AsMap(t)
      ensures p in m
    {
      var i := AsMapFrom(t, p);
    }
  }

  /** Watching a pid that is not watched yet: fails exactly when 64 are. */
  lemma WatchRefines(t: seq<Entry>, nr: int)
    requires |t| == 64 && Distinct(t) && nr !in AsMap(t)
    ensures Distinct(WatchIn(t, nr).0)
    ensures (AsMap(WatchIn(t, nr).0), WatchIn(t, nr).1) == WatchMap(AsMap(t), nr)
  {
    hide AsMap;
    AsMapSize(t);
    InUseZero(t);
    var k := First(t, Free, 0);
    if k < |t| {
      var u := t[k := Entry(nr, 0, true, false)];
      forall i | 0 <= i < |t| && t[i].inUse
        ensures t[i].pid != nr && t[i].pid in AsMap(t)
          && AsMap(t)[t[i].pid] == if t[i].exited then Some(t[i].code) else None
      {
        AsMapAt(t, i);
      }
      var m := AsMap(t)[nr := None];
      forall p | p in m
        ensures exists i :: 0 <= i < |u| && u[i].inUse && u[i].pid == p
      {
        if p == nr {
          assert u[k].pid == p;
        } else {
          var i := AsMapFrom(t, p);
          assert u[i] == t[i];
        }
      }
      AsMapIs(u, m);
    }
  }

  lemma UnwatchRefines(t: seq<Entry>, nr: int)
    requires Distinct(t)
    ensures Distinct(UnwatchIn(t, nr))
    ensures AsMap(UnwatchIn(t, nr)) == AsMap(t) - {nr}
  {
    hide AsMap;
    var u, m := UnwatchIn(t, nr), AsMap(t) - {nr};
    forall i | 0 <= i < |u| && u[i].inUse
      ensures u[i] == t[i] && u[i].pid in m && m[u[i].pid] == if u[i].exited then Some(u[i].code) else None
    {
      AsMapAt(t, i);
    }
    forall p | p in m
      ensures exists i :: 0 <= i < |u| && u[i].inUse && u[i].pid == p
    {
      var i := AsMapFrom(t, p);
      assert u[i] == t[i];
    }
    AsMapIs(u, m);
  }

  /** A recorded status is never overwritten before the pid is unwatched. */
  lemma RecordRefines(t: seq<Entry>, nr: int, code: i32)
    requires Distinct(t)
    ensures Distinct(RecordIn(t, nr, code))
    ensures AsMap(RecordIn(t, nr, code)) == RecordMap(AsMap(t), nr, code)
  {
    hide AsMap;
    var k := First(t, Awaited(nr), 0);
    var m := RecordMap(AsMap(t), nr, code);
    var u := RecordIn(t, nr, code);
    forall i | 0 <= i < |t| && t[i].inUse
      ensures t[i].pid in AsMap(t) && AsMap(t)[t[i].pid] == if t[i].exited then Some(t[i].code) else None
    {
      AsMapAt(t, i);
    }
    if nr in AsMap(t) {
      var i := AsMapFrom(t, nr);
      if k == |t| {
        assert m == AsMap(t);
      }
    }
    forall p | p in m
      ensures exists i :: 0 <= i < |u| && u[i].inUse && u[i].pid == p
    {
      var i := AsMapFrom(t, p);
      assert u[i].inUse && u[i].pid == p;
    }
    AsMapIs(u, m);
  }

  lemma CodeRefines(t: seq<Entry>, nr: int)
    requires Distinct(t)
    ensures CodeIn(t, nr) == CodeMap(AsMap(t), nr)
  {
    hide AsMap;
    var k := First(t, Exited(nr), 0);
    if k < |t| {
      AsMapAt(t, k);
    } else if nr in AsMap(t) {
      var i := AsMapFrom(t, nr);
      AsMapAt(t, i);
    }
  }
}
