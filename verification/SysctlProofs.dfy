/** Where accepted sysctls end up: each is written, with its value, to a file strictly
    below /proc/sys that belongs to a namespace of the container. */
module SysctlProofs {
  import opened Bytes
  import opened Outcomes
  import opened SysctlWrites
  import opened Sysctl

  // --------------------------------------------------------------- names

  predicate Separator(b: u8) {
    b == DOT || b == SLASH
  }

  /** No separator at an end or next to another: no component is empty. */
  predicate WellSeparated(name: bytes) {
    && name != [] && !Separator(name[0]) && !Separator(name[|name| - 1])
    && forall i :: 0 <= i < |name| - 1 ==> !(Separator(name[i]) && Separator(name[i + 1]))
  }

  /** A component that stays where it is named. */
  predicate Plain(c: bytes) {
    c != [] && forall i :: 0 <= i < |c| ==> NameByte(c[i]) && !Separator(c[i])
  }

  lemma {:induction false} ComponentsPlain(s: bytes)
    requires forall i :: 0 <= i < |s| ==> NameByte(s[i]) && s[i] != DOT
    requires s != [] ==> s[|s| - 1] != SLASH
    requires s != []
    requires s[0] != SLASH && forall i :: 0 <= i < |s| - 1 ==> !(s[i] == SLASH && s[i + 1] == SLASH)
    ensures forall c :: c in Components(s) ==> Plain(c)
    decreases |s|
  {
    var k := Find(s, SLASH, 0);
    if k < |s| {
      ComponentsPlain(s[k + 1..]);
    }
  }

  /** If two slashes meet, or one is at an end, some component is empty. */
  lemma {:induction false} ComponentsEmpty(s: bytes, i: nat)
    requires i <= |s| && (i == 0 || s[i - 1] == SLASH) && (i == |s| || s[i] == SLASH)
    ensures [] in Components(s)
    decreases |s|
  {
    var k := Find(s, SLASH, 0);
    if k == |s| {
      assert i == 0 || i == |s|;
    } else if i == 0 {
      assert s[..k] == [];
    } else {
      ComponentsEmpty(s[k + 1..], i - k - 1);
    }
  }

  /** A name is accepted exactly if it is made of the allowed characters and no
      component between its separators is empty. The rejection of ".." never decides,
      since every dot has become a slash. */
  lemma RelPathIff(name: bytes)
    ensures RelPath(name).Ok? <==> (forall i :: 0 <= i < |name| ==> NameByte(name[i])) && WellSeparated(name)
    ensures RelPath(name).Ok? ==>
      RelPath(name).value == Slashed(name) && forall c :: c in Components(Slashed(name)) ==> Plain(c)
  {
    if name != [] && forall i :: 0 <= i < |name| ==> NameByte(name[i]) {
      var rel := Slashed(name);
      if WellSeparated(name) {
        ComponentsPlain(rel);
        forall c | c in Components(rel)
          ensures !BadComponent(c)
        {
          assert !Separator(c[0]);
        }
      } else if !Separator(name[0]) && !Separator(name[|name| - 1]) {
        var i :| 0 <= i < |name| - 1 && Separator(name[i]) && Separator(name[i + 1]);
        ComponentsEmpty(rel, i + 1);
      }
    }
  }

  // ---------------------------------------------------------- resolution

  /** Lexical resolution of an absolute path: empty and "." components go nowhere,
      ".." goes up. */
  function Walk(dir: seq<bytes>, cs: seq<bytes>): seq<bytes>
    decreases |cs|
  {
    if cs == [] then dir
    else if cs[0] == [] || cs[0] == [DOT] then Walk(dir, cs[1..])
    else if cs[0] == [DOT, DOT] then Walk(if dir == [] then [] else dir[..|dir| - 1], cs[1..])
    else Walk(dir + [cs[0]], cs[1..])
  }

  function Resolve(path: bytes): seq<bytes> {
    Walk([], Components(path))
  }

  const PROC: bytes := [0x70, 0x72, 0x6F, 0x63]
  const SYS: bytes := [0x73, 0x79, 0x73]

  lemma {:induction false} WalkPlain(dir: seq<bytes>, cs: seq<bytes>)
    requires forall c :: c in cs ==> Plain(c)
    ensures Walk(dir, cs) == dir + cs
    decreases |cs|
  {
    if cs != [] {
      assert Plain(cs[0]) && !Separator(cs[0][0]);
      WalkPlain(dir + [cs[0]], cs[1..]);
      assert dir + cs == (dir + [cs[0]]) + cs[1..];
    }
  }

  lemma FindAt(s: bytes, b: u8, i: nat, k: nat)
    requires i <= k < |s| && s[k] == b && forall j :: i <= j < k ==> s[j] != b
    ensures Find(s, b, i) == k
  {
  }

  lemma ComponentsStep(c: bytes, rest: bytes)
    requires forall i :: 0 <= i < |c| ==> c[i] != SLASH
    ensures Components(c + [SLASH] + rest) == [c] + Components(rest)
  {
    var s := c + [SLASH] + rest;
    FindAt(s, SLASH, 0, |c|);
    assert s[..|c|] == c && s[|c| + 1..] == rest;
  }

  lemma PrefixComponents(rel: bytes)
    ensures Components(PREFIX + rel) == [[], PROC, SYS] + Components(rel)
  {
    hide Components;
    ComponentsStep(SYS, rel);
    ComponentsStep(PROC, SYS + [SLASH] + rel);
    ComponentsStep([], PROC + [SLASH] + (SYS + [SLASH] + rel));
    assert PREFIX + rel == [] + [SLASH] + (PROC + [SLASH] + (SYS + [SLASH] + rel));
  }

  /** The file of an accepted name: the components of the name below /proc/sys. */
  lemma BelowProcSys(name: bytes)
    requires RelPath(name).Ok?
    ensures var rel := RelPath(name).value;
      && Resolve(PREFIX + rel) == [PROC, SYS] + Components(rel)
      && Components(rel) != [] && forall c :: c in Components(rel) ==> Plain(c)
  {
    hide RelPath, Components;
    RelPathIff(name);
    var rel := RelPath(name).value;
    PrefixComponents(rel);
    var all := [PROC, SYS] + Components(rel);
    assert Components(PREFIX + rel)[1..] == all;
    forall c | c in all
      ensures Plain(c)
    {
      assert c == PROC || c == SYS || c in Components(rel);
    }
    WalkPlain([], all);
    assert [] + all == all;
  }

  // ---------------------------------------------------------- namespaces

  /** "net/", "kernel/sem", "kernel/shm", "kernel/msg", "fs/mqueue/" */
  predicate Owned(rel: bytes, ipc: bool, net: bool) {
    || (net && Slashed(NET) <= rel)
    || (ipc && (rel == Slashed(KERNEL_SEM) || Slashed(KERNEL_SHM) <= rel || Slashed(KERNEL_MSG) <= rel
                || Slashed(FS_MQUEUE) <= rel))
  }

  lemma SlashedPrefix(p: bytes, name: bytes)
    requires p <= name
    ensures Slashed(p) <= Slashed(name)
  {
  }

  lemma NamespaceOwned(name: bytes, ipc: bool, net: bool)
    requires Namespaced(name, ipc, net)
    ensures Owned(Slashed(name), ipc, net)
  {
    hide Slashed;
    if NET <= name {
      SlashedPrefix(NET, name);
    } else if KERNEL_SHM <= name {
      SlashedPrefix(KERNEL_SHM, name);
    } else if KERNEL_MSG <= name {
      SlashedPrefix(KERNEL_MSG, name);
    } else if FS_MQUEUE <= name {
      SlashedPrefix(FS_MQUEUE, name);
    }
  }

  // ----------------------------------------------------------- the split

  /** The kernel splits a formatted entry back into what was formatted. */
  lemma SplitFormatted(rel: bytes, value: bytes)
    requires forall i :: 0 <= i < |rel| ==> rel[i] != EQUALS
    ensures Split(Format((rel, value)) + [0]) == Some((PREFIX + rel + [0], value))
  {
    var entry := rel + [EQUALS] + value + [0];
    FindAt(entry, EQUALS, 0, |rel|);
    assert entry[..|rel|] == rel;
    assert entry[|rel| + 1..|entry| - 1] == value;
  }

  /** The kernel's view of one entry of the specification. */
  lemma EntrySplits(kv: (bytes, bytes), ipc: bool, net: bool)
    requires Entry(kv, ipc, net).Ok?
    ensures var (rel, value) := Entry(kv, ipc, net).value;
      && value == kv.1 && RelPath(kv.0) == Ok(rel) && Owned(rel, ipc, net)
      && Split(Format((rel, value)) + [0]) == Some((PREFIX + rel + [0], value))
  {
    var rel := Slashed(kv.0);
    RelPathIff(kv.0);
    NamespaceOwned(kv.0, ipc, net);
    SplitFormatted(rel, kv.1);
  }

  // --------------------------------------------------- order of the entries

  lemma {:induction false} LeqAntisymmetric(a: bytes, b: bytes)
    requires Leq(a, b) && Leq(b, a)
    ensures a == b
  {
    if a != [] && b != [] {
      LeqAntisymmetric(a[1..], b[1..]);
      assert a == [a[0]] + a[1..] && b == [b[0]] + b[1..];
    }
  }

  lemma {:induction false} LeqTotal(a: bytes, b: bytes)
    ensures Leq(a, b) || Leq(b, a)
  {
    if a != [] && b != [] {
      LeqTotal(a[1..], b[1..]);
    }
  }

  lemma {:induction false} LeqTransitive(a: bytes, b: bytes, c: bytes)
    requires Leq(a, b) && Leq(b, c)
    ensures Leq(a, c)
  {
    if a != [] && b != [] && c != [] && a[0] == b[0] == c[0] {
      LeqTransitive(a[1..], b[1..], c[1..]);
    }
  }

  lemma PairOrder(a: (bytes, bytes), b: (bytes, bytes), c: (bytes, bytes))
    ensures PairLeq(a, b) || PairLeq(b, a)
    ensures PairLeq(a, b) && PairLeq(b, a) ==> a == b
    ensures PairLeq(a, b) && PairLeq(b, c) ==> PairLeq(a, c)
  {
    hide Leq;
    LeqTotal(a.0, b.0);
    LeqTotal(a.1, b.1);
    if Leq(a.0, b.0) && Leq(b.0, a.0) {
      LeqAntisymmetric(a.0, b.0);
    }
    if Leq(a.1, b.1) && Leq(b.1, a.1) {
      LeqAntisymmetric(a.1, b.1);
    }
    if Leq(a.0, b.0) && Leq(b.0, c.0) {
      LeqTransitive(a.0, b.0, c.0);
      if a.0 == c.0 {
        LeqAntisymmetric(a.0, b.0);
      }
    }
    if Leq(a.1, b.1) && Leq(b.1, c.1) {
      LeqTransitive(a.1, b.1, c.1);
    }
  }

  lemma {:induction false} InsertsCommute(a: (bytes, bytes), b: (bytes, bytes), es: seq<(bytes, bytes)>)
    ensures Insert(a, Insert(b, es)) == Insert(b, Insert(a, es))
    decreases |es|
  {
    hide PairLeq;
    PairOrder(a, b, a);
    PairOrder(b, a, b);
    if es != [] {
      PairOrder(a, b, es[0]);
      PairOrder(b, a, es[0]);
      PairOrder(a, es[0], b);
      PairOrder(b, es[0], a);
      InsertsCommute(a, b, es[1..]);
    }
  }

  /** Any element may be taken as the one inserted last. */
  lemma {:induction false} SortMoves(es: seq<(bytes, bytes)>, j: nat)
    requires j < |es|
    ensures Sort(es) == Insert(es[j], Sort(es[..j] + es[j + 1..]))
    decreases |es|
  {
    hide Insert;
    var n := |es| - 1;
    if j == n {
      assert es[..j] + es[j + 1..] == es[..n];
    } else {
      SortMoves(es[..n], j);
      var rest := es[..n][..j] + es[..n][j + 1..];
      var others := es[..j] + es[j + 1..];
      assert others[..n - 1] == rest && others[n - 1] == es[n];
      InsertsCommute(es[n], es[j], Sort(rest));
    }
  }

  lemma Removed<T>(s: seq<T>, j: nat)
    requires j < |s|
    ensures multiset(s[..j] + s[j + 1..]) == multiset(s) - multiset{s[j]}
  {
    assert s == s[..j] + [s[j]] + s[j + 1..];
  }

  /** Where a permutation has this element, and that the rest are permutations too. */
  lemma FindIn<T>(s: seq<T>, t: seq<T>, i: nat) returns (j: nat)
    requires multiset(s) == multiset(t) && i < |s|
    ensures j < |t| && t[j] == s[i] && |s| == |t|
    ensures multiset(s[..i] + s[i + 1..]) == multiset(t[..j] + t[j + 1..])
  {
    assert |s| == |multiset(s)| && |t| == |multiset(t)|;
    assert s[i] in multiset(s);
    j :| 0 <= j < |t| && t[j] == s[i];
    Removed(s, i);
    Removed(t, j);
  }

  lemma {:induction false} EntriesAre(kvs: seq<(bytes, bytes)>, ipc: bool, net: bool)
    ensures Entries(kvs, ipc, net).Ok? <==> forall i :: 0 <= i < |kvs| ==> Entry(kvs[i], ipc, net).Ok?
    ensures Entries(kvs, ipc, net).Ok? ==>
      var es := Entries(kvs, ipc, net).value;
      |es| == |kvs| && forall i :: 0 <= i < |kvs| ==> Entry(kvs[i], ipc, net) == Ok(es[i])
    decreases |kvs|
  {
    hide Entry;
    if kvs != [] {
      EntriesAre(kvs[..|kvs| - 1], ipc, net);
    }
  }

  lemma EntriesWithout(kvs: seq<(bytes, bytes)>, j: nat, ipc: bool, net: bool)
    requires j < |kvs| && Entries(kvs, ipc, net).Ok?
    ensures var es := Entries(kvs, ipc, net).value;
      |es| == |kvs| && Entry(kvs[j], ipc, net) == Ok(es[j])
      && Entries(kvs[..j] + kvs[j + 1..], ipc, net) == Ok(es[..j] + es[j + 1..])
  {
    hide Entry, Entries;
    EntriesAre(kvs, ipc, net);
    var others := kvs[..j] + kvs[j + 1..];
    EntriesAre(others, ipc, net);
    var es := Entries(kvs, ipc, net).value;
    forall i | 0 <= i < |others|
      ensures Entry(others[i], ipc, net) == Ok((es[..j] + es[j + 1..])[i])
    {
      assert others[i] == if i < j then kvs[i] else kvs[i + 1];
    }
    assert Entries(others, ipc, net).value == es[..j] + es[j + 1..];
  }

  lemma EntriesOkOfPermutation(kvs: seq<(bytes, bytes)>, ls: seq<(bytes, bytes)>, ipc: bool, net: bool)
    requires multiset(kvs) == multiset(ls) && Entries(kvs, ipc, net).Ok?
    ensures Entries(ls, ipc, net).Ok?
  {
    hide Entry, Entries;
    EntriesAre(kvs, ipc, net);
    EntriesAre(ls, ipc, net);
    forall i | 0 <= i < |ls|
      ensures Entry(ls[i], ipc, net).Ok?
    {
      assert ls[i] in multiset(kvs);
    }
  }

  lemma {:induction false} SortedOfPermutation(kvs: seq<(bytes, bytes)>, ls: seq<(bytes, bytes)>, ipc: bool, net: bool)
    requires multiset(kvs) == multiset(ls) && Entries(kvs, ipc, net).Ok? && Entries(ls, ipc, net).Ok?
    ensures Sort(Entries(kvs, ipc, net).value) == Sort(Entries(ls, ipc, net).value)
    decreases |kvs|
  {
    hide Entry, Entries, Sort, Insert;
    if kvs == [] {
      assert |kvs| == |multiset(ls)| == |ls|;
      assert ls == kvs;
    } else {
      var j := FindIn(kvs, ls, 0);
      EntriesWithout(kvs, 0, ipc, net);
      EntriesWithout(ls, j, ipc, net);
      SortedOfPermutation(kvs[..0] + kvs[1..], ls[..j] + ls[j + 1..], ipc, net);
      SortMoves(Entries(kvs, ipc, net).value, 0);
      SortMoves(Entries(ls, ipc, net).value, j);
    }
  }

  /** The specification does not depend on the order in which the map yields its
      entries. */
  lemma TranslationIsDeterministic(kvs: seq<(bytes, bytes)>, ls: seq<(bytes, bytes)>, ipc: bool, net: bool)
    requires multiset(kvs) == multiset(ls)
    ensures Translate(kvs, ipc, net).Ok? == Translate(ls, ipc, net).Ok?
    ensures Translate(kvs, ipc, net).Ok? ==> Translate(kvs, ipc, net) == Translate(ls, ipc, net)
  {
    hide Entries, Sort, Formats;
    if Entries(kvs, ipc, net).Ok? {
      EntriesOkOfPermutation(kvs, ls, ipc, net);
      SortedOfPermutation(kvs, ls, ipc, net);
    } else if Entries(ls, ipc, net).Ok? {
      EntriesOkOfPermutation(ls, kvs, ipc, net);
    }
  }

  lemma {:induction false} InsertHas(e: (bytes, bytes), es: seq<(bytes, bytes)>)
    ensures multiset(Insert(e, es)) == multiset(es) + multiset{e}
  {
    if es != [] {
      assert es == [es[0]] + es[1..];
      if !PairLeq(e, es[0]) {
        InsertHas(e, es[1..]);
      }
    }
  }

  lemma {:induction false} SortHas(es: seq<(bytes, bytes)>)
    ensures multiset(Sort(es)) == multiset(es)
    decreases |es|
  {
    if es != [] {
      hide Insert;
      var n := |es| - 1;
      SortHas(es[..n]);
      InsertHas(es[n], Sort(es[..n]));
      assert es == es[..n] + [es[n]];
    }
  }

  predicate Ascending(es: seq<(bytes, bytes)>) {
    forall i, j :: 0 <= i < j < |es| ==> PairLeq(es[i], es[j])
  }

  lemma {:induction false} InsertAscends(e: (bytes, bytes), es: seq<(bytes, bytes)>)
    requires Ascending(es)
    ensures Ascending(Insert(e, es))
  {
    hide PairLeq;
    if es != [] {
      if PairLeq(e, es[0]) {
        forall i | 0 <= i < |es|
          ensures PairLeq(e, es[i])
        {
          PairOrder(e, es[0], es[i]);
        }
      } else {
        InsertAscends(e, es[1..]);
        InsertHas(e, es[1..]);
        PairOrder(e, es[0], e);
        var r := Insert(e, es[1..]);
        forall i | 0 <= i < |r|
          ensures PairLeq(es[0], r[i])
        {
          assert r[i] in multiset(es[1..]) + multiset{e};
          if r[i] != e {
            assert r[i] in es[1..];
          }
        }
      }
    }
  }

  lemma {:induction false} SortAscends(es: seq<(bytes, bytes)>)
    ensures Ascending(Sort(es))
    decreases |es|
  {
    if es != [] {
      SortAscends(es[..|es| - 1]);
      InsertAscends(es[|es| - 1], Sort(es[..|es| - 1]));
    }
  }
}
