/** Which sysctls are accepted, in terms of their text. */
module SysctlNames {
  import opened Bytes
  import opened Outcomes
  import opened Sysctl
  import opened SysctlProofs

  predicate NameChar(b: u8) {
    var c := b as char;
    || 'a' <= c <= 'z' || 'A' <= c <= 'Z' || '0' <= c <= '9'
    || c == '.' || c == '/' || c == '_' || c == '-'
  }

  predicate Divides(b: u8) {
    b as char == '.' || b as char == '/'
  }

  /** Everywhere between two separators, or one of them and an end, there is something. */
  predicate NoEmptyComponent(name: bytes) {
    forall i :: 0 <= i <= |name| ==> !EmptyAt(name, i)
  }

  predicate EmptyAt(name: bytes, i: nat)
    requires i <= |name|
  {
    (i == 0 || Divides(name[i - 1])) && (i == |name| || Divides(name[i]))
  }

  /** The name belongs to a namespace the container has. */
  predicate Permitted(name: bytes, ipc: bool, net: bool) {
    || (net && Ascii("net.") <= name)
    || (ipc && (name == Ascii("kernel.sem") || Ascii("kernel.shm") <= name || Ascii("kernel.msg") <= name
                || Ascii("fs.mqueue.") <= name))
  }

  predicate GoodName(name: bytes, ipc: bool, net: bool) {
    Permitted(name, ipc, net) && (forall i :: 0 <= i < |name| ==> NameChar(name[i])) && NoEmptyComponent(name)
  }

  /** One line of text. */
  predicate GoodValue(value: bytes) {
    forall i :: 0 <= i < |value| ==> value[i] != 0 && value[i] as char != '\n'
  }

  /** The path of a name: each dot a slash. */
  predicate PathOf(rel: bytes, name: bytes) {
    |rel| == |name| &&
    forall i :: 0 <= i < |rel| ==> rel[i] as char == if name[i] as char == '.' then '/' else name[i] as char
  }

  lemma Texts()
    ensures NET == Ascii("net.") && KERNEL_SEM == Ascii("kernel.sem") && KERNEL_SHM == Ascii("kernel.shm")
    ensures KERNEL_MSG == Ascii("kernel.msg") && FS_MQUEUE == Ascii("fs.mqueue.")
  {
  }

  lemma PermittedIff(name: bytes, ipc: bool, net: bool)
    ensures Namespaced(name, ipc, net) <==> Permitted(name, ipc, net)
  {
    hide Ascii;
    Texts();
    if NET <= name {
      assert name[0] == 0x6E;
    }
  }

  lemma NoEmptyIff(name: bytes)
    ensures NoEmptyComponent(name) <==> WellSeparated(name)
  {
    if WellSeparated(name) {
      forall i | 0 <= i <= |name|
        ensures !EmptyAt(name, i)
      {
        if 0 < i < |name| {
          assert !(Separator(name[i - 1]) && Separator(name[i - 1 + 1]));
        }
      }
    }
    if NoEmptyComponent(name) {
      assert !EmptyAt(name, 0) && !EmptyAt(name, |name|);
      forall i | 0 <= i < |name| - 1
        ensures !(Separator(name[i]) && Separator(name[i + 1]))
      {
        assert !EmptyAt(name, i + 1);
      }
    }
  }

  /** A sysctl is accepted if and only if its name is permitted, made of letters, digits
      and ". / _ -" without an empty component, and its value is one line. Else it is
      reported by its name, or by its value if that alone is bad. */
  lemma EntryIff(kv: (bytes, bytes), ipc: bool, net: bool)
    ensures Entry(kv, ipc, net).Ok? <==> GoodName(kv.0, ipc, net) && GoodValue(kv.1)
    ensures Entry(kv, ipc, net).Ok? ==>
      PathOf(Entry(kv, ipc, net).value.0, kv.0) && Entry(kv, ipc, net).value.1 == kv.1
    ensures Entry(kv, ipc, net).Err? ==>
      Entry(kv, ipc, net).error == UnsupportedProperty(if GoodName(kv.0, ipc, net) then kv.1 else kv.0)
  {
    hide Ascii, Permitted, Namespaced, NoEmptyComponent, WellSeparated, Components;
    PermittedIff(kv.0, ipc, net);
    NoEmptyIff(kv.0);
    RelPathIff(kv.0);
    assert forall b: u8 :: NameByte(b) <==> NameChar(b);
  }

  predicate GoodSysctl(kv: (bytes, bytes), ipc: bool, net: bool) {
    GoodName(kv.0, ipc, net) && GoodValue(kv.1)
  }

  /** "path=value" */
  predicate LineOf(line: bytes, kv: (bytes, bytes)) {
    && |kv.0| < |line| && PathOf(line[..|kv.0|], kv.0)
    && line[|kv.0|] as char == '=' && line[|kv.0| + 1..] == kv.1
  }

  /** A table of sysctls is accepted if and only if each of them is, and reported by the
      first that is not. */
  lemma AcceptedIff(kvs: seq<(bytes, bytes)>, ipc: bool, net: bool)
    ensures Translate(kvs, ipc, net).Ok? <==> forall i :: 0 <= i < |kvs| ==> GoodSysctl(kvs[i], ipc, net)
    ensures Translate(kvs, ipc, net).Err? ==> exists i ::
      && 0 <= i < |kvs| && (forall j :: 0 <= j < i ==> GoodSysctl(kvs[j], ipc, net))
      && !GoodSysctl(kvs[i], ipc, net)
      && Translate(kvs, ipc, net).error ==
         UnsupportedProperty(if GoodName(kvs[i].0, ipc, net) then kvs[i].1 else kvs[i].0)
  {
    hide Entries, Entry, GoodName, GoodValue, Sort, Formats;
    EntriesAre(kvs, ipc, net);
    forall i | 0 <= i < |kvs|
      ensures Entry(kvs[i], ipc, net).Ok? <==> GoodSysctl(kvs[i], ipc, net)
    {
      EntryIff(kvs[i], ipc, net);
    }
    if Entries(kvs, ipc, net).Err? {
      var i := FirstBad(kvs, ipc, net);
      EntryIff(kvs[i], ipc, net);
    }
  }

  lemma {:induction false} FirstBad(kvs: seq<(bytes, bytes)>, ipc: bool, net: bool) returns (i: nat)
    requires Entries(kvs, ipc, net).Err?
    ensures i < |kvs| && Entry(kvs[i], ipc, net).Err? && forall j :: 0 <= j < i ==> Entry(kvs[j], ipc, net).Ok?
    ensures Entries(kvs, ipc, net).error == Entry(kvs[i], ipc, net).error
    decreases |kvs|
  {
    hide Entry;
    var n := |kvs| - 1;
    EntriesAre(kvs[..n], ipc, net);
    if Entries(kvs[..n], ipc, net).Err? {
      i := FirstBad(kvs[..n], ipc, net);
    } else {
      i := n;
    }
  }

  /** A byte string comes before another if it is a beginning of it or smaller where they
      first differ. */
  ghost predicate Precedes(a: bytes, b: bytes) {
    a <= b || exists k: nat :: k < |a| && k < |b| && a[..k] == b[..k] && a[k] < b[k]
  }

  lemma {:induction false} LeqIff(a: bytes, b: bytes)
    ensures Leq(a, b) <==> Precedes(a, b)
  {
    if a != [] && b != [] {
      LeqIff(a[1..], b[1..]);
      if Leq(a, b) && a[0] == b[0] {
        if a[1..] <= b[1..] {
          assert a == [a[0]] + a[1..] && b == [b[0]] + b[1..];
        } else {
          var k: nat :| k < |a[1..]| && k < |b[1..]| && a[1..][..k] == b[1..][..k] && a[1..][k] < b[1..][k];
          assert a[..k + 1] == [a[0]] + a[1..][..k] && b[..k + 1] == [b[0]] + b[1..][..k];
          assert a[k + 1] < b[k + 1];
        }
      } else if Leq(a, b) {
        assert a[..0] == b[..0] && a[0] < b[0];
      }
      if Precedes(a, b) && a[0] == b[0] {
        if a <= b {
          assert a[1..] <= b[1..];
        } else {
          var k: nat :| k < |a| && k < |b| && a[..k] == b[..k] && a[k] < b[k];
          assert a[1..][..k - 1] == a[..k][1..] == b[..k][1..] == b[1..][..k - 1];
          assert a[1..][k - 1] < b[1..][k - 1];
        }
      } else if Precedes(a, b) && !(a <= b) {
        var k: nat :| k < |a| && k < |b| && a[..k] == b[..k] && a[k] < b[k];
        assert k > 0 ==> a[0] == a[..k][0] == b[..k][0];
      }
    }
  }

  predicate AllFrom(es: seq<(bytes, bytes)>, kvs: seq<(bytes, bytes)>, ipc: bool, net: bool) {
    |es| == |kvs| && forall i :: 0 <= i < |kvs| ==> Entry(kvs[i], ipc, net) == Ok(es[i])
  }

  lemma FromWithout(es: seq<(bytes, bytes)>, kvs: seq<(bytes, bytes)>, j: nat, ipc: bool, net: bool)
    requires AllFrom(es, kvs, ipc, net) && j < |es|
    ensures AllFrom(es[..j] + es[j + 1..], kvs[..j] + kvs[j + 1..], ipc, net)
    ensures Entry(kvs[j], ipc, net) == Ok(es[j])
  {
    hide Entry;
    var (fs, ls) := (es[..j] + es[j + 1..], kvs[..j] + kvs[j + 1..]);
    forall i | 0 <= i < |ls|
      ensures Entry(ls[i], ipc, net) == Ok(fs[i])
    {
      assert ls[i] == if i < j then kvs[i] else kvs[i + 1];
    }
  }

  lemma FromWith(
    f: (bytes, bytes), fs: seq<(bytes, bytes)>, l: (bytes, bytes), ls: seq<(bytes, bytes)>, ipc: bool, net: bool)
    requires AllFrom(fs, ls, ipc, net) && Entry(l, ipc, net) == Ok(f)
    ensures AllFrom([f] + fs, [l] + ls, ipc, net)
  {
    hide Entry;
  }

  /** A permutation of the entries comes from one of the table. */
  lemma {:induction false} Aligned(
    es: seq<(bytes, bytes)>, fs: seq<(bytes, bytes)>, kvs: seq<(bytes, bytes)>, ipc: bool, net: bool)
    returns (ls: seq<(bytes, bytes)>)
    requires AllFrom(es, kvs, ipc, net) && multiset(fs) == multiset(es)
    ensures multiset(ls) == multiset(kvs) && AllFrom(fs, ls, ipc, net)
    decreases |fs|
  {
    hide AllFrom;
    assert |es| == |kvs| by { SameLength(es, kvs, ipc, net); }
    if fs == [] {
      assert |es| == |multiset(es)| == 0;
      ls := kvs;
      assert es == fs;
    } else {
      var j := FindIn(fs, es, 0);
      FromWithout(es, kvs, j, ipc, net);
      assert fs[..0] + fs[1..] == fs[1..];
      var rest := Aligned(es[..j] + es[j + 1..], fs[1..], kvs[..j] + kvs[j + 1..], ipc, net);
      Restored(kvs, j, rest);
      FromWith(fs[0], fs[1..], kvs[j], rest, ipc, net);
      assert [fs[0]] + fs[1..] == fs;
      ls := [kvs[j]] + rest;
    }
  }

  lemma Restored(kvs: seq<(bytes, bytes)>, j: nat, rest: seq<(bytes, bytes)>)
    requires j < |kvs| && multiset(rest) == multiset(kvs[..j] + kvs[j + 1..])
    ensures multiset([kvs[j]] + rest) == multiset(kvs)
  {
    assert kvs == kvs[..j] + [kvs[j]] + kvs[j + 1..];
  }

  lemma SameLength(es: seq<(bytes, bytes)>, kvs: seq<(bytes, bytes)>, ipc: bool, net: bool)
    requires AllFrom(es, kvs, ipc, net)
    ensures |es| == |kvs|
  {
  }

  /** Lines by path, then by value. */
  ghost predicate LinesAscend(lines: seq<bytes>, kvs: seq<(bytes, bytes)>)
    requires |lines| == |kvs| && forall i :: 0 <= i < |lines| ==> LineOf(lines[i], kvs[i])
  {
    forall i, j :: 0 <= i < j < |lines| ==>
      var (a, b) := (PathIn(lines[i], kvs[i]), PathIn(lines[j], kvs[j]));
      if a == b then Precedes(kvs[i].1, kvs[j].1) else Precedes(a, b)
  }

  function PathIn(line: bytes, kv: (bytes, bytes)): bytes
    requires LineOf(line, kv)
  {
    line[..|kv.0|]
  }

  /** The strings of the specification are one line for each sysctl, in ascending order. */
  lemma LinesOf(kvs: seq<(bytes, bytes)>, ipc: bool, net: bool) returns (ls: seq<(bytes, bytes)>)
    requires Translate(kvs, ipc, net).Ok?
    ensures multiset(ls) == multiset(kvs)
    ensures var lines := Translate(kvs, ipc, net).value;
      && |lines| == |ls| && (forall i :: 0 <= i < |ls| ==> LineOf(lines[i], ls[i]))
      && LinesAscend(lines, ls)
  {
    hide Entries, Entry, Sort, PathOf;
    EntriesAre(kvs, ipc, net);
    var es := Entries(kvs, ipc, net).value;
    var fs := Sort(es);
    SortHas(es);
    SortAscends(es);
    ls := Aligned(es, fs, kvs, ipc, net);
    var lines := Translate(kvs, ipc, net).value;
    forall i | 0 <= i < |ls|
      ensures LineOf(lines[i], ls[i]) && PathIn(lines[i], ls[i]) == fs[i].0 && ls[i].1 == fs[i].1
    {
      LineIs(ls[i], fs[i], ipc, net);
    }
    forall i, j | 0 <= i < j < |ls|
      ensures if fs[i].0 == fs[j].0 then Precedes(fs[i].1, fs[j].1) else Precedes(fs[i].0, fs[j].0)
    {
      assert PairLeq(fs[i], fs[j]);
      LeqIff(fs[i].0, fs[j].0);
      LeqIff(fs[i].1, fs[j].1);
    }
  }

  lemma LineIs(kv: (bytes, bytes), e: (bytes, bytes), ipc: bool, net: bool)
    requires Entry(kv, ipc, net) == Ok(e)
    ensures LineOf(Format(e), kv) && PathIn(Format(e), kv) == e.0 && kv.1 == e.1
  {
    hide GoodName, GoodValue, Entry;
    EntryIff(kv, ipc, net);
    var line := Format(e);
    assert |e.0| == |kv.0|;
    assert line[..|kv.0|] == e.0 && line[|kv.0| + 1..] == e.1;
  }

  /** The runtime's own sample. */
  lemma ForwardExample()
    ensures Translate([(Ascii("net.ipv4.ip_forward"), Ascii("1"))], false, true) == Ok([Ascii("net/ipv4/ip_forward=1")])
  {
    hide Translate, LineOf, GoodName, GoodValue;
    var kv := (Ascii("net.ipv4.ip_forward"), Ascii("1"));
    ForwardIsGood();
    AcceptedIff([kv], false, true);
    var r := Translate([kv], false, true);
    assert r.Ok?;
    var ls := LinesOf([kv], false, true);
    assert |ls| == |multiset(ls)| == |multiset([kv])| == 1;
    assert ls[0] in multiset(ls);
    assert ls[0] == kv;
    ForwardLine(r.value[0]);
    assert r.value == [r.value[0]];
  }

  lemma ForwardIsGood()
    ensures GoodName(Ascii("net.ipv4.ip_forward"), false, true) && GoodValue(Ascii("1"))
  {
    var name := Ascii("net.ipv4.ip_forward");
    assert name[..4] == Ascii("net.");
  }

  lemma ForwardLine(line: bytes)
    requires LineOf(line, (Ascii("net.ipv4.ip_forward"), Ascii("1")))
    ensures line == Ascii("net/ipv4/ip_forward=1")
  {
    var name, path := Ascii("net.ipv4.ip_forward"), Ascii("net/ipv4/ip_forward");
    var rel := line[..|name|];
    assert forall i :: 0 <= i < |name| ==> path[i] as char == if name[i] as char == '.' then '/' else name[i] as char;
    assert rel == path;
    assert line == rel + [line[|name|]] + line[|name| + 1..];
    assert [line[|name|]] == Ascii("=");
    assert line[|name| + 1..] == Ascii("1");
    assert line == path + Ascii("=") + Ascii("1");
    WholeLine();
  }

  lemma WholeLine()
    ensures Ascii("net/ipv4/ip_forward=1") == Ascii("net/ipv4/ip_forward") + Ascii("=") + Ascii("1")
  {
    var path := Ascii("net/ipv4/ip_forward");
    assert Ascii("net/ipv4/ip_forward=1") == path + Ascii("=") + Ascii("1");
  }
}
