/** Sysctls from the configuration to the files the init writes: translated by the
    runtime, encoded, decoded by the kernel module, split and written. */
module SysctlPipeline {
  import opened Bytes
  import opened Outcomes
  import opened SysctlWrites
  import opened Sysctl
  import opened SysctlProofs
  import opened KernelFormat
  import opened Setup
  import opened SetupProofs
  import A = AbiFormat
  import R = AbiRoundTrip
  import KernelBounds

  /** This write is a configured sysctl: below /proc/sys, in a namespace the container
      owns, with the configured value. */
  ghost predicate Writes(w: (bytes, bytes), kv: (bytes, bytes), ipc: bool, net: bool) {
    && Entry(kv, ipc, net).Ok?
    && var rel := Entry(kv, ipc, net).value.0;
       && w == (PREFIX + rel + [0], kv.1) && Owned(rel, ipc, net)
       && Resolve(PREFIX + rel) == [PROC, SYS] + Components(rel)
       && Components(rel) != [] && forall c :: c in Components(rel) ==> SysctlProofs.Plain(c)
  }

  lemma EntryWrites(kv: (bytes, bytes), ipc: bool, net: bool)
    requires Entry(kv, ipc, net).Ok?
    ensures var e := Entry(kv, ipc, net).value;
      Split(ToCvec(Format(e))).Some? && Writes(Split(ToCvec(Format(e))).value, kv, ipc, net)
  {
    hide Split, Owned, Components, Resolve, RelPath;
    EntrySplits(kv, ipc, net);
    BelowProcSys(kv.0);
    assert Entry(kv, ipc, net).value.1 == kv.1;
  }

  /** The entries of a translation are the map's, in some order. */
  lemma Translated(kvs: seq<(bytes, bytes)>, ipc: bool, net: bool, i: nat) returns (j: nat)
    requires Translate(kvs, ipc, net).Ok? && i < |kvs|
    ensures |Translate(kvs, ipc, net).value| == |kvs| && j < |kvs|
    ensures Entry(kvs[j], ipc, net).Ok? && Translate(kvs, ipc, net).value[i] == Format(Entry(kvs[j], ipc, net).value)
  {
    hide Entry, Sort;
    EntriesAre(kvs, ipc, net);
    var es := Entries(kvs, ipc, net).value;
    SortHas(es);
    assert Sort(es)[i] in multiset(Sort(es));
    j :| 0 <= j < |es| && es[j] == Sort(es)[i];
  }

  lemma TranslatedAll(kvs: seq<(bytes, bytes)>, ipc: bool, net: bool, j: nat) returns (i: nat)
    requires Translate(kvs, ipc, net).Ok? && j < |kvs|
    ensures |Translate(kvs, ipc, net).value| == |kvs| && i < |kvs|
    ensures Entry(kvs[j], ipc, net).Ok? && Translate(kvs, ipc, net).value[i] == Format(Entry(kvs[j], ipc, net).value)
  {
    hide Entry, Sort;
    EntriesAre(kvs, ipc, net);
    var es := Entries(kvs, ipc, net).value;
    SortHas(es);
    assert es[j] in multiset(es);
    i :| 0 <= i < |es| && Sort(es)[i] == es[j];
  }

  const NS_IPC := 0x0800_0000
  const NS_NET := 0x4000_0000

  /** A specification with translated sysctls that the kernel module has taken. */
  ghost predicate Taken(kvs: seq<(bytes, bytes)>, ipc: bool, net: bool, spec: A.DomainSpec, args: ContainerArgs) {
    && ipc == BitSet(spec.namespaces, NS_IPC) && net == BitSet(spec.namespaces, NS_NET)
    && Translate(kvs, ipc, net) == Ok(spec.sysctls)
    && R.RustStrings(spec) && A.Encode(spec, A.Create).Ok?
    && CreateFromBlob(A.Encode(spec, A.Create).value) == Ok(args)
  }

  lemma TakenSysctls(kvs: seq<(bytes, bytes)>, ipc: bool, net: bool, spec: A.DomainSpec, args: ContainerArgs)
    requires Taken(kvs, ipc, net, spec, args)
    ensures |spec.sysctls| == |kvs| && args.sysctls == ToCvecs(Clip(spec.sysctls, 31))
  {
    hide A.Encode, CreateFromBlob, R.RustStrings, Entry, Sort;
    KernelBounds.KernelTakesEncoded(spec);
    EntriesAre(kvs, ipc, net);
  }

  /** The container is cloned into the namespaces its sysctls were checked against. */
  lemma NamespacesHeld(kvs: seq<(bytes, bytes)>, ipc: bool, net: bool, spec: A.DomainSpec, args: ContainerArgs)
    requires Taken(kvs, ipc, net, spec, args)
    ensures ipc ==> BitSet(args.namespaces, NS_IPC)
    ensures net ==> BitSet(args.namespaces, NS_NET)
  {
    hide A.Encode, CreateFromBlob, R.RustStrings, Translate;
    KernelBounds.KernelTakesEncoded(spec);
  }

  /** Translated sysctls are text if the values are. */
  lemma TranslatedIsText(kvs: seq<(bytes, bytes)>, ipc: bool, net: bool, i: nat)
    requires Translate(kvs, ipc, net).Ok? && i < |Translate(kvs, ipc, net).value|
    requires forall j :: 0 <= j < |kvs| ==> ValidUtf8(kvs[j].1)
    ensures ValidUtf8(Translate(kvs, ipc, net).value[i])
  {
    hide ValidUtf8, Split, Entry, Sort;
    EntriesAre(kvs, ipc, net);
    var j := Translated(kvs, ipc, net, i);
    EntryIsText(kvs[j], ipc, net);
  }

  lemma EntryIsText(kv: (bytes, bytes), ipc: bool, net: bool)
    requires Entry(kv, ipc, net).Ok? && ValidUtf8(kv.1)
    ensures ValidUtf8(Format(Entry(kv, ipc, net).value))
  {
    hide ValidUtf8;
    RelPathIff(kv.0);
    var e := Entry(kv, ipc, net).value;
    AsciiText(e.0 + [EQUALS], e.1);
  }

  lemma {:induction false} AsciiText(a: bytes, s: bytes)
    requires ValidUtf8(s) && forall i :: 0 <= i < |a| ==> a[i] < 0x80
    ensures ValidUtf8(a + s)
  {
    if a == [] {
      assert a + s == s;
    } else {
      assert (a + s)[1..] == a[1..] + s;
      AsciiText(a[1..], s);
    }
  }

  /** Every entry the kernel decodes writes one configured sysctl. */
  lemma EachEntryIsConfigured(
    kvs: seq<(bytes, bytes)>, ipc: bool, net: bool, spec: A.DomainSpec, args: ContainerArgs, i: nat)
    returns (j: nat)
    requires Taken(kvs, ipc, net, spec, args) && i < |args.sysctls|
    ensures |args.sysctls| == |Clip(kvs, 31)| && j < |kvs|
    ensures Split(args.sysctls[i]).Some? && Writes(Split(args.sysctls[i]).value, kvs[j], ipc, net)
  {
    TakenSysctls(kvs, ipc, net, spec, args);
    hide Translate, Taken, Entry, Split, Writes;
    j := TakenFrom(kvs, ipc, net, spec, args, i);
    EntryWrites(kvs[j], ipc, net);
  }

  lemma TakenFrom(kvs: seq<(bytes, bytes)>, ipc: bool, net: bool, spec: A.DomainSpec, args: ContainerArgs, i: nat)
    returns (j: nat)
    requires Taken(kvs, ipc, net, spec, args) && i < |kvs|
    ensures j < |kvs| && Entry(kvs[j], ipc, net).Ok? && i < |spec.sysctls|
    ensures spec.sysctls[i] == Format(Entry(kvs[j], ipc, net).value)
  {
    hide A.Encode, CreateFromBlob, R.RustStrings, Entry, Translate;
    j := Translated(kvs, ipc, net, i);
  }

  /** With no more than 31 sysctls, each of them reaches the kernel. */
  lemma EachSysctlArrives(
    kvs: seq<(bytes, bytes)>, ipc: bool, net: bool, spec: A.DomainSpec, args: ContainerArgs, j: nat)
    returns (i: nat)
    requires Taken(kvs, ipc, net, spec, args) && j < |kvs| <= 31
    ensures i < |args.sysctls| && Split(args.sysctls[i]).Some? && Writes(Split(args.sysctls[i]).value, kvs[j], ipc, net)
  {
    TakenSysctls(kvs, ipc, net, spec, args);
    hide A.Encode, CreateFromBlob, R.RustStrings, Translate, Entry, Split, Writes;
    i := TranslatedAll(kvs, ipc, net, j);
    EntryWrites(kvs[j], ipc, net);
  }

  // ------------------------------------------------------------ the writes

  predicate WritesFile(a: Act) {
    a.Act? && (a.call.WriteFile? || (a.reaction.OnFailure? && a.reaction.other.WriteFile?)
               || (a.reaction.OnSuccess? && a.reaction.next.WriteFile?))
  }

  predicate Comes(a: Act, sysctls: seq<bytes>) {
    WritesFile(a) ==> exists i :: 0 <= i < |sysctls| && a in SysctlActs(sysctls[i])
  }

  predicate NoFile(acts: seq<Act>) {
    forall x :: x in acts ==> !WritesFile(x)
  }

  lemma {:induction false} EachNoFile<T>(acts: T -> seq<Act>, items: seq<T>)
    requires forall i :: 0 <= i < |items| ==> NoFile(acts(items[i]))
    ensures NoFile(Each(acts, items))
  {
    if items != [] {
      EachNoFile(acts, items[..|items| - 1]);
      assert NoFile(acts(items[|items| - 1]));
    }
  }

  lemma StageFiles(a: ContainerArgs, k: nat, x: Act)
    requires k < 14 && x in Stages(a)[k]
    ensures Comes(x, a.sysctls)
  {
    hide Stages, Each, SysctlActs;
    if k < 5 {
      StagesBegin(a);
    } else if k == 7 {
      StagesMiddle(a);
      var i := EachFrom(SysctlActs, a.sysctls, x);
    } else if k < 11 {
      StagesMiddle(a);
      EachNoFile(MountActs, a.mounts);
      EachNoFile(CallAct, DefaultDevices());
      EachNoFile(MaskActs, a.masked);
      EachNoFile(ReadonlyActs, a.readonly);
      EachNoFile(RlimitActs, a.rlimits);
    } else {
      StagesEnd(a);
    }
  }

  /** Whatever an init that execs has written to a file was a configured sysctl. */
  lemma OnlySysctlsWritten(
    kvs: seq<(bytes, bytes)>, ipc: bool, net: bool, spec: A.DomainSpec, args: ContainerArgs, answers: Answers, n: nat)
    returns (j: nat)
    requires Taken(kvs, ipc, net, spec, args) && Executed(Trace(args, false, answers))
    requires n < |Trace(args, false, answers)| && Trace(args, false, answers)[n].call.WriteFile?
    ensures var c := Trace(args, false, answers)[n].call;
      j < |kvs| && Writes((c.path, c.data), kvs[j], ipc, net)
  {
    hide Taken, Play, Join, Stages, Split, Writes;
    PlanEnds(args, false, answers);
    PlayedOut(Join(Stages(args)), answers, []);
    var c := Trace(args, false, answers)[n].call;
    var x :| x in Join(Stages(args)) && Mentions(x, c);
    var k := JoinFrom(Stages(args), x);
    StageFiles(args, k, x);
    var i :| 0 <= i < |args.sysctls| && x in SysctlActs(args.sysctls[i]);
    j := EachEntryIsConfigured(kvs, ipc, net, spec, args, i);
  }

  /** And every configured sysctl, up to 31 of them, was written. */
  lemma EverySysctlWritten(
    kvs: seq<(bytes, bytes)>, ipc: bool, net: bool, spec: A.DomainSpec, args: ContainerArgs, answers: Answers, j: nat)
    returns (n: nat)
    requires Taken(kvs, ipc, net, spec, args) && Executed(Trace(args, false, answers))
    requires j < |kvs| <= 31
    ensures n < |Trace(args, false, answers)|
    ensures var c := Trace(args, false, answers)[n].call;
      c.WriteFile? && Writes((c.path, c.data), kvs[j], ipc, net)
  {
    hide Taken, Play, Join, Stages, Each, Split, Writes;
    PlanEnds(args, false, answers);
    PlayedOut(Join(Stages(args)), answers, []);
    var i := EachSysctlArrives(kvs, ipc, net, spec, args, j);
    var w := Split(args.sysctls[i]).value;
    var x := Act(WriteFile(w.0, w.1), Ignore);
    EachHas(SysctlActs, args.sysctls, i, x);
    StagesMiddle(args);
    InJoin(Stages(args), 7, x);
    assert Performed(x, Trace(args, false, answers), 0);
    n :| 0 <= n < |Trace(args, false, answers)| && Trace(args, false, answers)[n].call == x.call;
  }

  // ------------------------------------------------- the value last written

  /** The entries of the specification, before they are formatted. */
  function SortedEntries(kvs: seq<(bytes, bytes)>, ipc: bool, net: bool): seq<(bytes, bytes)>
    requires Entries(kvs, ipc, net).Ok?
  {
    Sort(Entries(kvs, ipc, net).value)
  }

  /** Sorting puts each sysctl somewhere, and only sysctls. */
  lemma SortedAre(kvs: seq<(bytes, bytes)>, ipc: bool, net: bool)
    requires Entries(kvs, ipc, net).Ok?
    ensures var es := SortedEntries(kvs, ipc, net);
      && |es| == |kvs| && Ascending(es)
      && (forall j :: 0 <= j < |kvs| ==> Entry(kvs[j], ipc, net).Ok? && Entry(kvs[j], ipc, net).value in es)
      && (forall i :: 0 <= i < |es| ==> exists j :: 0 <= j < |kvs| && Entry(kvs[j], ipc, net) == Ok(es[i]))
  {
    hide Entry, Sort, Ascending;
    EntriesAre(kvs, ipc, net);
    var es := Entries(kvs, ipc, net).value;
    SortHas(es);
    SortAscends(es);
    var sorted := Sort(es);
    forall j | 0 <= j < |kvs|
      ensures Entry(kvs[j], ipc, net).Ok? && Entry(kvs[j], ipc, net).value in sorted
    {
      assert es[j] in multiset(es);
    }
    forall i | 0 <= i < |sorted|
      ensures exists j :: 0 <= j < |kvs| && Entry(kvs[j], ipc, net) == Ok(sorted[i])
    {
      assert sorted[i] in multiset(sorted);
      var j :| 0 <= j < |es| && es[j] == sorted[i];
    }
  }

  function PathOf(rel: bytes): bytes {
    PREFIX + rel + [0]
  }

  lemma PathsDiffer(a: bytes, b: bytes)
    requires PathOf(a) == PathOf(b)
    ensures a == b
  {
    assert PathOf(a)[|PREFIX|..|PathOf(a)| - 1] == a && PathOf(b)[|PREFIX|..|PathOf(b)| - 1] == b;
  }

  /** The kernel splits the `i`-th entry into its path and value. */
  lemma EntryArrives(kvs: seq<(bytes, bytes)>, ipc: bool, net: bool, spec: A.DomainSpec, args: ContainerArgs, i: nat)
    requires Taken(kvs, ipc, net, spec, args) && i < |kvs| <= 31
    ensures Entries(kvs, ipc, net).Ok? && |args.sysctls| == |kvs| && i < |SortedEntries(kvs, ipc, net)|
    ensures var e := SortedEntries(kvs, ipc, net)[i];
      Split(args.sysctls[i]) == Some((PathOf(e.0), e.1))
  {
    hide A.Encode, CreateFromBlob, R.RustStrings, Entries, Entry, Sort, Split, Format, Ascending;
    TakenSysctls(kvs, ipc, net, spec, args);
    SortedAre(kvs, ipc, net);
    var es := SortedEntries(kvs, ipc, net);
    var j :| 0 <= j < |kvs| && Entry(kvs[j], ipc, net) == Ok(es[i]);
    EntrySplits(kvs[j], ipc, net);
  }

  /** No write to this path comes later. */
  ghost predicate LastWrite(t: seq<Event>, path: bytes, n: nat) {
    && n < |t| && t[n].call.WriteFile? && t[n].call.path == path
    && forall m :: n < m < |t| && t[m].call.WriteFile? ==> t[m].call.path != path
  }

  /** The last entry with a path makes the last write to it. */
  lemma EntryWritesLast(args: ContainerArgs, answers: Answers, i: nat) returns (n: nat)
    requires Executed(Trace(args, false, answers)) && i < |args.sysctls| && Split(args.sysctls[i]).Some?
    requires forall j :: i < j < |args.sysctls| && Split(args.sysctls[j]).Some? ==>
      Split(args.sysctls[j]).value.0 != Split(args.sysctls[i]).value.0
    ensures LastWrite(Trace(args, false, answers), Split(args.sysctls[i]).value.0, n)
    ensures Trace(args, false, answers)[n].call.data == Split(args.sysctls[i]).value.1
  {
    hide Play, Join, Stages, Each, Split, Trace, Executed;
    var t := Trace(args, false, answers);
    var w := Split(args.sysctls[i]).value;
    StagesMiddle(args);
    WithinStage(args, answers, 7, SysctlActs, args.sysctls, i);
    var before := Before(args, answers, 7, SysctlActs, args.sysctls, i);
    PlayOne(Act(WriteFile(w.0, w.1), Ignore), answers, before);
    var after := Play(SysctlActs(args.sysctls[i]), answers, before).0;
    n := |before|;
    assert t[n] == after[n];
    var rest := args.sysctls[i + 1..];
    PlayedOut(Each(SysctlActs, rest), answers, after);
    forall m | n < m < |t| && t[m].call.WriteFile?
      ensures t[m].call.path != w.0
    {
      var k := FileStage(args, answers, m);
      var all := Upto(Stages(args), 8, answers).0;
      assert t[m] == all[m] && Planned(Each(SysctlActs, rest), all[m].call);
      var x :| x in Each(SysctlActs, rest) && Mentions(x, all[m].call);
      var j := EachFrom(SysctlActs, rest, x);
      assert rest[j] == args.sysctls[i + 1 + j];
    }
  }

  /** Every file is written before the eighth stage. */
  lemma FileStage(args: ContainerArgs, answers: Answers, m: nat) returns (k: nat)
    requires Executed(Trace(args, false, answers)) && m < |Trace(args, false, answers)|
    requires Trace(args, false, answers)[m].call.WriteFile?
    ensures k == 7 && m < |Upto(Stages(args), 8, answers).0|
  {
    hide Play, Join, Stages;
    PlanEnds(args, false, answers);
    UptoAll(Stages(args), answers);
    k := StageOf(args, answers, m, 14);
  }

  lemma {:induction false} LastIndex(es: seq<(bytes, bytes)>, rel: bytes, i: nat) returns (l: nat)
    requires i < |es| && es[i].0 == rel
    ensures i <= l < |es| && es[l].0 == rel && forall j :: l < j < |es| ==> es[j].0 != rel
    decreases |es| - i
  {
    if j :| i < j < |es| && es[j].0 == rel {
      l := LastIndex(es, rel, j);
    } else {
      l := i;
    }
  }

  /** No other sysctl of the same file has a greater value. */
  ghost predicate Tops(kvs: seq<(bytes, bytes)>, j: nat)
    requires j < |kvs|
  {
    forall i :: 0 <= i < |kvs| && Slashed(kvs[i].0) == Slashed(kvs[j].0) ==> Leq(kvs[i].1, kvs[j].1)
  }

  /** Of several sysctls of one file the greatest value is written last. */
  lemma GreatestIsLast(kvs: seq<(bytes, bytes)>, ipc: bool, net: bool, j: nat) returns (l: nat)
    requires Entries(kvs, ipc, net).Ok? && j < |kvs|
    ensures var es := SortedEntries(kvs, ipc, net);
      && l < |es| && es[l].0 == Slashed(kvs[j].0)
      && (forall i :: l < i < |es| ==> es[i].0 != Slashed(kvs[j].0))
      && (es[l].1 == kvs[j].1 <==> Tops(kvs, j))
  {
    hide Entries, Sort, Leq, Slashed, Entry;
    SortedAre(kvs, ipc, net);
    var es := SortedEntries(kvs, ipc, net);
    forall i | 0 <= i < |kvs|
      ensures Entry(kvs[i], ipc, net) == Ok((Slashed(kvs[i].0), kvs[i].1))
    {
      EntryIs(kvs[i], ipc, net);
    }
    var mine := (Slashed(kvs[j].0), kvs[j].1);
    var at :| 0 <= at < |es| && es[at] == mine;
    l := LastIndex(es, mine.0, at);
    forall x | 0 <= x < |es| && es[x].0 == mine.0
      ensures Leq(es[x].1, es[l].1)
    {
      AscendingTo(es, x, l);
    }
    if es[l].1 == mine.1 {
      forall i | 0 <= i < |kvs| && Slashed(kvs[i].0) == mine.0
        ensures Leq(kvs[i].1, mine.1)
      {
        var x :| 0 <= x < |es| && es[x] == (Slashed(kvs[i].0), kvs[i].1);
        assert es[x].0 == mine.0;
      }
    }
    if Tops(kvs, j) {
      var m :| 0 <= m < |kvs| && Entry(kvs[m], ipc, net) == Ok(es[l]);
      assert Slashed(kvs[m].0) == mine.0 && Leq(kvs[m].1, mine.1);
      LeqAntisymmetric(es[l].1, mine.1);
    }
  }

  /** Up to the last of its path, values ascend. */
  lemma AscendingTo(es: seq<(bytes, bytes)>, x: nat, l: nat)
    requires Ascending(es) && x < |es| && l < |es| && es[x].0 == es[l].0
    requires forall j :: l < j < |es| ==> es[j].0 != es[l].0
    ensures Leq(es[x].1, es[l].1)
  {
    hide Leq;
    if x < l {
      assert PairLeq(es[x], es[l]);
    } else {
      LeqTotal(es[l].1, es[l].1);
    }
  }

  lemma EntryIs(kv: (bytes, bytes), ipc: bool, net: bool)
    requires Entry(kv, ipc, net).Ok?
    ensures Entry(kv, ipc, net) == Ok((Slashed(kv.0), kv.1))
  {
    hide Slashed;
  }

  /** With at most 31 sysctls, the last value an init that execs wrote to the file of a
      sysctl is that sysctl's if and only if no other sysctl of the same file has a
      greater one. Failed writes are writes here: the code goes on after them. */
  lemma ValueLastWritten(
    kvs: seq<(bytes, bytes)>, ipc: bool, net: bool, spec: A.DomainSpec, args: ContainerArgs, answers: Answers, j: nat)
    returns (n: nat)
    requires Taken(kvs, ipc, net, spec, args) && Executed(Trace(args, false, answers))
    requires j < |kvs| <= 31
    ensures LastWrite(Trace(args, false, answers), PathOf(Slashed(kvs[j].0)), n)
    ensures Trace(args, false, answers)[n].call.data == kvs[j].1 <==> Tops(kvs, j)
  {
    hide Taken, Trace, Executed, Split, Sort, Entries, Tops, LastWrite, Slashed, PathOf;
    EntryArrives(kvs, ipc, net, spec, args, j);
    var es := SortedEntries(kvs, ipc, net);
    var l := GreatestIsLast(kvs, ipc, net, j);
    SortedAre(kvs, ipc, net);
    forall i | 0 <= i < |es|
      ensures Split(args.sysctls[i]) == Some((PathOf(es[i].0), es[i].1))
    {
      EntryArrives(kvs, ipc, net, spec, args, i);
    }
    forall i | l < i < |args.sysctls|
      ensures Split(args.sysctls[i]).value.0 != Split(args.sysctls[l]).value.0
    {
      if PathOf(es[i].0) == PathOf(es[l].0) {
        PathsDiffer(es[i].0, es[l].0);
        assert false;
      }
    }
    n := EntryWritesLast(args, answers, l);
  }

  /** Sysctls of one file have one value. */
  ghost predicate FilesAgree(kvs: seq<(bytes, bytes)>) {
    forall i, j :: 0 <= i < |kvs| && 0 <= j < |kvs| && Slashed(kvs[i].0) == Slashed(kvs[j].0) ==>
      kvs[i].1 == kvs[j].1
  }

  /** So every sysctl has the last word on its file exactly if sysctls of one file agree,
      as they do when no two names name one file. */
  lemma AllLastIff(kvs: seq<(bytes, bytes)>)
    ensures (forall j :: 0 <= j < |kvs| ==> Tops(kvs, j)) <==> FilesAgree(kvs)
  {
    hide Leq, Slashed;
    if forall j :: 0 <= j < |kvs| ==> Tops(kvs, j) {
      forall i, j | 0 <= i < |kvs| && 0 <= j < |kvs| && Slashed(kvs[i].0) == Slashed(kvs[j].0)
        ensures kvs[i].1 == kvs[j].1
      {
        assert Tops(kvs, i) && Tops(kvs, j);
        LeqAntisymmetric(kvs[i].1, kvs[j].1);
      }
    }
    if FilesAgree(kvs) {
      forall i, j | 0 <= i < |kvs| && 0 <= j < |kvs| && Slashed(kvs[i].0) == Slashed(kvs[j].0)
        ensures Leq(kvs[i].1, kvs[j].1)
      {
        LeqTotal(kvs[i].1, kvs[j].1);
      }
    }
  }

  /** "net.a.b", with this separator in the second place */
  function NetAB(separator: u8): bytes {
    NET + [0x61, separator, 0x62]
  }

  /** Two accepted names can name one file: "net.a.b" and "net.a/b". */
  lemma NamesShareFiles(separator: u8)
    requires Separator(separator)
    ensures Namespaced(NetAB(separator), false, true)
    ensures RelPath(NetAB(separator)) == Ok(Slashed(NET) + [0x61, SLASH, 0x62])
  {
    hide RelPath, Components;
    var name := NetAB(separator);
    RelPathIff(name);
    assert Slashed(name) == Slashed(NET) + [0x61, SLASH, 0x62];
    assert WellSeparated(name);
  }
}
