/** What the kernel does with what userspace encodes, and how much memory decoding
    takes. */
module KernelBounds {
  import opened Bytes
  import opened Outcomes
  import opened Wire
  import opened KernelFormat
  import opened KernelProofs
  import A = AbiFormat
  import AbiProofs
  import R = AbiRoundTrip

  // ------------------------------------------- encoded specifications

  lemma ItemRefused(s: bytes)
    requires MAX_STR < |s| < 0x1_0000_0000
    ensures R.Refuses(GetItem, A.PutString(s))
  {
    hide GetU32, Le4;
    forall rest: bytes
      ensures GetItem(A.PutString(s) + rest).Err?
    {
      assert A.PutString(s) + rest == Le4(|s|) + (s + rest);
      GetPutU32(|s|, s + rest, EINVAL);
    }
  }

  lemma ItemKept(s: bytes)
    requires |s| <= MAX_STR
    ensures Inverts(GetItem, A.PutString(s), s)
  {
    hide GetU32, Le4, Take;
    forall rest: bytes
      ensures GetItem(A.PutString(s) + rest) == Ok((s, rest))
    {
      assert A.PutString(s) + rest == Le4(|s|) + (s + rest);
      GetPutU32(|s|, s + rest, EINVAL);
      TakeAppended(s, rest, EINVAL);
    }
  }

  lemma StringsRefused(items: seq<bytes>)
    requires |items| < 0x1_0000_0000
    requires forall i :: 0 <= i < |items| ==> |items[i]| < 0x1_0000_0000
    requires !R.Short(items)
    ensures GetStrings(A.PutList(A.PutString, items)).Err?
  {
    hide GetU32, GetItem, A.PutString;
    var ps := A.Puts(A.PutString, items);
    var ok: bytes -> bool := s => |s| <= MAX_STR;
    var k := R.FirstBad(ok, items);
    forall i | 0 <= i < k {
      ItemKept(items[i]);
    }
    ItemRefused(items[k]);
    GetPutU32(|items|, Concat(ps), EINVAL);
    assert Concat(ps) + [] == Concat(ps);
    R.ManyRefuses(GetItem, ps, items, [], k);
  }

  lemma MountThen(m: A.Mount, rest: bytes)
    requires |m.destination| < 0x1_0000_0000 && |m.fsType| < 0x1_0000_0000 && |m.source| < 0x1_0000_0000
    ensures if R.ShortMount(m) then GetMount(A.PutMount(m) + rest) == Ok((ToMountSpec(m), rest))
      else GetMount(A.PutMount(m) + rest).Err?
  {
    hide GetItem, GetU64, Le8, A.PutString;
    var r3 := Le8(m.flags) + rest;
    var r2 := A.PutString(m.source) + r3;
    var r1 := A.PutString(m.fsType) + r2;
    assert A.PutMount(m) + rest == A.PutString(m.destination) + r1;
    ItemThen(m.destination, r1);
    ItemThen(m.fsType, r2);
    ItemThen(m.source, r3);
    GetPutU64(m.flags, rest, EINVAL);
  }

  lemma ItemThen(s: bytes, rest: bytes)
    requires |s| < 0x1_0000_0000
    ensures if |s| <= MAX_STR then GetItem(A.PutString(s) + rest) == Ok((s,
      rest)) else GetItem(A.PutString(s) + rest).Err?
  {
    hide GetItem, A.PutString;
    if |s| <= MAX_STR {
      ItemKept(s);
    } else {
      ItemRefused(s);
    }
  }

  lemma MountReads(m: A.Mount)
    requires R.MountText(m)
    ensures if R.ShortMount(m) then Inverts(GetMount, A.PutMount(m), ToMountSpec(m))
      else R.Refuses(GetMount, A.PutMount(m))
  {
    hide GetMount, A.PutMount;
    forall rest: bytes {
      MountThen(m, rest);
    }
  }

  lemma MountsRefused(items: seq<A.Mount>)
    requires |items| < 0x1_0000_0000
    requires forall i :: 0 <= i < |items| ==> R.MountText(items[i])
    requires exists i :: 0 <= i < |items| && !R.ShortMount(items[i])
    ensures GetList(GetMount, A.PutList(A.PutMount, items), MAX_MOUNTS).Err?
  {
    hide GetU32, GetMount, A.PutMount, Inverts, R.Refuses, R.MountText, R.ShortMount, ToMountSpec;
    var ps := A.Puts(A.PutMount, items);
    var k := R.FirstBad(R.ShortMount, items);
    forall i | 0 <= i < k {
      MountReads(items[i]);
    }
    MountReads(items[k]);
    GetPutU32(|items|, Concat(ps), EINVAL);
    assert Concat(ps) + [] == Concat(ps);
    R.ManyRefuses(GetMount, ps, ToMountSpecs(items), [], k);
  }
  lemma TextsBounded(items: seq<bytes>)
    requires R.Texts(items)
    ensures forall i :: 0 <= i < |items| ==> |items[i]| < 0x1_0000_0000
  {
  }

  /** A field the userspace decoder cannot read back is refused by the kernel too. */
  lemma UnreadableRefused(spec: A.DomainSpec, t: u16)
    requires R.Writable(spec) && !R.Readable(spec, t)
    ensures t in KNOWN && A.Present(spec, t) && !Good(t, A.Payload(spec, t))
  {
    hide GetStrings, GetList, A.PutList, R.Short, R.Texts, R.MountText, ValidUtf8;
    match t
    case 11 => TextsBounded(spec.maskedPaths); StringsRefused(spec.maskedPaths); NotShort(spec.maskedPaths);
    case 12 => TextsBounded(spec.readonlyPaths); StringsRefused(spec.readonlyPaths); NotShort(spec.readonlyPaths);
    case 17 => MountsRefused(spec.mounts);
    case 18 => TextsBounded(spec.sysctls); StringsRefused(spec.sysctls); NotShort(spec.sysctls);
    case _ => assert false;
  }

  lemma NotShort(items: seq<bytes>)
    requires !R.Short(items)
    ensures items != []
  {
  }

  /** The kernel's fold over what the encoder emits. */
  lemma EmittedFolds(spec: A.DomainSpec)
    requires R.Writable(spec)
    ensures if R.ShortLists(spec)
      then Fold(DECODER, A.Emit(spec, A.ORDER), {}, DEFAULT).Ok?
        && Images(Fold(DECODER, A.Emit(spec, A.ORDER), {}, DEFAULT).value, R.Canon(spec))
      else Fold(DECODER, A.Emit(spec, A.ORDER), {}, DEFAULT).Err?
  {
    hide Fold, Images, A.Emit, A.Payload, A.Present, R.Writable, R.Readable, R.Canon, R.ShortLists;
    var xs := A.Emit(spec, A.ORDER);
    if R.ShortLists(spec) {
      R.EmittedFolds(spec);
      DefaultImages();
      FoldFollows(A.DEFAULT, DEFAULT, xs, {});
    } else {
      R.ReadableIsShort(spec);
      var t: u16 :| t in A.KNOWN && A.Present(spec, t) && !R.Readable(spec, t);
      UnreadableRefused(spec, t);
      var i := R.EmittedAt(spec, t);
      BadSectionRefused(xs, i);
    }
  }

  lemma DefaultImages()
    ensures Images(DEFAULT, A.DEFAULT)
  {
  }

  lemma BadSectionRefused(xs: seq<Section>, i: nat)
    requires i < |xs| && xs[i].tag in KNOWN && !Good(xs[i].tag, xs[i].payload)
    ensures Fold(DECODER, xs, {}, DEFAULT).Err?
  {
    hide Good, Fold;
    ViewDescribes();
    assert Build(map[]) == DEFAULT;
    FoldIsBuild(VIEW, DECODER, xs, {}, map[]);
  }

  /** Of the buffers the encoder produces for Create, the kernel takes exactly those
      within its own size limit whose unbounded strings are short and that name a
      rootfs and a program; it then starts the container they describe. */
  lemma KernelTakesEncoded(spec: A.DomainSpec)
    requires R.RustStrings(spec) && A.Encode(spec, A.Create).Ok?
    ensures var buf := A.Encode(spec, A.Create).value;
      && (CreateFromBlob(buf).Ok? <==>
            |buf| <= 16384 && R.ShortLists(spec) && AbiProofs.Complete(A.Create, spec))
      && (CreateFromBlob(buf).Ok? ==> CreateFromBlob(buf).value == ArgsOf(R.Canon(spec)))
  {
    hide Fold, A.Emit, A.Encode, DecodeSpec, R.RustStrings, R.ShortLists, R.Writable;
    var buf := A.Encode(spec, A.Create).value;
    var xs := A.Emit(spec, A.ORDER);
    R.EncodedIsWritable(spec, A.Create);
    EncodedMessage(spec);
    if |buf| <= MAX_SPEC {
      EmittedFolds(spec);
      assert buf + [] == buf;
      DecodeFramed(1, xs, []);
    } else {
      TooBig(buf);
    }
  }

  lemma TooBig(buf: bytes)
    requires |buf| > MAX_SPEC
    ensures DecodeSpec(buf).Err?
  {
  }

  lemma EncodedMessage(spec: A.DomainSpec)
    requires A.Encode(spec, A.Create).Ok?
    ensures A.Encode(spec, A.Create).value == Message(1, A.Emit(spec, A.ORDER))
  {
    hide A.Validate, A.Emit;
  }

  // ---------------------------------------------------------- decoded size

  function Total(items: seq<bytes>): nat {
    if items == [] then 0 else |items[0]| + Total(items[1..])
  }

  function MountTotal(items: seq<MountSpec>): nat {
    if items == [] then 0
    else |items[0].destination| + |items[0].fsType| + |items[0].source| + MountTotal(items[1..])
  }

  /** The bytes of every string the record owns, terminators included. */
  function Owned(d: DecodedSpec): nat {
    |d.hostname| + |d.rootfs| + Total(d.argv) + Total(d.envp) + Total(d.masked) + Total(d.readonly)
    + MountTotal(d.mounts) + Total(d.sysctls)
  }

  lemma {:induction false} ManyItemsSize(s: bytes, n: nat)
    requires Many(GetItem, s, n).Ok?
    ensures Total(ToCvecs(Many(GetItem, s, n).value.0)) + |Many(GetItem, s, n).value.1| <= |s|
    decreases n
  {
    hide GetItem;
    if n > 0 {
      var (x, t) := GetItem(s).value;
      ItemSize(s);
      ManyItemsSize(t, n - 1);
      var xs := Many(GetItem, s, n).value.0;
      assert xs[1..] == Many(GetItem, t, n - 1).value.0;
      assert ToCvecs(xs)[1..] == ToCvecs(xs[1..]);
    }
  }

  lemma ItemSize(s: bytes)
    requires GetItem(s).Ok?
    ensures |GetItem(s).value.0| + 4 + |GetItem(s).value.1| == |s|
  {
  }

  lemma {:induction false} ManyMountsSize(s: bytes, n: nat)
    requires Many(GetMount, s, n).Ok?
    ensures MountTotal(Many(GetMount, s, n).value.0) + |Many(GetMount, s, n).value.1| <= |s|
    decreases n
  {
    hide GetMount;
    if n > 0 {
      var (x, t) := GetMount(s).value;
      MountSize(s);
      ManyMountsSize(t, n - 1);
      var xs := Many(GetMount, s, n).value.0;
      assert xs[1..] == Many(GetMount, t, n - 1).value.0;
    }
  }

  lemma MountSize(s: bytes)
    requires GetMount(s).Ok?
    ensures var (m, rest) := GetMount(s).value;
      |m.destination| + |m.fsType| + |m.source| + 17 + |rest| == |s|
  {
    hide GetItem, GetU64;
    ItemSize(s);
    var t := GetItem(s).value.1;
    ItemSize(t);
    var u := GetItem(t).value.1;
    ItemSize(u);
    WordSize(GetItem(u).value.1);
  }

  lemma WordSize(s: bytes)
    ensures GetU64(s, EINVAL).Ok? ==> |GetU64(s, EINVAL).value.1| + 8 == |s|
    ensures GetU32(s, EINVAL).Ok? ==> |GetU32(s, EINVAL).value.1| + 4 == |s|
  {
  }

  lemma RlimitSize(s: bytes)
    ensures GetRlimit(s).Ok? ==> |GetRlimit(s).value.1| + 20 == |s|
  {
    hide GetU32, GetU64;
    if GetRlimit(s).Ok? {
      WordSize(s);
      var t := GetU32(s, EINVAL).value.1;
      WordSize(t);
      WordSize(GetU64(t, EINVAL).value.1);
    }
  }

  lemma {:induction false} TotalPrefix(items: seq<bytes>, k: nat)
    requires k <= |items|
    ensures Total(items[..k]) <= Total(items)
  {
    if k > 0 {
      assert items[..k][1..] == items[1..][..k - 1];
      TotalPrefix(items[1..], k - 1);
    }
  }

  lemma {:induction false} MountTotalPrefix(items: seq<MountSpec>, k: nat)
    requires k <= |items|
    ensures MountTotal(items[..k]) <= MountTotal(items)
  {
    if k > 0 {
      assert items[..k][1..] == items[1..][..k - 1];
      MountTotalPrefix(items[1..], k - 1);
    }
  }

  lemma StringsSize(p: bytes)
    requires GetStrings(p).Ok?
    ensures Total(GetStrings(p).value) <= |p|
  {
    hide GetItem, GetU32;
    WordSize(p);
    var (n, t) := GetU32(p, EINVAL).value;
    ManyItemsSize(t, n);
    var xs := Many(GetItem, t, n).value.0;
    var k := |Clip(xs, MAX_ARGS - 1)|;
    TotalPrefix(ToCvecs(xs), k);
    assert ToCvecs(Clip(xs, MAX_ARGS - 1)) == ToCvecs(xs)[..k];
  }

  lemma MountListSize(p: bytes)
    requires GetList(GetMount, p, MAX_MOUNTS).Ok?
    ensures MountTotal(GetList(GetMount, p, MAX_MOUNTS).value) <= |p|
  {
    hide GetMount, GetU32;
    WordSize(p);
    var (n, t) := GetU32(p, EINVAL).value;
    ManyMountsSize(t, n);
    var xs := Many(GetMount, t, n).value.0;
    MountTotalPrefix(xs, |Clip(xs, MAX_MOUNTS)|);
    assert Clip(xs, MAX_MOUNTS) == xs[..|Clip(xs, MAX_MOUNTS)|];
  }

  lemma ApplySize(d: DecodedSpec, tag: u16, p: bytes)
    requires Apply(d, tag, p).Ok?
    ensures Owned(Apply(d, tag, p).value) <= Owned(d) + |p| + 1
  {
    hide GetStrings, GetList, GetU32, GetU64, Total, MountTotal;
    match tag
    case 3 => StringsSize(p);
    case 4 => StringsSize(p);
    case 11 => StringsSize(p);
    case 12 => StringsSize(p);
    case 17 => MountListSize(p);
    case 18 => StringsSize(p);
    case _ =>
  }

  lemma {:induction false} FoldSize(d: DecodedSpec, xs: seq<Section>, seen: set<u16>)
    requires Fold(DECODER, xs, seen, d).Ok?
    ensures Owned(Fold(DECODER, xs, seen, d).value) <= Owned(d) + |Frame(xs)|
    decreases xs
  {
    hide Apply, Owned;
    if xs != [] {
      var x := xs[0];
      ApplySize(d, x.tag, x.payload);
      FoldSize(Apply(d, x.tag, x.payload).value, xs[1..], Mark(seen, x.tag));
    }
  }

  /** Decoding never owns more bytes of text than it was given, whatever counts and
      lengths the buffer claims. */
  lemma DecodedFits(buf: bytes)
    requires DecodeSpec(buf).Ok?
    ensures Owned(DecodeSpec(buf).value) <= |buf|
  {
    hide DecodeSpec, Fold;
    var op, xs := AcceptedIsMessage(buf);
    FoldSize(DEFAULT, xs, {});
  }

  // ---------------------------------------------------------- decoding work

  /** Each item read takes at least four bytes. */
  ghost predicate Consumes<T, E>(item: bytes -> Parse<T, E>) {
    forall s: bytes :: item(s).Ok? ==> |item(s).value.1| + 4 <= |s|
  }

  lemma {:induction false} TurnsBounded<T, E>(item: bytes -> Parse<T, E>, s: bytes, n: nat)
    requires Consumes(item)
    ensures 4 * Turns(item, s, n) <= |s| + 4
    decreases n
  {
    if n > 0 && item(s).Ok? {
      TurnsBounded(item, item(s).value.1, n - 1);
    }
  }

  lemma ItemsConsume()
    ensures Consumes(GetItem) && Consumes(GetRlimit) && Consumes(GetMount)
  {
    hide GetItem, GetRlimit, GetMount;
    forall s: bytes | GetItem(s).Ok? {
      ItemSize(s);
    }
    forall s: bytes {
      RlimitSize(s);
    }
    forall s: bytes | GetMount(s).Ok? {
      MountSize(s);
    }
  }

  lemma ListTurnsBounded<T>(item: bytes -> Parse<T, Errno>, p: bytes)
    requires Consumes(item)
    ensures 4 * ListTurns(item, p) <= |p|
  {
    hide GetU32, Consumes, Turns;
    WordSize(p);
    if GetU32(p, EINVAL).Ok? {
      TurnsBounded(item, GetU32(p, EINVAL).value.1, GetU32(p, EINVAL).value.0);
    }
  }

  lemma SectionTurnsBounded(tag: u16, p: bytes)
    ensures 4 * SectionTurns(tag, p) <= |p|
  {
    hide ListTurns, Consumes;
    ItemsConsume();
    ListTurnsBounded(GetItem, p);
    ListTurnsBounded(GetRlimit, p);
    ListTurnsBounded(GetMount, p);
  }

  /** Decoding work is bounded by the buffer, not by the counts in it: all list
      loops together take at most one turn for every four bytes, whether or not the
      buffer is accepted. */
  lemma {:induction false} WalkTurnsBounded(s: bytes, n: nat, seen: set<u16>, d: DecodedSpec)
    ensures 4 * WalkTurns(s, n, seen, d) <= |s|
    decreases n
  {
    hide GetSection, Apply, SectionTurns, Put;
    if n > 0 && GetSection(s, EINVAL).Ok? {
      var (x, t) := GetSection(s, EINVAL).value;
      PutGetSection(s, EINVAL);
      SectionTurnsBounded(x.tag, x.payload);
      var r := Apply(d, x.tag, x.payload);
      if r.Ok? {
        WalkTurnsBounded(t, n - 1, Mark(seen, x.tag), r.value);
      }
    }
  }

  /** And so for a whole decoding. */
  lemma DecodeTurnsBounded(buf: bytes)
    ensures 4 * DecodeTurns(buf) <= |buf|
  {
    hide WalkTurns, GetU32, Take;
    if |buf| <= MAX_SPEC && GetHeader(buf).Ok? {
      var (count, r) := GetHeader(buf).value;
      HeaderRest(buf);
      WalkTurnsBounded(r, count, {}, DEFAULT);
    }
  }

  lemma HeaderRest(buf: bytes)
    requires GetHeader(buf).Ok?
    ensures |GetHeader(buf).value.1| <= |buf|
  {
    hide Le4;
    var op := PutGetHeader(buf);
  }
}
