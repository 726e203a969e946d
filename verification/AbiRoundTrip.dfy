/** Encoding and decoding are inverse, exactly where the code makes them so. */
module AbiRoundTrip {
  import opened Bytes
  import opened Outcomes
  import opened Wire
  import opened AbiFormat
  import opened AbiProofs

  // ------------------------------------------------ what can be written

  /** Every text field is a Rust `String`. */
  ghost predicate RustStrings(spec: DomainSpec) {
    && ValidUtf8(spec.rootfs) && ValidUtf8(spec.hostname)
    && (forall s :: s in spec.argv + spec.env ==> ValidUtf8(s))
    && (forall s :: s in Unbounded(spec) ==> ValidUtf8(s))
  }

  /** The strings whose length `validate` leaves alone. */
  function Unbounded(spec: DomainSpec): seq<bytes> {
    spec.maskedPaths + spec.readonlyPaths + spec.sysctls + MountStrings(spec.mounts)
  }

  function MountStrings(ms: seq<Mount>): seq<bytes> {
    if ms == [] then [] else [ms[0].destination, ms[0].fsType, ms[0].source] + MountStrings(ms[1..])
  }

  predicate Short(items: seq<bytes>) {
    forall i :: 0 <= i < |items| ==> |items[i]| <= 4096
  }

  predicate ShortMount(m: Mount) {
    |m.destination| <= 4096 && |m.fsType| <= 4096 && |m.source| <= 4096
  }

  /** What the decoder demands of the fields `validate` does not bound. */
  predicate ShortLists(spec: DomainSpec) {
    && Short(spec.maskedPaths) && Short(spec.readonlyPaths) && Short(spec.sysctls)
    && forall i :: 0 <= i < |spec.mounts| ==> ShortMount(spec.mounts[i])
  }

  /** Capability words are only written when they are marked present. */
  function Canon(spec: DomainSpec): DomainSpec {
    if spec.capsPresent then spec
    else spec.(capBounding := 0, capEffective := 0, capPermitted := 0, capInheritable := 0, capAmbient := 0)
  }

  // ---------------------------------------------------------------- items

  lemma StringReads(s: bytes, what: string, rest: bytes)
    requires ValidUtf8(s) && |s| < 0x1_0000_0000
    ensures GetString(PutString(s) + rest, what, MAX_STR)
         == if |s| <= MAX_STR then Ok((s, rest)) else Err(TooLarge(what, |s|, MAX_STR))
  {
    hide GetU32, Le4, Take, ValidUtf8;
    assert PutString(s) + rest == Le4(|s|) + (s + rest);
    GetPutU32(|s|, s + rest, Truncated);
    TakeAppended(s, rest, Truncated);
  }

  lemma IdMapReads(m: IdMap)
    ensures Inverts(GetIdMap, PutIdMap(m), m)
  {
    hide GetU32, Le4;
    forall rest: bytes
      ensures GetIdMap(PutIdMap(m) + rest) == Ok((m, rest))
    {
      assert PutIdMap(m) + rest == Le4(m.containerId) + (Le4(m.hostId) + (Le4(m.size) + rest));
      GetPutU32(m.containerId, Le4(m.hostId) + (Le4(m.size) + rest), Truncated);
      GetPutU32(m.hostId, Le4(m.size) + rest, Truncated);
      GetPutU32(m.size, rest, Truncated);
    }
  }

  lemma RlimitReads(l: Rlimit)
    ensures Inverts(GetRlimit, PutRlimit(l), l)
  {
    hide GetU32, GetU64, Le4, Le8;
    forall rest: bytes
      ensures GetRlimit(PutRlimit(l) + rest) == Ok((l, rest))
    {
      assert PutRlimit(l) + rest == Le4(l.resource) + (Le8(l.soft) + (Le8(l.hard) + rest));
      GetPutU32(l.resource, Le8(l.soft) + (Le8(l.hard) + rest), Truncated);
      GetPutU64(l.soft, Le8(l.hard) + rest, Truncated);
      GetPutU64(l.hard, rest, Truncated);
    }
  }

  /** `item` refuses what `put` wrote, whatever follows it. */
  ghost predicate Refuses<T, E>(item: bytes -> Parse<T, E>, put: bytes) {
    forall rest: bytes :: item(put + rest).Err?
  }

  lemma ItemReads(s: bytes)
    requires ValidUtf8(s) && |s| < 0x1_0000_0000
    ensures if |s| <= MAX_STR then Inverts(GetItem, PutString(s), s) else Refuses(GetItem, PutString(s))
  {
    hide GetString;
    forall rest: bytes {
      StringReads(s, "string", rest);
    }
  }

  ghost predicate MountText(m: Mount) {
    && ValidUtf8(m.destination) && ValidUtf8(m.fsType) && ValidUtf8(m.source)
    && |m.destination| < 0x1_0000_0000 && |m.fsType| < 0x1_0000_0000 && |m.source| < 0x1_0000_0000
  }

  lemma MountReadsThen(m: Mount, rest: bytes)
    requires MountText(m)
    ensures ShortMount(m) ==> GetMount(PutMount(m) + rest) == Ok((m, rest))
    ensures !ShortMount(m) ==> GetMount(PutMount(m) + rest).Err?
  {
    hide GetString, GetU64, Le8, PutString;
    var r3 := Le8(m.flags) + rest;
    var r2 := PutString(m.source) + r3;
    var r1 := PutString(m.fsType) + r2;
    assert PutMount(m) + rest == PutString(m.destination) + r1;
    StringReads(m.destination, "mount.destination", r1);
    StringReads(m.fsType, "mount.type", r2);
    StringReads(m.source, "mount.source", r3);
    GetPutU64(m.flags, rest, Truncated);
  }

  lemma MountReads(m: Mount)
    requires MountText(m)
    ensures if ShortMount(m) then Inverts(GetMount, PutMount(m), m) else Refuses(GetMount, PutMount(m))
  {
    hide GetMount, PutMount;
    forall rest: bytes {
      MountReadsThen(m, rest);
    }
  }

  // ---------------------------------------------------------------- lists

  lemma {:induction false} ManyRefuses<T, E>(
    item: bytes -> Parse<T, E>, puts: seq<bytes>, xs: seq<T>, rest: bytes, k: nat)
    requires |puts| == |xs| && k < |xs|
    requires forall i :: 0 <= i < k ==> Inverts(item, puts[i], xs[i])
    requires Refuses(item, puts[k])
    ensures Many(item, Concat(puts) + rest, |xs|).Err?
  {
    var tail := Concat(puts[1..]) + rest;
    assert Concat(puts) + rest == puts[0] + tail;
    if k > 0 {
      assert Inverts(item, puts[0], xs[0]);
      ManyRefuses(item, puts[1..], xs[1..], rest, k - 1);
    }
  }

  /** Which items `item` reads back: a decision for every one of them. */
  ghost predicate Decided<T(!new)>(item: bytes -> Parse<T, AbiError>, put: T -> bytes, ok: T -> bool, items: seq<T>) {
    forall i :: 0 <= i < |items| ==>
      if ok(items[i]) then Inverts(item, put(items[i]), items[i]) else Refuses(item, put(items[i]))
  }

  lemma ListReads<T(!new)>(
    item: bytes -> Parse<T, AbiError>, put: T -> bytes, ok: T -> bool, items: seq<T>, what: string, max: nat)
    requires |items| <= max < 0x1_0000_0000
    requires Decided(item, put, ok, items)
    ensures (forall i :: 0 <= i < |items| ==> ok(items[i])) ==>
      GetList(item, PutList(put, items), what, max) == Ok((items, []))
    ensures (exists i :: 0 <= i < |items| && !ok(items[i])) ==>
      GetList(item, PutList(put, items), what, max).Err?
  {
    hide GetU32;
    var ps := Puts(put, items);
    GetPutU32(|items|, Concat(ps), Truncated);
    assert Concat(ps) + [] == Concat(ps);
    if forall i :: 0 <= i < |items| ==> ok(items[i]) {
      ManyReadsBack(item, ps, items, []);
    } else {
      var k := FirstBad(ok, items);
      ManyRefuses(item, ps, items, [], k);
    }
  }

  lemma {:induction false} FirstBad<T>(ok: T -> bool, items: seq<T>) returns (k: nat)
    requires exists i :: 0 <= i < |items| && !ok(items[i])
    ensures k < |items| && !ok(items[k]) && forall i :: 0 <= i < k ==> ok(items[i])
  {
    if !ok(items[0]) {
      k := 0;
    } else {
      var i :| 0 <= i < |items| && !ok(items[i]);
      assert items[1..][i - 1] == items[i];
      k := FirstBad(ok, items[1..]);
      k := k + 1;
      assert forall i :: 0 < i < k ==> items[i] == items[1..][i - 1];
    }
  }

  lemma StringsRead(items: seq<bytes>, what: string, max: nat)
    requires |items| <= max < 0x1_0000_0000
    requires forall i :: 0 <= i < |items| ==> ValidUtf8(items[i]) && |items[i]| < 0x1_0000_0000
    ensures Short(items) ==> GetList(GetItem, PutList(PutString, items), what, max) == Ok((items, []))
    ensures !Short(items) ==> GetList(GetItem, PutList(PutString, items), what, max).Err?
  {
    hide GetList, PutList, GetItem, PutString, ValidUtf8;
    forall i | 0 <= i < |items| {
      ItemReads(items[i]);
    }
    ListReads(GetItem, PutString, s => |s| <= MAX_STR, items, what, max);
  }

  lemma MountsRead(items: seq<Mount>, what: string, max: nat)
    requires |items| <= max < 0x1_0000_0000
    requires forall i :: 0 <= i < |items| ==> MountText(items[i])
    ensures (forall i :: 0 <= i < |items| ==> ShortMount(items[i])) ==>
      GetList(GetMount, PutList(PutMount, items), what, max) == Ok((items, []))
    ensures (exists i :: 0 <= i < |items| && !ShortMount(items[i])) ==>
      GetList(GetMount, PutList(PutMount, items), what, max).Err?
  {
    hide GetList, PutList, GetMount, PutMount, ValidUtf8;
    forall i | 0 <= i < |items| {
      MountReads(items[i]);
    }
    ListReads(GetMount, PutMount, ShortMount, items, what, max);
  }

  lemma IdMapsRead(items: seq<IdMap>, what: string)
    requires |items| <= MAX_MAPS
    ensures GetList(GetIdMap, PutList(PutIdMap, items), what, MAX_MAPS) == Ok((items, []))
  {
    hide GetList, PutList, GetIdMap, PutIdMap;
    forall i | 0 <= i < |items| {
      IdMapReads(items[i]);
    }
    ListReads(GetIdMap, PutIdMap, m => true, items, what, MAX_MAPS);
  }

  lemma RlimitsRead(items: seq<Rlimit>)
    requires |items| <= MAX_RLIMITS
    ensures GetList(GetRlimit, PutList(PutRlimit, items), "rlimits", MAX_RLIMITS) == Ok((items, []))
  {
    hide GetList, PutList, GetRlimit, PutRlimit;
    forall i | 0 <= i < |items| {
      RlimitReads(items[i]);
    }
    ListReads(GetRlimit, PutRlimit, l => true, items, "rlimits", MAX_RLIMITS);
  }

  // ------------------------------------------------------- emitted sections

  lemma {:induction false} EmitHolds(spec: DomainSpec, tags: seq<u16>)
    ensures |Emit(spec, tags)| <= |tags|
    ensures forall x :: x in Emit(spec, tags) ==>
      x.tag in tags && Present(spec, x.tag) && x == Section(x.tag, 0, Payload(spec, x.tag))
    ensures forall t :: t in tags && Present(spec, t) ==> Section(t, 0, Payload(spec, t)) in Emit(spec, tags)
  {
    hide Payload, Present;
    if tags != [] {
      EmitHolds(spec, tags[1..]);
      assert tags == [tags[0]] + tags[1..];
    }
  }

  lemma {:induction false} EmitNoRepeat(spec: DomainSpec, tags: seq<u16>, seen: set<u16>)
    requires forall i, j :: 0 <= i < j < |tags| ==> tags[i] != tags[j]
    requires forall t :: t in tags ==> t !in seen
    ensures NoRepeat(Emit(spec, tags), seen)
  {
    hide Payload, Present, NoRepeat;
    if tags == [] {
      NoRepeatNil(seen);
    } else {
      var t, ts := tags[0], tags[1..];
      assert forall u :: u in ts ==> u in tags;
      assert forall u :: u in ts ==> u != t;
      EmitNoRepeat(spec, ts, Mark(seen, t));
      EmitNoRepeat(spec, ts, seen);
      var xs := Emit(spec, tags);
      if Present(spec, t) {
        assert xs[1..] == Emit(spec, ts);
        NoRepeatCons(xs, seen);
      } else {
        assert xs == Emit(spec, ts);
      }
    }
  }

  lemma NoRepeatNil(seen: set<u16>)
    ensures NoRepeat([], seen)
  {
  }

  /** Where a known tag stands in `ORDER`. */
  function Rank(tag: u16): int {
    if tag <= 9 then tag - 1 else if tag == 15 then 9 else if tag <= 14 then tag - 1 else tag - 2
  }

  /** `order` lists the tags of `known`, each once. */
  ghost predicate Lists(order: seq<u16>, known: set<u16>) {
    && (forall t: u16 :: t in order <==> t in known)
    && (forall i, j :: 0 <= i < j < |order| ==> order[i] != order[j])
    && (forall t :: t in known ==> t < 64)
  }

  lemma OrderIsKnown()
    ensures Lists(ORDER, KNOWN)
  {
    OrderRanks();
    forall i, j | 0 <= i < j < |ORDER|
      ensures ORDER[i] != ORDER[j]
    {
      assert Rank(ORDER[i]) == i && Rank(ORDER[j]) == j;
    }
  }

  lemma OrderRanks()
    ensures forall i :: 0 <= i < |ORDER| ==> Rank(ORDER[i]) == i
    ensures forall t: u16 :: t in ORDER <==> t in KNOWN
  {
    forall i | 0 <= i < |ORDER|
      ensures Rank(ORDER[i]) == i && ORDER[i] in KNOWN
    {
      assert ORDER[0] == 1 && ORDER[1] == 2 && ORDER[2] == 3 && ORDER[3] == 4 && ORDER[4] == 5 && ORDER[5] == 6;
      assert ORDER[6] == 7 && ORDER[7] == 8 && ORDER[8] == 9 && ORDER[9] == 15 && ORDER[10] == 11 && ORDER[11] == 12;
      assert ORDER[12] == 13 && ORDER[13] == 14 && ORDER[14] == 16 && ORDER[15] == 17 && ORDER[16] == 18;
    }
    forall t: u16 | t in KNOWN
      ensures t in ORDER
    {
      assert 0 <= Rank(t) < 17 && ORDER[Rank(t)] == t;
    }
  }

  /** The payload of each emitted section, by tag. */
  function Written(spec: DomainSpec, known: set<u16>): map<u16, bytes> {
    map t | t in known && Present(spec, t) :: Payload(spec, t)
  }

  lemma EmittedAt(spec: DomainSpec, t: u16) returns (i: nat)
    requires t in KNOWN && Present(spec, t)
    ensures i < |Emit(spec, ORDER)| && Emit(spec, ORDER)[i] == Section(t, 0, Payload(spec, t))
  {
    hide Payload, Present;
    var xs := Emit(spec, ORDER);
    OrderIsKnown();
    EmitHolds(spec, ORDER);
    var x := Section(t, 0, Payload(spec, t));
    assert x in xs;
    i :| 0 <= i < |xs| && xs[i] == x;
  }

  lemma EmittedFields(spec: DomainSpec, known: set<u16>, order: seq<u16>)
    requires Lists(order, known)
    ensures NoRepeat(Emit(spec, order), {})
    ensures Fields(known, Emit(spec, order)) == Written(spec, known)
  {
    hide Payload, Present, NoRepeat, Emit, Fields;
    var xs, m := Emit(spec, order), Written(spec, known);
    EmitHolds(spec, order);
    EmitNoRepeat(spec, order, {});
    forall i | 0 <= i < |xs| && xs[i].tag in known
      ensures xs[i].tag in m && m[xs[i].tag] == xs[i].payload
    {
      assert xs[i] in xs;
    }
    FieldsAre(known, xs, m);
  }

  lemma EmittedGood(spec: DomainSpec)
    ensures AllGood(VIEW, Emit(spec, ORDER)) <==>
      forall t: u16 :: t in KNOWN && Present(spec, t) ==> Good(t, Payload(spec, t))
  {
    hide Payload, Present, Good, Emit;
    var xs := Emit(spec, ORDER);
    EmitHolds(spec, ORDER);
    assert forall i :: 0 <= i < |xs| ==> xs[i] in xs;
    forall t: u16 | AllGood(VIEW, xs) && t in KNOWN && Present(spec, t)
      ensures Good(t, Payload(spec, t))
    {
      var i := EmittedAt(spec, t);
    }
  }

  // ------------------------------------------------------------ lossless

  lemma {:induction false} ConcatBounds(parts: seq<bytes>)
    ensures forall i :: 0 <= i < |parts| ==> |parts[i]| <= |Concat(parts)|
  {
    if parts != [] {
      ConcatBounds(parts[1..]);
      assert forall i :: 0 < i < |parts| ==> parts[i] == parts[1..][i - 1];
    }
  }

  lemma ListBounds<T>(put: T -> bytes, items: seq<T>)
    ensures forall i :: 0 <= i < |items| ==> |put(items[i])| <= |PutList(put, items)|
  {
    ConcatBounds(Puts(put, items));
  }

  lemma EmittedBounds(spec: DomainSpec, op: Op)
    requires Encode(spec, op).Ok?
    ensures |Emit(spec, ORDER)| <= 17
    ensures forall t: u16 :: t in KNOWN && Present(spec, t) ==> |Payload(spec, t)| <= MAX_SPEC
  {
    hide Payload, Present, Header, Validate;
    EmitHolds(spec, ORDER);
    FrameBounds(Emit(spec, ORDER));
    forall t: u16 | t in KNOWN && Present(spec, t)
      ensures |Payload(spec, t)| <= MAX_SPEC
    {
      var i := EmittedAt(spec, t);
    }
  }

  lemma StringListBounds(items: seq<bytes>, limit: nat)
    requires items != [] ==> |PutList(PutString, items)| <= limit
    ensures forall s :: s in items ==> |s| <= limit
  {
    hide PutList;
    ListBounds(PutString, items);
  }

  lemma {:induction false} MountStringsBound(ms: seq<Mount>, limit: nat)
    requires forall i :: 0 <= i < |ms| ==> |PutMount(ms[i])| <= limit
    ensures forall s :: s in MountStrings(ms) ==> |s| <= limit
  {
    if ms != [] {
      MountStringsBound(ms[1..], limit);
    }
  }

  lemma {:induction false} MountStringsHold(ms: seq<Mount>, i: nat)
    requires i < |ms|
    ensures ms[i].destination in MountStrings(ms) && ms[i].fsType in MountStrings(ms)
      && ms[i].source in MountStrings(ms)
  {
    if i > 0 {
      MountStringsHold(ms[1..], i - 1);
    } else {
      var three := [ms[0].destination, ms[0].fsType, ms[0].source];
      assert three[0] in three && three[1] in three && three[2] in three;
    }
  }

  lemma StringsBound(spec: DomainSpec, op: Op)
    requires Encode(spec, op).Ok?
    ensures forall s :: s in spec.argv + spec.env ==> |s| <= MAX_SPEC
    ensures forall s :: s in Unbounded(spec) ==> |s| <= MAX_SPEC
  {
    hide Encode, PutList, Emit, PutMount, PutString;
    EmittedBounds(spec, op);
    assert ARGV in KNOWN && ENV in KNOWN && MASKED_PATHS in KNOWN && RO_PATHS in KNOWN && SYSCTLS in KNOWN
      && MOUNTS in KNOWN;
    StringListBounds(spec.argv, MAX_SPEC);
    StringListBounds(spec.env, MAX_SPEC);
    StringListBounds(spec.maskedPaths, MAX_SPEC);
    StringListBounds(spec.readonlyPaths, MAX_SPEC);
    StringListBounds(spec.sysctls, MAX_SPEC);
    ListBounds(PutMount, spec.mounts);
    MountStringsBound(spec.mounts, MAX_SPEC);
  }

  lemma {:induction false} CheckEachOk(what: string, items: seq<bytes>, limit: nat)
    ensures CheckEach(what, items, limit).Ok? <==> forall i :: 0 <= i < |items| ==> |items[i]| <= limit
    ensures CheckEach(what, items, limit).Err? ==>
      CheckEach(what, items, limit).error.TooLarge? && CheckEach(what, items, limit).error.value > limit
      && CheckEach(what, items, limit).error.limit == limit
  {
    if items != [] {
      CheckEachOk(what, items[1..], limit);
      assert forall i :: 0 < i < |items| ==> items[i] == items[1..][i - 1];
    }
  }

  /** The bounds `validate` checks. */
  ghost predicate Bounded(spec: DomainSpec) {
    && |spec.rootfs| <= 4096 && |spec.hostname| <= 4096
    && |spec.argv| <= 1024 && Short(spec.argv) && |spec.env| <= 1024 && Short(spec.env)
    && |spec.uidMaps| <= 340 && |spec.gidMaps| <= 340
    && |spec.maskedPaths| <= 256 && |spec.readonlyPaths| <= 256
    && |spec.rlimits| <= 32 && |spec.mounts| <= 64 && |spec.sysctls| <= 64
  }

  /** Validation accepts exactly what is within the bounds, and blames a length that is
      over its limit. */
  lemma ValidateBounds(spec: DomainSpec)
    ensures Validate(spec).Ok? <==> Bounded(spec)
    ensures Validate(spec).Err? ==> Validate(spec).error.TooLarge?
    ensures Validate(spec).Err? ==> Validate(spec).error.value > Validate(spec).error.limit
  {
    CheckEachOk("arg", spec.argv, MAX_STR);
    CheckEachOk("env-entry", spec.env, MAX_STR);
  }

  /** Every length and count that a successful encoding writes as a `u32` is the
      true one, also where `validate` sets no bound. */
  lemma NoLossyCast(spec: DomainSpec, op: Op)
    requires Encode(spec, op).Ok?
    ensures Cast32(|Emit(spec, ORDER)|) == |Emit(spec, ORDER)|
    ensures forall t: u16 :: t in KNOWN && Present(spec, t) ==> Cast32(|Payload(spec, t)|) == |Payload(spec, t)|
    ensures Cast32(|spec.argv|) == |spec.argv| && Cast32(|spec.env|) == |spec.env|
    ensures Cast32(|spec.uidMaps|) == |spec.uidMaps| && Cast32(|spec.gidMaps|) == |spec.gidMaps|
    ensures Cast32(|spec.maskedPaths|) == |spec.maskedPaths| && Cast32(|spec.readonlyPaths|) == |spec.readonlyPaths|
    ensures Cast32(|spec.rlimits|) == |spec.rlimits| && Cast32(|spec.mounts|) == |spec.mounts|
    ensures Cast32(|spec.sysctls|) == |spec.sysctls|
    ensures forall s :: s in spec.argv + spec.env ==> Cast32(|s|) == |s|
    ensures forall s :: s in Unbounded(spec) ==> Cast32(|s|) == |s|
  {
    hide Emit, Payload, Present, Unbounded, Message, Validate, Short;
    ValidateBounds(spec);
    EmittedBounds(spec, op);
    StringsBound(spec, op);
  }

  // ----------------------------------------------------------- round trip

  /** Whether the decoder accepts what was written for one field. */
  predicate Readable(spec: DomainSpec, tag: u16) {
    match tag
    case 11 => Short(spec.maskedPaths)
    case 12 => Short(spec.readonlyPaths)
    case 17 => forall i :: 0 <= i < |spec.mounts| ==> ShortMount(spec.mounts[i])
    case 18 => Short(spec.sysctls)
    case _ => true
  }

  /** Texts that are `String`s and whose lengths survive the casts. */
  ghost predicate Texts(items: seq<bytes>) {
    forall i :: 0 <= i < |items| ==> ValidUtf8(items[i]) && |items[i]| < 0x1_0000_0000
  }

  ghost predicate Writable(spec: DomainSpec) {
    && Bounded(spec)
    && ValidUtf8(spec.rootfs) && ValidUtf8(spec.hostname)
    && Texts(spec.argv) && Texts(spec.env)
    && Texts(spec.maskedPaths) && Texts(spec.readonlyPaths) && Texts(spec.sysctls)
    && forall i :: 0 <= i < |spec.mounts| ==> MountText(spec.mounts[i])
  }

  lemma EncodedIsWritable(spec: DomainSpec, op: Op)
    requires Encode(spec, op).Ok? && RustStrings(spec)
    ensures Writable(spec)
  {
    hide ValidUtf8, Emit, Message, Short;
    ValidateBounds(spec);
    StringsBound(spec, op);
    hide Validate;
    forall items | items in {spec.argv, spec.env, spec.maskedPaths, spec.readonlyPaths, spec.sysctls}
      ensures Texts(items)
    {
      forall i | 0 <= i < |items|
        ensures ValidUtf8(items[i]) && |items[i]| < 0x1_0000_0000
      {
        var s := items[i];
        assert s in items;
        assert s in spec.argv + spec.env || s in Unbounded(spec);
      }
    }
    forall i | 0 <= i < |spec.mounts|
      ensures MountText(spec.mounts[i])
    {
      MountStringsHold(spec.mounts, i);
    }
  }

  lemma CapSetsRead(a: u64, b: u64, c: u64, d: u64)
    ensures Apply(DEFAULT, CAP_SETS, Le8(a) + Le8(b) + Le8(c) + Le8(d))
         == Ok(DEFAULT.(capEffective := a, capPermitted := b, capInheritable := c, capAmbient := d))
  {
    hide GetU64, Le8;
    var p := Le8(a) + Le8(b) + Le8(c) + Le8(d);
    assert p == Le8(a) + (Le8(b) + (Le8(c) + (Le8(d) + [])));
    GetPutU64(a, Le8(b) + (Le8(c) + (Le8(d) + [])), Truncated);
    GetPutU64(b, Le8(c) + (Le8(d) + []), Truncated);
    GetPutU64(c, Le8(d) + [], Truncated);
    GetPutU64(d, [], Truncated);
  }

  lemma UserReads(a: u32, b: u32)
    ensures Apply(DEFAULT, USER, Le4(a) + Le4(b)) == Ok(DEFAULT.(uid := a, gid := b))
  {
    hide GetU32, Le4;
    assert Le4(a) + Le4(b) == Le4(a) + (Le4(b) + []);
    GetPutU32(a, Le4(b) + [], Truncated);
    GetPutU32(b, [], Truncated);
  }

  lemma WordReads(v: u32, w: u64)
    ensures GetU32(Le4(v), Truncated) == Ok((v, []))
    ensures GetU64(Le8(w), Truncated) == Ok((w, []))
  {
    assert Le4(v) + [] == Le4(v) && Le8(w) + [] == Le8(w);
    GetPutU32(v, [], Truncated);
    GetPutU64(w, [], Truncated);
  }

  lemma SignRoundTrip(v: i32)
    ensures U32AsI32(I32AsU32(v)) == v
  {
  }

  /** Every field is read back from its own section, if it is readable. */
  lemma FieldReads(spec: DomainSpec, t: u16)
    requires Writable(spec) && t in KNOWN && Present(spec, t)
    ensures Good(t, Payload(spec, t)) <==> Readable(spec, t)
    ensures Readable(spec, t) ==> Set(DEFAULT, t, One(t, Payload(spec, t))) == Set(DEFAULT, t, Canon(spec))
  {
    hide GetU32, GetU64, GetList, Le4, Le8, PutList, ValidUtf8, Short, MountText;
    match t
    case 1 => case 2 =>
    case 3 => StringsRead(spec.argv, "argv", MAX_ARGV);
    case 4 => StringsRead(spec.env, "env", MAX_ENV);
    case 5 => WordReads(spec.namespaces, 0);
    case 6 => IdMapsRead(spec.uidMaps, "uid_maps");
    case 7 => IdMapsRead(spec.gidMaps, "gid_maps");
    case 8 => WordReads(0, spec.flags);
    case 9 => WordReads(0, spec.capBounding);
    case 11 => StringsRead(spec.maskedPaths, "masked_paths", MAX_PATHS);
    case 12 => StringsRead(spec.readonlyPaths, "readonly_paths", MAX_PATHS);
    case 13 => RlimitsRead(spec.rlimits);
    case 14 => WordReads(I32AsU32(spec.oomScoreAdj.value), 0); SignRoundTrip(spec.oomScoreAdj.value);
    case 15 => CapSetsRead(spec.capEffective, spec.capPermitted, spec.capInheritable, spec.capAmbient);
    case 16 => UserReads(spec.uid, spec.gid);
    case 17 => MountsRead(spec.mounts, "mounts", MAX_MOUNTS);
    case 18 => StringsRead(spec.sysctls, "sysctls", MAX_SYSCTLS);
    case _ => assert false;
  }

  lemma AbsentIsDefault(spec: DomainSpec, t: u16)
    requires t in KNOWN && !Present(spec, t)
    ensures Set(DEFAULT, t, Canon(spec)) == Set(DEFAULT, t, DEFAULT)
  {
    match t
    case 1 => case 2 => case 3 => case 4 => case 5 => case 6 =>
    case 7 => case 8 => case 9 => case 11 => case 12 => case 13 =>
    case 14 => case 15 => case 16 => case 17 => case 18 =>
    case _ => assert false;
  }

  /** The fields a tag carries are the same. */
  predicate SameField(t: u16, a: DomainSpec, b: DomainSpec) {
    match t
    case 1 => a.rootfs == b.rootfs
    case 2 => a.hostname == b.hostname
    case 3 => a.argv == b.argv
    case 4 => a.env == b.env
    case 5 => a.namespaces == b.namespaces
    case 6 => a.uidMaps == b.uidMaps
    case 7 => a.gidMaps == b.gidMaps
    case 8 => a.flags == b.flags
    case 9 => a.capsPresent == b.capsPresent && a.capBounding == b.capBounding
    case 11 => a.maskedPaths == b.maskedPaths
    case 12 => a.readonlyPaths == b.readonlyPaths
    case 13 => a.rlimits == b.rlimits
    case 14 => a.oomScoreAdj == b.oomScoreAdj
    case 15 => a.capEffective == b.capEffective && a.capPermitted == b.capPermitted
      && a.capInheritable == b.capInheritable && a.capAmbient == b.capAmbient
    case 16 => a.uid == b.uid && a.gid == b.gid
    case 17 => a.mounts == b.mounts
    case 18 => a.sysctls == b.sysctls
    case _ => true
  }

  lemma SetSame(t: u16, a: DomainSpec, b: DomainSpec)
    requires Set(DEFAULT, t, a) == Set(DEFAULT, t, b)
    ensures SameField(t, a, b)
  {
    hide DEFAULT;
  }

  lemma SameFields(a: DomainSpec, b: DomainSpec, at: u16 -> DomainSpec)
    requires a == Assemble(at)
    requires SameField(1, at(1), b) && SameField(2, at(2), b) && SameField(3, at(3), b) && SameField(4, at(4), b)
    requires SameField(5, at(5), b) && SameField(6, at(6), b) && SameField(7, at(7), b) && SameField(8, at(8), b)
    requires SameField(9, at(9), b) && SameField(11, at(11), b) && SameField(12, at(12), b) && SameField(13, at(13), b)
    requires SameField(14, at(14), b) && SameField(15, at(15), b) && SameField(16, at(16), b)
    requires SameField(17, at(17), b) && SameField(18, at(18), b)
    ensures a == b
  {
    hide DEFAULT, KNOWN;
  }

  lemma AssembleAgrees(at: u16 -> DomainSpec, spec: DomainSpec)
    requires forall t: u16 :: t in KNOWN ==> Set(DEFAULT, t, at(t)) == Set(DEFAULT, t, spec)
    ensures Assemble(at) == spec
  {
    hide Set, DEFAULT, SameField, Assemble;
    forall t: u16 | t in KNOWN
      ensures SameField(t, at(t), spec)
    {
      SetSame(t, at(t), spec);
    }
    SameFields(Assemble(at), spec, at);
  }

  lemma WrittenBuilds(spec: DomainSpec)
    requires Writable(spec) && forall t: u16 :: t in KNOWN ==> Readable(spec, t)
    ensures Build(Written(spec, KNOWN)) == Canon(spec)
  {
    hide Payload, Present, Readable, One, Canon, Writable;
    var m := Written(spec, KNOWN);
    var at: u16 -> DomainSpec := t => if t in m then One(t, m[t]) else DEFAULT;
    forall t: u16 | t in KNOWN
      ensures Set(DEFAULT, t, at(t)) == Set(DEFAULT, t, Canon(spec))
    {
      if Present(spec, t) {
        FieldReads(spec, t);
      } else {
        AbsentIsDefault(spec, t);
      }
    }
    AssembleAgrees(at, Canon(spec));
  }

  lemma ReadableIsShort(spec: DomainSpec)
    ensures ShortLists(spec) <==> forall t: u16 :: t in KNOWN && Present(spec, t) ==> Readable(spec, t)
    ensures ShortLists(spec) ==> forall t: u16 :: t in KNOWN ==> Readable(spec, t)
  {
    if forall t: u16 :: t in KNOWN && Present(spec, t) ==> Readable(spec, t) {
      assert MASKED_PATHS in KNOWN && RO_PATHS in KNOWN && MOUNTS in KNOWN && SYSCTLS in KNOWN;
      assert Readable(spec, MASKED_PATHS) && Readable(spec, RO_PATHS);
      assert Readable(spec, MOUNTS) && Readable(spec, SYSCTLS);
    }
  }

  lemma DecodeOfEncode(spec: DomainSpec, op: Op)
    requires Encode(spec, op).Ok?
    ensures Decode(Encode(spec, op).value) ==
      (var got :- Fold(DECODER, Emit(spec, ORDER), {}, DEFAULT); CheckOp(op, got))
  {
    hide Decode, Validate, Message, Emit, Fold;
    var m := Message(op, Emit(spec, ORDER));
    assert m + [] == m;
    DecodeFramed(op, Emit(spec, ORDER), []);
  }

  /** Whether every emitted section parses. */
  lemma EmittedParse(spec: DomainSpec)
    requires Writable(spec)
    ensures AllGood(VIEW, Emit(spec, ORDER)) <==> ShortLists(spec)
  {
    hide Emit, AllGood, Good, Payload, Present, Readable, Writable, ShortLists;
    EmittedGood(spec);
    ReadableIsShort(spec);
    forall t: u16 | t in KNOWN && Present(spec, t)
      ensures Good(t, Payload(spec, t)) <==> Readable(spec, t)
    {
      FieldReads(spec, t);
    }
  }

  lemma EmittedWritten(spec: DomainSpec)
    ensures NoRepeat(Emit(spec, ORDER), {})
    ensures Fields(KNOWN, Emit(spec, ORDER)) == Written(spec, KNOWN)
  {
    hide Emit, Fields, NoRepeat, Written, Lists;
    OrderIsKnown();
    EmittedFields(spec, KNOWN, ORDER);
  }

  lemma EmittedSpells(spec: DomainSpec)
    requires Writable(spec) && ShortLists(spec)
    ensures Spells(Emit(spec, ORDER), Canon(spec))
  {
    hide Emit, AllGood, Build, Fields, NoRepeat, Written, Readable, Writable, ShortLists, Canon;
    EmittedWritten(spec);
    EmittedParse(spec);
    ReadableIsShort(spec);
    WrittenBuilds(spec);
  }

  /** What the emitted sections fold to. */
  lemma EmittedFolds(spec: DomainSpec)
    requires Writable(spec)
    ensures if ShortLists(spec) then Fold(DECODER, Emit(spec, ORDER), {}, DEFAULT) == Ok(Canon(spec))
      else Fold(DECODER, Emit(spec, ORDER), {}, DEFAULT).Err?
  {
    hide Fold, Emit, Fields, NoRepeat, AllGood, Build, Writable, ShortLists, Canon;
    var xs := Emit(spec, ORDER);
    EmittedParse(spec);
    if ShortLists(spec) {
      EmittedSpells(spec);
      FoldSpells(xs, Canon(spec));
    } else if Fold(DECODER, xs, {}, DEFAULT).Ok? {
      FoldSpells(xs, Fold(DECODER, xs, {}, DEFAULT).value);
    }
  }

  /** An encoded specification decodes exactly when the strings `validate` does not
      bound fit and the operation has what it needs; it then decodes to itself,
      without the capability words that were not marked present. */
  lemma RoundTrip(spec: DomainSpec, op: Op)
    requires RustStrings(spec) && Encode(spec, op).Ok?
    ensures Decode(Encode(spec, op).value).Ok? <==> ShortLists(spec) && Complete(op, spec)
    ensures ShortLists(spec) && Complete(op, spec) ==> Decode(Encode(spec, op).value) == Ok((op, Canon(spec)))
  {
    hide Decode, Encode, Emit, Fold, RustStrings, Writable, ShortLists;
    EncodedIsWritable(spec, op);
    DecodeOfEncode(spec, op);
    EmittedFolds(spec);
  }

  /** On complete specifications with short strings and no stray capability words,
      encoding loses nothing. */
  lemma EncodeInjective(a: DomainSpec, opA: Op, b: DomainSpec, opB: Op)
    requires RustStrings(a) && ShortLists(a) && Complete(opA, a) && Canon(a) == a
    requires RustStrings(b) && ShortLists(b) && Complete(opB, b) && Canon(b) == b
    requires Encode(a, opA).Ok? && Encode(a, opA) == Encode(b, opB)
    ensures a == b && opA == opB
  {
    hide Decode, Encode, RustStrings, ShortLists, Complete, Canon;
    RoundTrip(a, opA);
    RoundTrip(b, opB);
  }

  /** `validate` does not check all the decoder checks: one masked path of 4097
      bytes encodes, and does not decode. */
  lemma ValidateGap()
    ensures var spec := DEFAULT.(maskedPaths := [seq(4097, _ => 0x61)]);
      Encode(spec, State).Ok? && Decode(Encode(spec, State).value).Err?
  {
    hide Decode, Present, Payload, Emit, Message;
    var path := seq(4097, _ => 0x61);
    var spec := DEFAULT.(maskedPaths := [path]);
    AsciiIsUtf8(path);
    ValidateBounds(spec);
    OneEmitted(spec);
    assert !Short(spec.maskedPaths);
    assert RustStrings(spec) by {
      assert Unbounded(spec) == [path];
    }
    RoundTrip(spec, State);
  }

  lemma OneEmitted(spec: DomainSpec)
    requires |spec.maskedPaths| == 1 && spec == DEFAULT.(maskedPaths := spec.maskedPaths)
    ensures |Message(State, Emit(spec, ORDER))| <= 40 + |spec.maskedPaths[0]|
  {
    hide Emit, Payload, Le4;
    var xs := Emit(spec, ORDER);
    OnlyOne(spec);
    MaskedLength(spec);
    if |xs| == 1 {
      assert xs[0] in xs;
      assert Frame(xs) == Put(xs[0]) + Frame([]);
    }
  }

  lemma MaskedLength(spec: DomainSpec)
    requires |spec.maskedPaths| == 1
    ensures |Payload(spec, MASKED_PATHS)| == 8 + |spec.maskedPaths[0]|
  {
    var ps := Puts(PutString, spec.maskedPaths);
    assert ps == [PutString(spec.maskedPaths[0])];
    assert Concat(ps) == PutString(spec.maskedPaths[0]) + Concat([]);
  }

  lemma OnlyOne(spec: DomainSpec)
    requires spec == DEFAULT.(maskedPaths := spec.maskedPaths)
    ensures |Emit(spec, ORDER)| <= 1
    ensures forall x :: x in Emit(spec, ORDER) ==> x == Section(MASKED_PATHS, 0, Payload(spec, MASKED_PATHS))
  {
    hide Payload, Emit;
    var xs := Emit(spec, ORDER);
    EmitHolds(spec, ORDER);
    EmittedWritten(spec);
    forall x | x in xs
      ensures x.tag == MASKED_PATHS
    {
      assert Present(spec, x.tag);
    }
    assert forall i :: 0 <= i < |xs| ==> xs[i] in xs;
  }

  lemma {:induction false} AsciiIsUtf8(s: bytes)
    requires forall i :: 0 <= i < |s| ==> s[i] < 0x80
    ensures ValidUtf8(s)
  {
    if s != [] {
      AsciiIsUtf8(s[1..]);
    }
  }
}
