/** The bounds of the encoder's validation against those of the decoder. */
module AbiBounds {
  import opened Bytes
  import opened Outcomes
  import opened Wire
  import opened AbiFormat
  import opened AbiProofs
  import opened AbiRoundTrip

  /** Whatever holds of each item read holds of the list. */
  lemma {:induction false} ManyEach<T, E>(item: bytes -> Parse<T, E>, good: T -> bool, s: bytes, n: nat)
    requires forall t: bytes :: item(t).Ok? ==> good(item(t).value.0)
    requires Many(item, s, n).Ok?
    ensures var xs := Many(item, s, n).value.0;
      |xs| == n && forall i :: 0 <= i < n ==> good(xs[i])
    decreases n
  {
    if n > 0 {
      ManyEach(item, good, item(s).value.1, n - 1);
    }
  }

  function ShortText(): bytes -> bool {
    (s: bytes) => |s| <= MAX_STR
  }

  function ShortTexts(): Mount -> bool {
    (m: Mount) => ShortMount(m)
  }

  lemma StringShort(s: bytes, what: string)
    requires GetString(s, what, MAX_STR).Ok?
    ensures |GetString(s, what, MAX_STR).value.0| <= MAX_STR
  {
    hide ValidUtf8, GetU32;
    var (len, t) := GetU32(s, Truncated).value;
    assert CheckLen(what, len, MAX_STR).Ok?;
    assert Take(t, len, Truncated).Ok?;
  }

  lemma MountShort(s: bytes)
    requires GetMount(s).Ok?
    ensures ShortMount(GetMount(s).value.0)
  {
    hide GetString, GetU64;
    StringShort(s, "mount.destination");
    var t := GetString(s, "mount.destination", MAX_STR).value.1;
    StringShort(t, "mount.type");
    var u := GetString(t, "mount.type", MAX_STR).value.1;
    StringShort(u, "mount.source");
  }

  lemma ListWithin<T>(item: bytes -> Parse<T, AbiError>, good: T -> bool, s: bytes, what: string, max: nat)
    requires forall t: bytes :: item(t).Ok? ==> good(item(t).value.0)
    requires GetList(item, s, what, max).Ok?
    ensures var xs := GetList(item, s, what, max).value.0;
      |xs| <= max && forall i :: 0 <= i < |xs| ==> good(xs[i])
  {
    hide GetU32, Many;
    var (n, t) := GetU32(s, Truncated).value;
    ManyEach(item, good, t, n);
  }

  lemma StringsWithin(s: bytes, what: string, max: nat)
    requires GetList(GetItem, s, what, max).Ok?
    ensures |GetList(GetItem, s, what, max).value.0| <= max && Short(GetList(GetItem, s, what, max).value.0)
  {
    hide GetList, GetString;
    forall t: bytes | GetItem(t).Ok?
      ensures ShortText()(GetItem(t).value.0)
    {
      StringShort(t, "string");
    }
    ListWithin(GetItem, ShortText(), s, what, max);
  }

  lemma MountsWithin(s: bytes, what: string, max: nat)
    requires GetList(GetMount, s, what, max).Ok?
    ensures var xs := GetList(GetMount, s, what, max).value.0;
      |xs| <= max && forall i :: 0 <= i < |xs| ==> ShortMount(xs[i])
  {
    hide GetList, GetMount, ShortMount;
    forall t: bytes | GetMount(t).Ok?
      ensures ShortTexts()(GetMount(t).value.0)
    {
      MountShort(t);
    }
    ListWithin(GetMount, ShortTexts(), s, what, max);
  }

  lemma CountWithin<T>(item: bytes -> Parse<T, AbiError>, s: bytes, what: string, max: nat)
    requires GetList(item, s, what, max).Ok?
    ensures |GetList(item, s, what, max).value.0| <= max
  {
    hide GetList;
    ListWithin(item, Any<T>(), s, what, max);
  }

  function Any<T>(): T -> bool {
    (x: T) => true
  }

  lemma ApplyWithin(spec: DomainSpec, tag: u16, p: bytes)
    requires Bounded(spec) && ShortLists(spec) && Apply(spec, tag, p).Ok?
    ensures Bounded(Apply(spec, tag, p).value) && ShortLists(Apply(spec, tag, p).value)
  {
    hide GetList, GetU32, GetU64, ValidUtf8, Short, ShortMount;
    match tag
    case 3 => StringsWithin(p, "argv", MAX_ARGV);
    case 4 => StringsWithin(p, "env", MAX_ENV);
    case 6 => CountWithin(GetIdMap, p, "uid_maps", MAX_MAPS);
    case 7 => CountWithin(GetIdMap, p, "gid_maps", MAX_MAPS);
    case 11 => StringsWithin(p, "masked_paths", MAX_PATHS);
    case 12 => StringsWithin(p, "readonly_paths", MAX_PATHS);
    case 13 => CountWithin(GetRlimit, p, "rlimits", MAX_RLIMITS);
    case 17 => MountsWithin(p, "mounts", MAX_MOUNTS);
    case 18 => StringsWithin(p, "sysctls", MAX_SYSCTLS);
    case _ =>
  }

  lemma {:induction false} FoldWithin(spec: DomainSpec, xs: seq<Section>, seen: set<u16>)
    requires Bounded(spec) && ShortLists(spec) && Fold(DECODER, xs, seen, spec).Ok?
    ensures Bounded(Fold(DECODER, xs, seen, spec).value) && ShortLists(Fold(DECODER, xs, seen, spec).value)
    decreases xs
  {
    hide Apply, Bounded, ShortLists;
    if xs != [] {
      ApplyWithin(spec, xs[0].tag, xs[0].payload);
      FoldWithin(Apply(spec, xs[0].tag, xs[0].payload).value, xs[1..], Mark(seen, xs[0].tag));
    }
  }

  /** Validation never rejects what the decoder accepts: every decoded specification is
      within its bounds, and within those it does not check. */
  lemma DecodedValidates(buf: bytes)
    requires Decode(buf).Ok?
    ensures Validate(Decode(buf).value.1).Ok? && ShortLists(Decode(buf).value.1)
  {
    hide Decode, Fold, Validate;
    var op, xs := AcceptedIsMessage(buf);
    FoldWithin(DEFAULT, xs, {});
    ValidateBounds(Decode(buf).value.1);
  }

  // ------------------------------------------------------- text within size

  function Total(items: seq<bytes>): nat {
    if items == [] then 0 else |items[0]| + Total(items[1..])
  }

  function MountTotal(items: seq<Mount>): nat {
    if items == [] then 0
    else |items[0].destination| + |items[0].fsType| + |items[0].source| + MountTotal(items[1..])
  }

  /** The bytes of every string the specification owns. */
  function Owned(spec: DomainSpec): nat {
    |spec.rootfs| + |spec.hostname| + Total(spec.argv) + Total(spec.env) + Total(spec.maskedPaths)
    + Total(spec.readonlyPaths) + MountTotal(spec.mounts) + Total(spec.sysctls)
  }

  lemma StringSize(s: bytes, what: string)
    requires GetString(s, what, MAX_STR).Ok?
    ensures var (b, rest) := GetString(s, what, MAX_STR).value; |b| + 4 + |rest| == |s|
  {
    hide ValidUtf8, FromLe4;
    var (len, t) := GetU32(s, Truncated).value;
    assert Take(t, len, Truncated).Ok?;
  }

  lemma {:induction false} ManyItemsSize(s: bytes, n: nat)
    requires Many(GetItem, s, n).Ok?
    ensures var (xs, rest) := Many(GetItem, s, n).value; Total(xs) + |rest| <= |s|
    decreases n
  {
    hide GetString;
    if n > 0 {
      StringSize(s, "string");
      var (x, t) := GetItem(s).value;
      ManyItemsSize(t, n - 1);
      var xs := Many(GetItem, t, n - 1).value.0;
      assert ([x] + xs)[1..] == xs;
    }
  }

  lemma MountSize(s: bytes)
    requires GetMount(s).Ok?
    ensures var (m, rest) := GetMount(s).value; |m.destination| + |m.fsType| + |m.source| + |rest| <= |s|
  {
    hide GetString, FromLe8;
    StringSize(s, "mount.destination");
    var t := GetString(s, "mount.destination", MAX_STR).value.1;
    StringSize(t, "mount.type");
    var u := GetString(t, "mount.type", MAX_STR).value.1;
    StringSize(u, "mount.source");
  }

  lemma {:induction false} ManyMountsSize(s: bytes, n: nat)
    requires Many(GetMount, s, n).Ok?
    ensures var (xs, rest) := Many(GetMount, s, n).value; MountTotal(xs) + |rest| <= |s|
    decreases n
  {
    hide GetMount;
    if n > 0 {
      MountSize(s);
      var (x, t) := GetMount(s).value;
      ManyMountsSize(t, n - 1);
      var xs := Many(GetMount, t, n - 1).value.0;
      assert ([x] + xs)[1..] == xs;
    }
  }

  lemma CountSize(s: bytes)
    requires GetU32(s, Truncated).Ok?
    ensures |GetU32(s, Truncated).value.1| <= |s|
  {
    hide FromLe4;
  }

  lemma ListSize(s: bytes, what: string, max: nat)
    requires GetList(GetItem, s, what, max).Ok?
    ensures Total(GetList(GetItem, s, what, max).value.0) <= |s|
  {
    hide GetU32, Many;
    CountSize(s);
    var (n, t) := GetU32(s, Truncated).value;
    ManyItemsSize(t, n);
  }

  lemma MountListSize(s: bytes, what: string, max: nat)
    requires GetList(GetMount, s, what, max).Ok?
    ensures MountTotal(GetList(GetMount, s, what, max).value.0) <= |s|
  {
    hide GetU32, Many;
    CountSize(s);
    var (n, t) := GetU32(s, Truncated).value;
    ManyMountsSize(t, n);
  }

  lemma ApplySize(spec: DomainSpec, tag: u16, p: bytes)
    requires Apply(spec, tag, p).Ok?
    ensures Owned(Apply(spec, tag, p).value) <= Owned(spec) + |p|
  {
    hide GetList, GetU32, GetU64, ValidUtf8, Total, MountTotal;
    match tag
    case 3 => ListSize(p, "argv", MAX_ARGV);
    case 4 => ListSize(p, "env", MAX_ENV);
    case 11 => ListSize(p, "masked_paths", MAX_PATHS);
    case 12 => ListSize(p, "readonly_paths", MAX_PATHS);
    case 17 => MountListSize(p, "mounts", MAX_MOUNTS);
    case 18 => ListSize(p, "sysctls", MAX_SYSCTLS);
    case _ =>
  }

  lemma {:induction false} FoldSize(spec: DomainSpec, xs: seq<Section>, seen: set<u16>)
    requires Fold(DECODER, xs, seen, spec).Ok?
    ensures Owned(Fold(DECODER, xs, seen, spec).value) <= Owned(spec) + |Frame(xs)|
    decreases xs
  {
    hide Apply, Owned;
    if xs != [] {
      ApplySize(spec, xs[0].tag, xs[0].payload);
      FoldSize(Apply(spec, xs[0].tag, xs[0].payload).value, xs[1..], Mark(seen, xs[0].tag));
    }
  }

  /** Decoding never owns more bytes of text than it was given. */
  lemma DecodedFits(buf: bytes)
    requires Decode(buf).Ok?
    ensures Owned(Decode(buf).value.1) <= |buf|
  {
    hide Decode, Fold;
    var op, xs := AcceptedIsMessage(buf);
    FoldSize(DEFAULT, xs, {});
  }
}
