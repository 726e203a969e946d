/** The tag-length-value walk that both decoders of the ABI perform, stated once
    over what a decoder does with one section (`Decoder`), and what the walk
    means independently of the order of the sections (`View`). */
module Wire {
  import opened Bytes
  import opened Outcomes

  /** A parsed value and the bytes after it. */
  type Parse<+T, +E> = Result<(T, bytes), E>

  function Take<E>(s: bytes, n: nat, short: E): Parse<bytes, E> {
    if n > |s| then Err(short) else Ok((s[..n], s[n..]))
  }

  function GetU16<E>(s: bytes, short: E): Parse<u16, E> {
    var (b, t) :- Take(s, 2, short);
    Ok((FromLe2(b), t))
  }

  function GetU32<E>(s: bytes, short: E): Parse<u32, E> {
    var (b, t) :- Take(s, 4, short);
    Ok((FromLe4(b), t))
  }

  function GetU64<E>(s: bytes, short: E): Parse<u64, E> {
    var (b, t) :- Take(s, 8, short);
    Ok((FromLe8(b), t))
  }

  lemma GetPutU32<E>(v: u32, rest: bytes, short: E)
    ensures GetU32(Le4(v) + rest, short) == Ok((v, rest))
  {
    assert (Le4(v) + rest)[..4] == Le4(v) && (Le4(v) + rest)[4..] == rest;
    Le4RoundTrip(v);
  }

  lemma GetPutU64<E>(v: u64, rest: bytes, short: E)
    ensures GetU64(Le8(v) + rest, short) == Ok((v, rest))
  {
    assert (Le8(v) + rest)[..8] == Le8(v) && (Le8(v) + rest)[8..] == rest;
    Le8RoundTrip(v);
  }

  lemma TakeAppended<E>(b: bytes, rest: bytes, short: E)
    ensures Take(b + rest, |b|, short) == Ok((b, rest))
  {
    assert (b + rest)[..|b|] == b && (b + rest)[|b|..] == rest;
  }

  lemma TakenU16<E>(s: bytes, short: E)
    requires GetU16(s, short).Ok?
    ensures var (v, t) := GetU16(s, short).value; s == Le2(v) + t
  {
    FromLe2RoundTrip(s[..2]);
  }

  lemma TakenU32<E>(s: bytes, short: E)
    requires GetU32(s, short).Ok?
    ensures var (v, t) := GetU32(s, short).value; s == Le4(v) + t
  {
    FromLe4RoundTrip(s[..4]);
  }

  // ---------------------------------------------------------------- lists

  /** Exactly `n` items, one after the other. */
  function Many<T, E>(item: bytes -> Parse<T, E>, s: bytes, n: nat): Parse<seq<T>, E>
    decreases n
  {
    if n == 0 then Ok(([], s)) else
      var (x, t) :- item(s);
      var (xs, u) :- Many(item, t, n - 1);
      Ok(([x] + xs, u))
  }

  /** The result of a list read whose first items `v` have been read already. */
  function Prepend<T, E>(v: seq<T>, r: Parse<seq<T>, E>): Parse<seq<T>, E> {
    var (xs, t) :- r;
    Ok((v + xs, t))
  }

  lemma PrependNil<T, E>(r: Parse<seq<T>, E>)
    ensures Prepend([], r) == r
  {
    if r.Ok? {
      assert [] + r.value.0 == r.value.0;
    }
  }

  /** One turn of a loop that reads a list. */
  lemma ManyStep<T, E>(item: bytes -> Parse<T, E>, s: bytes, n: nat, v: seq<T>)
    requires n > 0
    ensures Prepend(v, Many(item, s, n)) == (var (x, t) :- item(s); Prepend(v + [x], Many(item, t, n - 1)))
  {
    if item(s).Ok? {
      var (x, t) := item(s).value;
      var rest := Many(item, t, n - 1);
      if rest.Ok? {
        assert v + ([x] + rest.value.0) == v + [x] + rest.value.0;
      }
    }
  }

  lemma ManyDone<T, E>(item: bytes -> Parse<T, E>, s: bytes, v: seq<T>)
    ensures Prepend(v, Many(item, s, 0)) == Ok((v, s))
  {
    assert v + [] == v;
  }

  function Concat(parts: seq<bytes>): bytes {
    if parts == [] then [] else parts[0] + Concat(parts[1..])
  }

  lemma {:induction false} ConcatSnoc(parts: seq<bytes>, last: bytes)
    ensures Concat(parts + [last]) == Concat(parts) + last
  {
    if parts == [] {
      assert Concat([last]) == last + Concat([]);
      assert [] + [last] == [last];
    } else {
      assert (parts + [last])[1..] == parts[1..] + [last];
      ConcatSnoc(parts[1..], last);
    }
  }

  /** `item` reads back what `put` wrote for `x`, whatever follows it. */
  ghost predicate Inverts<T, E>(item: bytes -> Parse<T, E>, put: bytes, x: T) {
    forall rest: bytes :: item(put + rest) == Ok((x, rest))
  }

  lemma {:induction false} ManyReadsBack<T, E>(item: bytes -> Parse<T, E>, puts: seq<bytes>, xs: seq<T>, rest: bytes)
    requires |puts| == |xs|
    requires forall i :: 0 <= i < |xs| ==> Inverts(item, puts[i], xs[i])
    ensures Many(item, Concat(puts) + rest, |xs|) == Ok((xs, rest))
  {
    if xs == [] {
      assert Concat(puts) + rest == rest;
    } else {
      var tail := Concat(puts[1..]) + rest;
      assert Concat(puts) + rest == puts[0] + tail;
      assert Inverts(item, puts[0], xs[0]);
      ManyReadsBack(item, puts[1..], xs[1..], rest);
      assert [xs[0]] + xs[1..] == xs;
    }
  }

  // ------------------------------------------------------------- sections

  datatype Section = Section(tag: u16, pad: u16, payload: bytes)

  /** `[tag][pad][len as u32]` and the payload. */
  function Put(x: Section): (b: bytes)
    ensures |b| == 8 + |x.payload|
  {
    Le2(x.tag) + Le2(x.pad) + Le4(Cast32(|x.payload|)) + x.payload
  }

  function Frame(xs: seq<Section>): (b: bytes)
    ensures |b| >= 8 * |xs|
  {
    if xs == [] then [] else Put(xs[0]) + Frame(xs[1..])
  }

  /** No section length is cut by its cast to `u32`. */
  predicate Sized(xs: seq<Section>) {
    forall i :: 0 <= i < |xs| ==> |xs[i].payload| < 0x1_0000_0000
  }

  function GetSection<E>(s: bytes, short: E): Parse<Section, E> {
    var (tag, s1) :- GetU16(s, short);
    var (pad, s2) :- GetU16(s1, short);
    var (len, s3) :- GetU32(s2, short);
    var (payload, rest) :- Take(s3, len, short);
    Ok((Section(tag, pad, payload), rest))
  }

  /** What one decoder does: with a section of a given tag, with a short buffer,
      and with a repeated tag. */
  datatype Decoder<!S, !E> = Decoder(
    apply: (S, u16, bytes) -> Result<S, E>,
    truncated: E,
    duplicate: u16 -> E)

  /** The bitset of tags already parsed only covers tags below 64. */
  function Mark(seen: set<u16>, tag: u16): set<u16> {
    if tag < 64 then seen + {tag} else seen
  }

  function Accept<S, E>(d: Decoder<S, E>, x: Section, seen: set<u16>, acc: S): Result<S, E> {
    if x.tag < 64 && x.tag in seen then Err(d.duplicate(x.tag)) else d.apply(acc, x.tag, x.payload)
  }

  /** The loop over `n` sections. */
  function Walk<S, E>(d: Decoder<S, E>, s: bytes, n: nat, seen: set<u16>, acc: S): Parse<S, E>
    decreases n
  {
    if n == 0 then Ok((acc, s)) else
      var (x, t) :- GetSection(s, d.truncated);
      var acc' :- Accept(d, x, seen, acc);
      Walk(d, t, n - 1, Mark(seen, x.tag), acc')
  }

  /** The same loop once the buffer has been split into sections. */
  function Fold<S, E>(d: Decoder<S, E>, xs: seq<Section>, seen: set<u16>, acc: S): Result<S, E> {
    if xs == [] then Ok(acc) else
      var acc' :- Accept(d, xs[0], seen, acc);
      Fold(d, xs[1..], Mark(seen, xs[0].tag), acc')
  }

  lemma GetPutSection<E>(x: Section, rest: bytes, short: E)
    requires |x.payload| < 0x1_0000_0000
    ensures GetSection(Put(x) + rest, short) == Ok((x, rest))
  {
    hide Le2, Le4, FromLe2, FromLe4;
    var s := Put(x) + rest;
    var n := |x.payload|;
    assert s[..2] == Le2(x.tag) && s[2..][..2] == Le2(x.pad) && s[2..][2..] == s[4..];
    assert s[4..][..4] == Le4(n) && s[4..][4..] == x.payload + rest;
    Le2RoundTrip(x.tag);
    Le2RoundTrip(x.pad);
    Le4RoundTrip(n);
    assert (x.payload + rest)[..n] == x.payload && (x.payload + rest)[n..] == rest;
  }

  lemma PutGetSection<E>(s: bytes, short: E)
    requires GetSection(s, short).Ok?
    ensures var (x, rest) := GetSection(s, short).value;
      |x.payload| < 0x1_0000_0000 && s == Put(x) + rest
  {
    hide GetU16, GetU32, Le2, Le4;
    var (tag, s1) := GetU16(s, short).value;
    TakenU16(s, short);
    var (pad, s2) := GetU16(s1, short).value;
    TakenU16(s1, short);
    var (len, s3) := GetU32(s2, short).value;
    TakenU32(s2, short);
    var (payload, rest) := Take(s3, len, short).value;
    assert s3 == payload + rest;
    assert s == Le2(tag) + Le2(pad) + Le4(len) + payload + rest;
  }

  lemma {:induction false} WalkFrame<S, E>(d: Decoder<S, E>, xs: seq<Section>, rest: bytes, seen: set<u16>, acc: S)
    requires Sized(xs)
    ensures Walk(d, Frame(xs) + rest, |xs|, seen, acc)
         == (var a :- Fold(d, xs, seen, acc); Ok((a, rest)))
  {
    if xs == [] {
      assert Frame(xs) + rest == rest;
    } else {
      var tail := Frame(xs[1..]) + rest;
      assert Frame(xs) + rest == Put(xs[0]) + tail;
      GetPutSection(xs[0], tail, d.truncated);
      var r := Accept(d, xs[0], seen, acc);
      if r.Ok? {
        WalkFrame(d, xs[1..], rest, Mark(seen, xs[0].tag), r.value);
      }
    }
  }

  lemma FrameCons(x: Section, ys: seq<Section>, rest: bytes)
    ensures ([x] + ys)[1..] == ys
    ensures Frame([x] + ys) + rest == Put(x) + (Frame(ys) + rest)
  {
    assert ([x] + ys)[1..] == ys;
  }

  /** The sections an accepted buffer consists of. */
  lemma {:induction false} WalkSplit<S, E>(d: Decoder<S, E>, s: bytes, n: nat, seen: set<u16>, acc: S)
    returns (xs: seq<Section>)
    requires Walk(d, s, n, seen, acc).Ok?
    ensures |xs| == n && Sized(xs)
    ensures s == Frame(xs) + Walk(d, s, n, seen, acc).value.1
    ensures Fold(d, xs, seen, acc) == Ok(Walk(d, s, n, seen, acc).value.0)
    decreases n
  {
    hide GetSection, Put;
    if n == 0 {
      xs := [];
    } else {
      var (x, t) := GetSection(s, d.truncated).value;
      PutGetSection(s, d.truncated);
      var acc' := Accept(d, x, seen, acc).value;
      var rest := Walk(d, t, n - 1, Mark(seen, x.tag), acc').value.1;
      var ys := WalkSplit(d, t, n - 1, Mark(seen, x.tag), acc');
      xs := [x] + ys;
      FrameCons(x, ys, rest);
    }
  }

  // ------------------------------------------------------- the field view

  /** What a walk amounts to when the order of sections is forgotten: `build`
      gives the decoded value from the payload of each known tag. */
  datatype View<!S> = View(known: set<u16>, good: (u16, bytes) -> bool, build: map<u16, bytes> -> S)

  /** `d` parses each section on its own: into `build` of one field more. */
  ghost predicate Describes<S(!new), E>(v: View<S>, d: Decoder<S, E>) {
    && (forall t :: t in v.known ==> t < 64)
    && (forall m: map<u16, bytes>, t: u16, p: bytes {:trigger d.apply(v.build(m), t, p)} ::
          t !in v.known ==> d.apply(v.build(m), t, p) == Ok(v.build(m)))
    && (forall m: map<u16, bytes>, t: u16, p: bytes {:trigger d.apply(v.build(m), t, p)} ::
          t in v.known && t !in m && v.good(t, p) ==> d.apply(v.build(m), t, p) == Ok(v.build(m[t := p])))
    && (forall m: map<u16, bytes>, t: u16, p: bytes {:trigger d.apply(v.build(m), t, p)} ::
          t in v.known && t !in m && !v.good(t, p) ==> d.apply(v.build(m), t, p).Err?)
  }

  /** No tag below 64 occurs twice, or is one of `seen`. */
  predicate NoRepeat(xs: seq<Section>, seen: set<u16>) {
    && (forall i :: 0 <= i < |xs| && xs[i].tag < 64 ==> xs[i].tag !in seen)
    && (forall i, j :: 0 <= i < j < |xs| && xs[i].tag < 64 ==> xs[i].tag != xs[j].tag)
  }

  predicate AllGood<S>(v: View<S>, xs: seq<Section>) {
    forall i :: 0 <= i < |xs| && xs[i].tag in v.known ==> v.good(xs[i].tag, xs[i].payload)
  }

  /** Payloads by known tag. */
  function Fields(known: set<u16>, xs: seq<Section>): map<u16, bytes> {
    if xs == [] then map[]
    else (if xs[0].tag in known then map[xs[0].tag := xs[0].payload] else map[]) + Fields(known, xs[1..])
  }

  lemma NoRepeatCons(xs: seq<Section>, seen: set<u16>)
    requires xs != []
    ensures NoRepeat(xs, seen)
       <==> !(xs[0].tag < 64 && xs[0].tag in seen) && NoRepeat(xs[1..], Mark(seen, xs[0].tag))
  {
    var x, ys := xs[0], xs[1..];
    if NoRepeat(xs, seen) {
      assert forall i :: 0 <= i < |ys| ==> ys[i] == xs[i + 1];
    }
    if !(x.tag < 64 && x.tag in seen) && NoRepeat(ys, Mark(seen, x.tag)) {
      forall i | 0 <= i < |xs| && xs[i].tag < 64
        ensures xs[i].tag !in seen
      {
        if i > 0 { assert xs[i] == ys[i - 1]; }
      }
      forall i, j | 0 <= i < j < |xs| && xs[i].tag < 64
        ensures xs[i].tag != xs[j].tag
      {
        assert xs[j] == ys[j - 1];
        if i > 0 { assert xs[i] == ys[i - 1]; }
      }
    }
  }

  lemma AcceptBuilds<S(!new), E>(v: View<S>, d: Decoder<S, E>, x: Section, seen: set<u16>, m: map<u16, bytes>)
    requires Describes(v, d)
    requires m.Keys <= seen
    ensures Accept(d, x, seen, v.build(m)).Ok? <==>
      !(x.tag < 64 && x.tag in seen) && (x.tag in v.known ==> v.good(x.tag, x.payload))
    ensures Accept(d, x, seen, v.build(m)).Ok? ==>
      Accept(d, x, seen, v.build(m)).value == v.build(if x.tag in v.known then m[x.tag := x.payload] else m)
    ensures x.tag in v.known ==> x.tag < 64
  {
    var r := d.apply(v.build(m), x.tag, x.payload);
  }

  /** A walk succeeds exactly when no small tag repeats and every known payload
      parses, and then yields `build` of the fields, in whatever order they came. */
  lemma {:induction false} FoldIsBuild<S(!new), E>(
    v: View<S>, d: Decoder<S, E>, xs: seq<Section>, seen: set<u16>, m: map<u16, bytes>)
    requires Describes(v, d)
    requires m.Keys <= seen
    ensures Fold(d, xs, seen, v.build(m)).Ok? <==> NoRepeat(xs, seen) && AllGood(v, xs)
    ensures Fold(d, xs, seen, v.build(m)).Ok? ==>
      Fold(d, xs, seen, v.build(m)).value == v.build(m + Fields(v.known, xs))
  {
    if xs == [] {
      assert m + Fields(v.known, xs) == m;
    } else {
      hide NoRepeat, AllGood, Describes, Accept, Fields, Frame;
      var x, ys := xs[0], xs[1..];
      NoRepeatCons(xs, seen);
      AllGoodCons(v, xs);
      AcceptBuilds(v, d, x, seen, m);
      if Accept(d, x, seen, v.build(m)).Ok? {
        FoldIsBuild(v, d, ys, Mark(seen, x.tag), if x.tag in v.known then m[x.tag := x.payload] else m);
        FieldsCons(v.known, xs, m);
      }
    }
  }

  lemma FieldsCons(known: set<u16>, xs: seq<Section>, m: map<u16, bytes>)
    requires xs != []
    ensures m + Fields(known, xs)
         == (if xs[0].tag in known then m[xs[0].tag := xs[0].payload] else m) + Fields(known, xs[1..])
  {
  }

  lemma AllGoodCons<S>(v: View<S>, xs: seq<Section>)
    requires xs != []
    ensures AllGood(v, xs) <==> (xs[0].tag in v.known ==> v.good(xs[0].tag, xs[0].payload)) && AllGood(v, xs[1..])
  {
    var ys := xs[1..];
    assert forall i :: 0 <= i < |ys| ==> ys[i] == xs[i + 1];
    assert forall i :: 0 < i < |xs| ==> xs[i] == ys[i - 1];
  }

  /** Every field comes from a section. */
  lemma {:induction false} FieldFrom(known: set<u16>, xs: seq<Section>, t: u16) returns (i: nat)
    requires t in Fields(known, xs)
    ensures i < |xs| && xs[i].tag == t && t in known
  {
    if t in Fields(known, xs[1..]) {
      i := FieldFrom(known, xs[1..], t);
      i := i + 1;
    } else {
      i := 0;
    }
  }

  /** Every known section gives its field. */
  lemma {:induction false} FieldOf(known: set<u16>, xs: seq<Section>, i: nat)
    requires forall j, k :: 0 <= j < k < |xs| && xs[j].tag in known ==> xs[j].tag != xs[k].tag
    requires i < |xs| && xs[i].tag in known
    ensures xs[i].tag in Fields(known, xs) && Fields(known, xs)[xs[i].tag] == xs[i].payload
  {
    var ys := xs[1..];
    assert forall j :: 0 <= j < |ys| ==> ys[j] == xs[j + 1];
    if i > 0 {
      FieldOf(known, ys, i - 1);
    } else if xs[0].tag in Fields(known, ys) {
      var j := FieldFrom(known, ys, xs[0].tag);
      assert false;
    }
  }

  /** The fields are any map that holds the payload of every known section, and
      nothing else. */
  lemma FieldsAre(known: set<u16>, xs: seq<Section>, m: map<u16, bytes>)
    requires NoRepeat(xs, {})
    requires forall t :: t in known ==> t < 64
    requires forall i :: 0 <= i < |xs| && xs[i].tag in known ==> xs[i].tag in m && m[xs[i].tag] == xs[i].payload
    requires forall t :: t in m ==> t in known && Section(t, 0, m[t]) in xs
    ensures Fields(known, xs) == m
  {
    hide Fields;
    var f := Fields(known, xs);
    forall t | t in m
      ensures t in f
    {
      var i :| 0 <= i < |xs| && xs[i] == Section(t, 0, m[t]);
      FieldOf(known, xs, i);
    }
    forall t | t in f
      ensures t in m && m[t] == f[t]
    {
      var i := FieldFrom(known, xs, t);
      FieldOf(known, xs, i);
    }
  }

  /** Two section lists that hold the same sections of known tags have the same
      fields. */
  lemma SameFields(known: set<u16>, xs: seq<Section>, ys: seq<Section>)
    requires NoRepeat(xs, {}) && NoRepeat(ys, {})
    requires forall t :: t in known ==> t < 64
    requires forall x: Section :: x.tag in known ==> (x in xs <==> x in ys)
    ensures Fields(known, xs) == Fields(known, ys)
  {
    hide Fields;
    forall t | t in Fields(known, xs)
      ensures t in Fields(known, ys) && Fields(known, ys)[t] == Fields(known, xs)[t]
    {
      SameField(known, xs, ys, t);
    }
    forall t | t in Fields(known, ys)
      ensures t in Fields(known, xs)
    {
      SameField(known, ys, xs, t);
    }
  }

  lemma SameField(known: set<u16>, xs: seq<Section>, ys: seq<Section>, t: u16)
    requires NoRepeat(xs, {}) && NoRepeat(ys, {})
    requires forall u :: u in known ==> u < 64
    requires forall x: Section :: x.tag in known ==> (x in xs <==> x in ys)
    requires t in Fields(known, xs)
    ensures t in Fields(known, ys) && Fields(known, ys)[t] == Fields(known, xs)[t]
  {
    hide Fields;
    var i := FieldFrom(known, xs, t);
    FieldOf(known, xs, i);
    assert xs[i] in xs;
    var j :| 0 <= j < |ys| && ys[j] == xs[i];
    FieldOf(known, ys, j);
  }

  /** A repeated element of a list stays repeated under permutation. */
  lemma TwoPlaces(xs: seq<Section>, x: Section)
    requires multiset(xs)[x] >= 2
    ensures exists i, j :: 0 <= i < j < |xs| && xs[i] == x == xs[j]
  {
    assert x in xs;
    var i :| 0 <= i < |xs| && xs[i] == x;
    var rest := xs[..i] + xs[i + 1..];
    assert xs == xs[..i] + [x] + xs[i + 1..];
    assert multiset(xs) == multiset(rest) + multiset{x};
    assert x in multiset(rest) && x in rest;
    var j :| 0 <= j < |rest| && rest[j] == x;
    if j < i {
      assert xs[j] == x;
    } else {
      assert xs[j + 1] == x;
    }
  }

  lemma TwoCopies(xs: seq<Section>, i: nat, j: nat)
    requires i < j < |xs| && xs[i] == xs[j]
    ensures multiset(xs)[xs[i]] >= 2
  {
    assert xs == xs[..i] + [xs[i]] + xs[i + 1..j] + [xs[j]] + xs[j + 1..];
    assert multiset(xs)
      == multiset(xs[..i]) + multiset{xs[i]} + multiset(xs[i + 1..j]) + multiset{xs[j]} + multiset(xs[j + 1..]);
  }

  lemma NoRepeatPermutes(xs: seq<Section>, ys: seq<Section>)
    requires multiset(xs) == multiset(ys)
    requires NoRepeat(xs, {})
    ensures NoRepeat(ys, {})
  {
    forall i, j | 0 <= i < j < |ys| && ys[i].tag < 64
      ensures ys[i].tag != ys[j].tag
    {
      SamePermuted(xs, ys, ys[i]);
      SamePermuted(xs, ys, ys[j]);
      if ys[i] == ys[j] {
        TwoCopies(ys, i, j);
        TwoPlaces(xs, ys[i]);
        assert false;
      }
    }
  }

  lemma SamePermuted(xs: seq<Section>, ys: seq<Section>, x: Section)
    requires multiset(xs) == multiset(ys)
    ensures x in xs <==> x in ys
  {
    assert x in xs <==> x in multiset(xs);
    assert x in ys <==> x in multiset(ys);
  }

  /** The order of the sections does not matter to any decoder that has a view. */
  lemma FoldPermutes<S(!new), E>(v: View<S>, d: Decoder<S, E>, xs: seq<Section>, ys: seq<Section>)
    requires Describes(v, d)
    requires multiset(xs) == multiset(ys)
    requires Fold(d, xs, {}, v.build(map[])).Ok?
    ensures Fold(d, ys, {}, v.build(map[])) == Fold(d, xs, {}, v.build(map[]))
  {
    FoldIsBuild(v, d, xs, {}, map[]);
    FoldIsBuild(v, d, ys, {}, map[]);
    NoRepeatPermutes(xs, ys);
    forall x: Section
      ensures x in xs <==> x in ys
    {
      SamePermuted(xs, ys, x);
    }
    forall i | 0 <= i < |ys| && ys[i].tag in v.known
      ensures v.good(ys[i].tag, ys[i].payload)
    {
      assert ys[i] in xs;
    }
    SameFields(v.known, xs, ys);
  }

  /** A section whose tag is unknown, and either at least 64 or not used yet, can
      be put anywhere. */
  lemma FoldIgnoresUnknown<S(!new), E>(v: View<S>, d: Decoder<S, E>, a: seq<Section>, y: Section, b: seq<Section>)
    requires Describes(v, d)
    requires y.tag !in v.known
    requires y.tag >= 64 || forall x :: x in a + b ==> x.tag != y.tag
    requires Fold(d, a + b, {}, v.build(map[])).Ok?
    ensures Fold(d, a + [y] + b, {}, v.build(map[])) == Fold(d, a + b, {}, v.build(map[]))
  {
    var xs, ys := a + b, a + [y] + b;
    FoldIsBuild(v, d, xs, {}, map[]);
    FoldIsBuild(v, d, ys, {}, map[]);
    forall i | 0 <= i < |ys| && i != |a|
      ensures ys[i] in xs && ys[i] == xs[if i < |a| then i else i - 1]
    {
    }
    forall i, j | 0 <= i < j < |ys| && ys[i].tag < 64
      ensures ys[i].tag != ys[j].tag
    {
      if i != |a| && j != |a| {
        assert ys[i] == xs[if i < |a| then i else i - 1];
        assert ys[j] == xs[if j < |a| then j else j - 1];
      }
    }
    forall x: Section | x.tag in v.known
      ensures x in xs <==> x in ys
    {
      assert x in ys <==> x in a || x in [y] || x in b;
    }
    SameFields(v.known, xs, ys);
  }

  /** A second section of a tag below 64 is always refused. */
  lemma FoldRejectsCopy<S(!new), E>(v: View<S>, d: Decoder<S, E>, xs: seq<Section>, i: nat, j: nat)
    requires Describes(v, d)
    requires i < j < |xs| && xs[i].tag == xs[j].tag < 64
    ensures Fold(d, xs, {}, v.build(map[])).Err?
  {
    FoldIsBuild(v, d, xs, {}, map[]);
  }

  lemma {:induction false} FrameAppend(xs: seq<Section>, ys: seq<Section>)
    ensures Frame(xs + ys) == Frame(xs) + Frame(ys)
  {
    if xs == [] {
      assert [] + ys == ys;
    } else {
      assert (xs + ys)[1..] == xs[1..] + ys;
      FrameAppend(xs[1..], ys);
    }
  }

  lemma RemoveAt<T>(ys: seq<T>, i: nat)
    requires i < |ys|
    ensures multiset(ys[..i] + ys[i + 1..]) == multiset(ys) - multiset{ys[i]}
  {
    var a, b := ys[..i], ys[i + 1..];
    assert ys == a + ([ys[i]] + b);
    assert multiset(ys) == multiset(a) + (multiset{ys[i]} + multiset(b));
  }

  lemma RemoveOne(xs: seq<Section>, ys: seq<Section>) returns (i: nat)
    requires xs != [] && multiset(xs) == multiset(ys)
    ensures i < |ys| && ys[i] == xs[0]
    ensures multiset(xs[1..]) == multiset(ys[..i] + ys[i + 1..])
  {
    var x := xs[0];
    SamePermuted(xs, ys, x);
    i :| 0 <= i < |ys| && ys[i] == x;
    assert multiset(xs[1..]) == multiset(xs) - multiset{x} by {
      RemoveAt(xs, 0);
      assert xs[..0] + xs[1..] == xs[1..];
    }
    RemoveAt(ys, i);
  }

  lemma {:induction false} FrameLengthPermutes(xs: seq<Section>, ys: seq<Section>)
    requires multiset(xs) == multiset(ys)
    ensures |xs| == |ys| && |Frame(xs)| == |Frame(ys)|
  {
    assert |xs| == |multiset(xs)| == |multiset(ys)| == |ys|;
    if xs != [] {
      var i := RemoveOne(xs, ys);
      var a, x, b := ys[..i], ys[i], ys[i + 1..];
      FrameLengthPermutes(xs[1..], a + b);
      FrameAppend(a, b);
      FrameAppend(a, [x] + b);
      FrameCons(x, b, []);
      assert ys == a + ([x] + b);
    }
  }
}
