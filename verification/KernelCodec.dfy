/** The kernel decoder as it runs: a cursor over the buffer and loops that push
    into vectors, tied to the functions of `KernelFormat`. */
module KernelCodec {
  import opened Bytes
  import opened Outcomes
  import opened Wire
  import opened KernelFormat
  import opened TagBits
  import AbiFormat

  /** Counts the turns of the list loops. */
  class Work {
    ghost var turns: nat

    constructor ()
      ensures turns == 0
    {
      turns := 0;
    }
  }

  class BReader {
    const b: bytes
    var p: nat

    ghost predicate Valid()
      reads this
    {
      p <= |b|
    }

    function Rest(): bytes
      reads this
      requires Valid()
    {
      b[p..]
    }

    ghost function Now<T>(r: Result<T, Errno>): Parse<T, Errno>
      reads this
      requires Valid()
    {
      if r.Ok? then Ok((r.value, Rest())) else Err(r.error)
    }

    constructor (buf: bytes)
      ensures Valid() && b == buf && Rest() == buf
    {
      b := buf;
      p := 0;
    }

    method TakeN(n: nat) returns (r: Result<bytes, Errno>)
      requires Valid()
      modifies this
      ensures Valid() && Now(r) == Take(old(Rest()), n, EINVAL)
    {
      if n > |b| - p {
        return Err(EINVAL);
      }
      r := Ok(b[p..p + n]);
      assert b[p..][..n] == b[p..p + n] && b[p..][n..] == b[p + n..];
      p := p + n;
    }

    method U16() returns (r: Result<u16, Errno>)
      requires Valid()
      modifies this
      ensures Valid() && Now(r) == GetU16(old(Rest()), EINVAL)
    {
      var s :- TakeN(2);
      r := Ok(FromLe2(s));
    }

    method U32() returns (r: Result<u32, Errno>)
      requires Valid()
      modifies this
      ensures Valid() && Now(r) == GetU32(old(Rest()), EINVAL)
    {
      var s :- TakeN(4);
      r := Ok(FromLe4(s));
    }

    method U64() returns (r: Result<u64, Errno>)
      requires Valid()
      modifies this
      ensures Valid() && Now(r) == GetU64(old(Rest()), EINVAL)
    {
      var s :- TakeN(8);
      r := Ok(FromLe8(s));
    }

    method LenBytes() returns (r: Result<bytes, Errno>)
      requires Valid()
      modifies this
      ensures Valid() && Now(r) == GetItem(old(Rest()))
    {
      var len :- U32();
      if len > MAX_STR {
        return Err(EINVAL);
      }
      r := TakeN(len);
    }

    method OneRlimit() returns (r: Result<Rlimit, Errno>)
      requires Valid()
      modifies this
      ensures Valid() && Now(r) == GetRlimit(old(Rest()))
    {
      hide GetU32, GetU64;
      var resource :- U32();
      var soft :- U64();
      var hard :- U64();
      r := Ok(AbiFormat.Rlimit(resource, soft, hard));
    }

    method OneMount() returns (r: Result<MountSpec, Errno>)
      requires Valid()
      modifies this
      ensures Valid() && Now(r) == GetMount(old(Rest()))
    {
      hide GetItem, GetU64;
      var dest :- LenBytes();
      var fsType :- LenBytes();
      var source :- LenBytes();
      var flags :- U64();
      r := Ok(MountSpec(ToCvec(dest), ToCvec(fsType), ToCvec(source), flags));
    }

    method Strings(ghost work: Work) returns (r: Result<seq<bytes>, Errno>)
      requires Valid()
      modifies this, work
      ensures Valid() && r == GetStrings(old(Rest()))
      ensures work.turns == old(work.turns) + ListTurns(GetItem, old(Rest()))
    {
      hide Turns, GetU32, GetItem, Many, Prepend, Clip, ToCvecs, ToCvec, Push;
      var n :- U32();
      ghost var start := Rest();
      ghost var xs: seq<bytes> := [];
      var v: seq<bytes> := [];
      CvecsNil();
      PrependNil(Many(GetItem, start, n));
      for i := 0 to n
        invariant Valid()
        invariant work.turns == old(work.turns) + i
        invariant Turns(GetItem, start, n) == i + Turns(GetItem, Rest(), n - i)
        invariant Many(GetItem, start, n) == Prepend(xs, Many(GetItem, Rest(), n - i))
        invariant v == ToCvecs(Clip(xs, MAX_ARGS - 1))
      {
        ManyStep(GetItem, Rest(), n - i, xs);
        TurnsStep(GetItem, Rest(), n - i);
        work.turns := work.turns + 1;
        var s :- LenBytes();
        v := Push(v, ToCvec(s), MAX_ARGS - 1);
        CvecsSnoc(xs, s, MAX_ARGS - 1);
        xs := xs + [s];
      }
      ManyDone(GetItem, Rest(), xs);
      TurnsNone(GetItem, Rest());
      r := Ok(v);
    }

    method Rlimits(ghost work: Work) returns (r: Result<seq<Rlimit>, Errno>)
      requires Valid()
      modifies this, work
      ensures Valid() && r == GetList(GetRlimit, old(Rest()), MAX_RLIMITS)
      ensures work.turns == old(work.turns) + ListTurns(GetRlimit, old(Rest()))
    {
      hide Turns, GetU32, GetRlimit, Many, Prepend, Clip, Push;
      var n :- U32();
      ghost var start := Rest();
      ghost var xs: seq<Rlimit> := [];
      var v: seq<Rlimit> := [];
      ClipNil<Rlimit>(MAX_RLIMITS);
      PrependNil(Many(GetRlimit, start, n));
      for i := 0 to n
        invariant Valid()
        invariant work.turns == old(work.turns) + i
        invariant Turns(GetRlimit, start, n) == i + Turns(GetRlimit, Rest(), n - i)
        invariant Many(GetRlimit, start, n) == Prepend(xs, Many(GetRlimit, Rest(), n - i))
        invariant v == Clip(xs, MAX_RLIMITS)
      {
        ManyStep(GetRlimit, Rest(), n - i, xs);
        TurnsStep(GetRlimit, Rest(), n - i);
        work.turns := work.turns + 1;
        var l :- OneRlimit();
        v := Push(v, l, MAX_RLIMITS);
        ClipSnoc(xs, l, MAX_RLIMITS);
        xs := xs + [l];
      }
      ManyDone(GetRlimit, Rest(), xs);
      TurnsNone(GetRlimit, Rest());
      r := Ok(v);
    }

    method Mounts(ghost work: Work) returns (r: Result<seq<MountSpec>, Errno>)
      requires Valid()
      modifies this, work
      ensures Valid() && r == GetList(GetMount, old(Rest()), MAX_MOUNTS)
      ensures work.turns == old(work.turns) + ListTurns(GetMount, old(Rest()))
    {
      hide Turns, GetU32, GetMount, Many, Prepend, Clip, Push;
      var n :- U32();
      ghost var start := Rest();
      ghost var xs: seq<MountSpec> := [];
      var v: seq<MountSpec> := [];
      ClipNil<MountSpec>(MAX_MOUNTS);
      PrependNil(Many(GetMount, start, n));
      for i := 0 to n
        invariant Valid()
        invariant work.turns == old(work.turns) + i
        invariant Turns(GetMount, start, n) == i + Turns(GetMount, Rest(), n - i)
        invariant Many(GetMount, start, n) == Prepend(xs, Many(GetMount, Rest(), n - i))
        invariant v == Clip(xs, MAX_MOUNTS)
      {
        ManyStep(GetMount, Rest(), n - i, xs);
        TurnsStep(GetMount, Rest(), n - i);
        work.turns := work.turns + 1;
        var m :- OneMount();
        v := Push(v, m, MAX_MOUNTS);
        ClipSnoc(xs, m, MAX_MOUNTS);
        xs := xs + [m];
      }
      ManyDone(GetMount, Rest(), xs);
      TurnsNone(GetMount, Rest());
      r := Ok(v);
    }
  }

  lemma TurnsStep<T, E>(item: bytes -> Parse<T, E>, s: bytes, n: nat)
    requires n > 0
    ensures Turns(item, s, n) == 1 + if item(s).Ok? then Turns(item, item(s).value.1, n - 1) else 0
  {
  }

  lemma TurnsNone<T, E>(item: bytes -> Parse<T, E>, s: bytes)
    ensures Turns(item, s, 0) == 0
  {
  }

  /** A bounded push: items past the limit are read and dropped. */
  function Push<T>(v: seq<T>, x: T, limit: nat): seq<T> {
    if |v| < limit then v + [x] else v
  }

  lemma ClipSnoc<T>(xs: seq<T>, x: T, limit: nat)
    ensures Clip(xs + [x], limit) == Push(Clip(xs, limit), x, limit)
  {
  }

  lemma ClipNil<T>(limit: nat)
    ensures Clip<T>([], limit) == []
  {
  }

  lemma CvecsNil()
    ensures ToCvecs(Clip([], MAX_ARGS - 1)) == []
  {
  }

  lemma CvecsSnoc(xs: seq<bytes>, x: bytes, limit: nat)
    ensures ToCvecs(Clip(xs + [x], limit)) == Push(ToCvecs(Clip(xs, limit)), ToCvec(x), limit)
  {
    ClipSnoc(xs, x, limit);
  }

  method ApplySection(d: DecodedSpec, tag: u16, payload: bytes, ghost work: Work)
    returns (r: Result<DecodedSpec, Errno>)
    modifies work
    ensures r == Apply(d, tag, payload)
    ensures work.turns == old(work.turns) + SectionTurns(tag, payload)
  {
    hide ListTurns, GetList, GetStrings, GetU32, GetU64;
    var sr := new BReader(payload);
    match tag
    case 1 => r := Ok(d.(rootfs := ToCvec(payload)));
    case 2 => r := Ok(d.(hostname := ToCvec(payload)));
    case 3 => var v :- sr.Strings(work); r := Ok(d.(argv := v));
    case 4 => var v :- sr.Strings(work); r := Ok(d.(envp := v));
    case 5 => var v :- sr.U32(); r := Ok(d.(ns := v));
    case 8 => var v :- sr.U64(); r := Ok(d.(flags := v));
    case 9 => var v :- sr.U64(); r := Ok(d.(capPresent := true, capBounding := v));
    case 15 =>
      var effective :- sr.U64();
      var permitted :- sr.U64();
      var inheritable :- sr.U64();
      var ambient :- sr.U64();
      r := Ok(d.(capEffective := effective, capPermitted := permitted, capInheritable := inheritable,
        capAmbient := ambient));
    case 11 => var v :- sr.Strings(work); r := Ok(d.(masked := v));
    case 12 => var v :- sr.Strings(work); r := Ok(d.(readonly := v));
    case 13 => var v :- sr.Rlimits(work); r := Ok(d.(rlimits := v));
    case 14 => var v :- sr.U32(); r := Ok(d.(oomScoreAdj := Some(U32AsI32(v))));
    case 16 =>
      var uid :- sr.U32();
      var gid :- sr.U32();
      r := Ok(d.(uid := uid, gid := gid));
    case 17 => var v :- sr.Mounts(work); r := Ok(d.(mounts := v));
    case 18 => var v :- sr.Strings(work); r := Ok(d.(sysctls := v));
    case _ => r := Ok(d);
  }

  method ReadSection(r: BReader) returns (x: Result<Section, Errno>)
    requires r.Valid()
    modifies r
    ensures r.Valid() && r.Now(x) == GetSection(old(r.Rest()), EINVAL)
  {
    hide GetU16, GetU32, Take;
    var tag :- r.U16();
    var pad :- r.U16();
    var len :- r.U32();
    var payload :- r.TakeN(len);
    x := Ok(Section(tag, pad, payload));
  }

  method ReadHeader(r: BReader) returns (h: Result<u32, Errno>)
    requires r.Valid()
    modifies r
    ensures r.Valid() && r.Now(h) == GetHeader(old(r.Rest()))
  {
    hide GetU32, Take;
    var magic :- r.TakeN(4);
    if magic != AbiFormat.MAGIC {
      return Err(EINVAL);
    }
    var version :- r.U32();
    if version != ABI_VERSION {
      return Err(EINVAL);
    }
    var op :- r.U32();
    var count :- r.U32();
    if count > MAX_SPEC / 8 {
      return Err(EINVAL);
    }
    h := Ok(count);
  }

  method ReadSections(r: BReader, count: u32, ghost work: Work) returns (out: Result<DecodedSpec, Errno>)
    requires r.Valid()
    modifies r, work
    ensures r.Valid() && r.Now(out) == Walk(DECODER, old(r.Rest()), count, {}, DEFAULT)
    ensures work.turns == old(work.turns) + WalkTurns(old(r.Rest()), count, {}, DEFAULT)
  {
    hide Apply, GetSection, SectionTurns;
    var d := DEFAULT;
    var seen: bv64 := 0;
    ghost var tags: set<u16> := {};
    ghost var start := r.Rest();
    EmptyHolds();
    for i := 0 to count
      invariant r.Valid()
      invariant Holds(seen, tags)
      invariant old(work.turns) + WalkTurns(start, count, {}, DEFAULT) == work.turns + WalkTurns(r.Rest(),
        count - i, tags, d)
      invariant Walk(DECODER, start, count, {}, DEFAULT) == Walk(DECODER, r.Rest(), count - i, tags, d)
    {
      var x :- ReadSection(r);
      if x.tag < 64 {
        if Has(seen, Bit(x.tag)) {
          return Err(EINVAL);
        }
        InsertHolds(seen, tags, x.tag);
        seen := With(seen, Bit(x.tag));
      }
      d :- ApplySection(d, x.tag, x.payload, work);
      tags := Mark(tags, x.tag);
    }
    out := Ok(d);
  }

  /** `decode_spec`, and the list turns it takes. */
  method DecodeBlob(buf: bytes) returns (out: Result<DecodedSpec, Errno>, ghost turns: nat)
    ensures out == DecodeSpec(buf)
    ensures turns == DecodeTurns(buf)
  {
    hide GetHeader, Walk, WalkTurns;
    turns := 0;
    if |buf| > MAX_SPEC {
      return Err(EINVAL), 0;
    }
    var r := new BReader(buf);
    var work := new Work();
    var count :- ReadHeader(r);
    var d := ReadSections(r, count, work);
    turns := work.turns;
    if d.Err? {
      return d, turns;
    }
    if |r.b| - r.p != 0 {
      return Err(EINVAL), turns;
    }
    out := d;
  }
}
