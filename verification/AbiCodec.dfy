/** `krunc-abi` as it runs: a writer that appends to its buffer, a bounds-checked
    reader that advances a position, and the encoder and decoder built on them.
    Every method is tied to the function of `AbiFormat` it computes. */
module AbiCodec {
  import opened Bytes
  import opened Outcomes
  import opened Wire
  import opened AbiFormat
  import opened TagBits
  import AbiRoundTrip

  // --------------------------------------------------------------- writer

  class Writer {
    var buf: bytes

    constructor ()
      ensures buf == []
    {
      buf := [];
    }

    method U32(v: u32)
      modifies this
      ensures buf == old(buf) + Le4(v)
    {
      buf := buf + Le4(v);
    }

    method U16(v: u16)
      modifies this
      ensures buf == old(buf) + Le2(v)
    {
      buf := buf + Le2(v);
    }

    method U64(v: u64)
      modifies this
      ensures buf == old(buf) + Le8(v)
    {
      buf := buf + Le8(v);
    }

    method Bytes(b: bytes)
      modifies this
      ensures buf == old(buf) + b
    {
      buf := buf + b;
    }

    /** The section header and the payload collected in `inner`. */
    method Section(tag: u16, inner: Writer)
      requires inner != this
      modifies this
      ensures buf == old(buf) + Put(Wire.Section(tag, 0, inner.buf))
    {
      U16(tag);
      U16(0);
      U32(Cast32(|inner.buf|));
      Bytes(inner.buf);
    }

    method Str(s: bytes)
      modifies this
      ensures buf == old(buf) + PutString(s)
    {
      U32(Cast32(|s|));
      Bytes(s);
    }

    method OneMount(m: Mount)
      modifies this
      ensures buf == old(buf) + PutMount(m)
    {
      hide PutString, Le8;
      Str(m.destination);
      Str(m.fsType);
      Str(m.source);
      U64(m.flags);
    }

    method OneIdMap(m: IdMap)
      modifies this
      ensures buf == old(buf) + PutIdMap(m)
    {
      hide Le4;
      U32(m.containerId);
      U32(m.hostId);
      U32(m.size);
    }

    method OneRlimit(l: Rlimit)
      modifies this
      ensures buf == old(buf) + PutRlimit(l)
    {
      hide Le4, Le8;
      U32(l.resource);
      U64(l.soft);
      U64(l.hard);
    }

    method Strings(items: seq<bytes>)
      modifies this
      ensures buf == old(buf) + PutList(PutString, items)
    {
      hide Le4, PutString, PutMount, PutIdMap, PutRlimit;
      U32(Cast32(|items|));
      ghost var ps := Puts(PutString, items);
      for i := 0 to |items|
        invariant buf == old(buf) + Le4(Cast32(|items|)) + Concat(ps[..i])
      {
        Str(items[i]);
        ConcatSnoc(ps[..i], ps[i]);
        assert ps[..i + 1] == ps[..i] + [ps[i]];
      }
      assert ps[..|items|] == ps;
    }

    method Mounts(items: seq<Mount>)
      modifies this
      ensures buf == old(buf) + PutList(PutMount, items)
    {
      hide Le4, PutString, PutMount, PutIdMap, PutRlimit;
      U32(Cast32(|items|));
      ghost var ps := Puts(PutMount, items);
      for i := 0 to |items|
        invariant buf == old(buf) + Le4(Cast32(|items|)) + Concat(ps[..i])
      {
        OneMount(items[i]);
        ConcatSnoc(ps[..i], ps[i]);
        assert ps[..i + 1] == ps[..i] + [ps[i]];
      }
      assert ps[..|items|] == ps;
    }

    method IdMaps(items: seq<IdMap>)
      modifies this
      ensures buf == old(buf) + PutList(PutIdMap, items)
    {
      hide Le4, PutString, PutMount, PutIdMap, PutRlimit;
      U32(Cast32(|items|));
      ghost var ps := Puts(PutIdMap, items);
      for i := 0 to |items|
        invariant buf == old(buf) + Le4(Cast32(|items|)) + Concat(ps[..i])
      {
        OneIdMap(items[i]);
        ConcatSnoc(ps[..i], ps[i]);
        assert ps[..i + 1] == ps[..i] + [ps[i]];
      }
      assert ps[..|items|] == ps;
    }

    method Rlimits(items: seq<Rlimit>)
      modifies this
      ensures buf == old(buf) + PutList(PutRlimit, items)
    {
      hide Le4, PutString, PutMount, PutIdMap, PutRlimit;
      U32(Cast32(|items|));
      ghost var ps := Puts(PutRlimit, items);
      for i := 0 to |items|
        invariant buf == old(buf) + Le4(Cast32(|items|)) + Concat(ps[..i])
      {
        OneRlimit(items[i]);
        ConcatSnoc(ps[..i], ps[i]);
        assert ps[..i + 1] == ps[..i] + [ps[i]];
      }
      assert ps[..|items|] == ps;
    }
  }

  /** The body writer and the section counter that `encode`'s `emit` captures. */
  class Body {
    const w: Writer
    var count: u32
    ghost var sections: seq<Section>

    ghost predicate Valid()
      reads this, w
    {
      w.buf == Frame(sections) && count == |sections| <= 17
    }

    constructor ()
      ensures Valid() && sections == [] && fresh(w)
    {
      w := new Writer();
      count := 0;
      sections := [];
    }

    method Emit(tag: u16, inner: Writer)
      requires Valid() && |sections| < 17 && inner != w
      modifies this, w
      ensures Valid() && sections == old(sections) + [Section(tag, 0, inner.buf)]
    {
      ghost var x := Section(tag, 0, inner.buf);
      FrameAppend(sections, [x]);
      FrameCons(x, [], []);
      w.Section(tag, inner);
      count := count + 1;
      sections := sections + [x];
      assert Frame([x]) == Put(x);
    }
  }

  // --------------------------------------------------------------- reader

  class Reader {
    const buf: bytes
    var pos: nat

    ghost predicate Valid()
      reads this
    {
      pos <= |buf|
    }

    /** The bytes not read yet. */
    function Rest(): bytes
      reads this
      requires Valid()
    {
      buf[pos..]
    }

    /** A result together with where the reader now stands. */
    ghost function Now<T>(r: Result<T, AbiError>): Parse<T, AbiError>
      reads this
      requires Valid()
    {
      if r.Ok? then Ok((r.value, Rest())) else Err(r.error)
    }

    constructor (b: bytes)
      ensures Valid() && buf == b && Rest() == b
    {
      buf := b;
      pos := 0;
    }

    method TakeN(n: nat) returns (r: Result<bytes, AbiError>)
      requires Valid()
      modifies this
      ensures Valid() && Now(r) == Take(old(Rest()), n, Truncated)
    {
      if n > |buf| - pos {
        return Err(Truncated);
      }
      r := Ok(buf[pos..pos + n]);
      assert buf[pos..][..n] == buf[pos..pos + n] && buf[pos..][n..] == buf[pos + n..];
      pos := pos + n;
    }

    method U16() returns (r: Result<u16, AbiError>)
      requires Valid()
      modifies this
      ensures Valid() && Now(r) == GetU16(old(Rest()), Truncated)
    {
      var b :- TakeN(2);
      r := Ok(FromLe2(b));
    }

    method U32() returns (r: Result<u32, AbiError>)
      requires Valid()
      modifies this
      ensures Valid() && Now(r) == GetU32(old(Rest()), Truncated)
    {
      var b :- TakeN(4);
      r := Ok(FromLe4(b));
    }

    method U64() returns (r: Result<u64, AbiError>)
      requires Valid()
      modifies this
      ensures Valid() && Now(r) == GetU64(old(Rest()), Truncated)
    {
      var b :- TakeN(8);
      r := Ok(FromLe8(b));
    }

    method String(what: string, limit: nat) returns (r: Result<bytes, AbiError>)
      requires Valid()
      modifies this
      ensures Valid() && Now(r) == GetString(old(Rest()), what, limit)
    {
      var len :- U32();
      var _ :- CheckLen(what, len, limit);
      var b :- TakeN(len);
      r := if ValidUtf8(b) then Ok(b) else Err(Utf8);
    }

    method Strings(what: string, max: nat) returns (r: Result<seq<bytes>, AbiError>)
      requires Valid()
      modifies this
      ensures Valid() && Now(r) == GetList(GetItem, old(Rest()), what, max)
    {
      hide GetU32, GetU64, GetString, Many, Prepend;
      var n :- U32();
      var _ :- CheckLen(what, n, max);
      ghost var start := Rest();
      var v: seq<bytes> := [];
      PrependNil(Many(GetItem, start, n));
      for i := 0 to n
        invariant Valid()
        invariant Many(GetItem, start, n) == Prepend(v, Many(GetItem, Rest(), n - i))
      {
        ManyStep(GetItem, Rest(), n - i, v);
        var s :- String("string", MAX_STR);
        v := v + [s];
      }
      ManyDone(GetItem, Rest(), v);
      r := Ok(v);
    }

    method IdMaps(what: string) returns (r: Result<seq<IdMap>, AbiError>)
      requires Valid()
      modifies this
      ensures Valid() && Now(r) == GetList(GetIdMap, old(Rest()), what, MAX_MAPS)
    {
      hide GetU32, GetU64, GetString, Many, Prepend;
      var n :- U32();
      var _ :- CheckLen(what, n, MAX_MAPS);
      ghost var start := Rest();
      var v: seq<IdMap> := [];
      PrependNil(Many(GetIdMap, start, n));
      for i := 0 to n
        invariant Valid()
        invariant Many(GetIdMap, start, n) == Prepend(v, Many(GetIdMap, Rest(), n - i))
      {
        ManyStep(GetIdMap, Rest(), n - i, v);
        var containerId :- U32();
        var hostId :- U32();
        var size :- U32();
        v := v + [IdMap(containerId, hostId, size)];
      }
      ManyDone(GetIdMap, Rest(), v);
      r := Ok(v);
    }

    method Rlimits(what: string) returns (r: Result<seq<Rlimit>, AbiError>)
      requires Valid()
      modifies this
      ensures Valid() && Now(r) == GetList(GetRlimit, old(Rest()), what, MAX_RLIMITS)
    {
      hide GetU32, GetU64, GetString, Many, Prepend;
      var n :- U32();
      var _ :- CheckLen(what, n, MAX_RLIMITS);
      ghost var start := Rest();
      var v: seq<Rlimit> := [];
      PrependNil(Many(GetRlimit, start, n));
      for i := 0 to n
        invariant Valid()
        invariant Many(GetRlimit, start, n) == Prepend(v, Many(GetRlimit, Rest(), n - i))
      {
        ManyStep(GetRlimit, Rest(), n - i, v);
        var resource :- U32();
        var soft :- U64();
        var hard :- U64();
        v := v + [Rlimit(resource, soft, hard)];
      }
      ManyDone(GetRlimit, Rest(), v);
      r := Ok(v);
    }

    method Mounts(what: string) returns (r: Result<seq<Mount>, AbiError>)
      requires Valid()
      modifies this
      ensures Valid() && Now(r) == GetList(GetMount, old(Rest()), what, MAX_MOUNTS)
    {
      hide GetU32, GetU64, GetString, Many, Prepend;
      var n :- U32();
      var _ :- CheckLen(what, n, MAX_MOUNTS);
      ghost var start := Rest();
      var v: seq<Mount> := [];
      PrependNil(Many(GetMount, start, n));
      for i := 0 to n
        invariant Valid()
        invariant Many(GetMount, start, n) == Prepend(v, Many(GetMount, Rest(), n - i))
      {
        ManyStep(GetMount, Rest(), n - i, v);
        var destination :- String("mount.destination", MAX_STR);
        var fsType :- String("mount.type", MAX_STR);
        var source :- String("mount.source", MAX_STR);
        var flags :- U64();
        v := v + [Mount(destination, fsType, source, flags)];
      }
      ManyDone(GetMount, Rest(), v);
      r := Ok(v);
    }
  }

  // --------------------------------------------------------------- decode

  /** The `match` on the tag of one section. */
  method ApplySection(spec: DomainSpec, tag: u16, payload: bytes) returns (r: Result<DomainSpec, AbiError>)
    ensures r == Apply(spec, tag, payload)
  {
    hide GetList, GetU32, GetU64, Text;
    var sr := new Reader(payload);
    match tag
    case 1 => var v :- Text(payload, MAX_STR, "rootfs"); r := Ok(spec.(rootfs := v));
    case 2 => var v :- Text(payload, MAX_STR, "hostname"); r := Ok(spec.(hostname := v));
    case 3 => var v :- sr.Strings("argv", MAX_ARGV); r := Ok(spec.(argv := v));
    case 4 => var v :- sr.Strings("env", MAX_ENV); r := Ok(spec.(env := v));
    case 5 => var v :- sr.U32(); r := Ok(spec.(namespaces := v));
    case 6 => var v :- sr.IdMaps("uid_maps"); r := Ok(spec.(uidMaps := v));
    case 7 => var v :- sr.IdMaps("gid_maps"); r := Ok(spec.(gidMaps := v));
    case 8 => var v :- sr.U64(); r := Ok(spec.(flags := v));
    case 9 => var v :- sr.U64(); r := Ok(spec.(capsPresent := true, capBounding := v));
    case 11 => var v :- sr.Strings("masked_paths", MAX_PATHS); r := Ok(spec.(maskedPaths := v));
    case 12 => var v :- sr.Strings("readonly_paths", MAX_PATHS); r := Ok(spec.(readonlyPaths := v));
    case 13 => var v :- sr.Rlimits("rlimits"); r := Ok(spec.(rlimits := v));
    case 14 => var v :- sr.U32(); r := Ok(spec.(oomScoreAdj := Some(U32AsI32(v))));
    case 15 =>
      var effective :- sr.U64();
      var permitted :- sr.U64();
      var inheritable :- sr.U64();
      var ambient :- sr.U64();
      r := Ok(spec.(capEffective := effective, capPermitted := permitted, capInheritable := inheritable,
        capAmbient := ambient));
    case 16 =>
      var uid :- sr.U32();
      var gid :- sr.U32();
      r := Ok(spec.(uid := uid, gid := gid));
    case 17 => var v :- sr.Mounts("mounts"); r := Ok(spec.(mounts := v));
    case 18 => var v :- sr.Strings("sysctls", MAX_SYSCTLS); r := Ok(spec.(sysctls := v));
    case _ => r := Ok(spec);
  }

  method ReadSection(r: Reader) returns (x: Result<Section, AbiError>)
    requires r.Valid()
    modifies r
    ensures r.Valid() && r.Now(x) == GetSection(old(r.Rest()), Truncated)
  {
    hide GetU16, GetU32, Take;
    var tag :- r.U16();
    var pad :- r.U16();
    var len :- r.U32();
    var payload :- r.TakeN(len);
    x := Ok(Section(tag, pad, payload));
  }

  method ReadHeader(r: Reader) returns (h: Result<(Op, u32), AbiError>)
    requires r.Valid()
    modifies r
    ensures r.Valid() && r.Now(h) == GetHeader(old(r.Rest()))
  {
    hide GetU32, Take;
    var magic :- r.TakeN(4);
    if magic != MAGIC {
      return Err(BadMagic);
    }
    var version :- r.U32();
    if version != ABI_VERSION {
      return Err(UnsupportedVersion(version));
    }
    var code :- r.U32();
    var op :- OpOf(code);
    var count :- r.U32();
    var _ :- CheckLen("section_count", count, MAX_SPEC / 8);
    h := Ok((op, count));
  }

  /** The section loop: reads `count` sections into a default specification. */
  method ReadSections(r: Reader, count: u32) returns (out: Result<DomainSpec, AbiError>)
    requires r.Valid()
    modifies r
    ensures r.Valid() && r.Now(out) == Walk(DECODER, old(r.Rest()), count, {}, DEFAULT)
  {
    hide Apply, GetSection;
    var spec := DEFAULT;
    var seen: bv64 := 0;
    ghost var tags: set<u16> := {};
    ghost var start := r.Rest();
    EmptyHolds();
    for i := 0 to count
      invariant r.Valid()
      invariant Holds(seen, tags)
      invariant Walk(DECODER, start, count, {}, DEFAULT) == Walk(DECODER, r.Rest(), count - i, tags, spec)
    {
      var x :- ReadSection(r);
      if x.tag < 64 {
        if Has(seen, Bit(x.tag)) {
          return Err(Duplicate(x.tag));
        }
        InsertHolds(seen, tags, x.tag);
        seen := With(seen, Bit(x.tag));
      }
      spec :- ApplySection(spec, x.tag, x.payload);
      tags := Mark(tags, x.tag);
    }
    out := Ok(spec);
  }

  method DecodeBuffer(buf: bytes) returns (out: Result<(Op, DomainSpec), AbiError>)
    ensures out == Decode(buf)
  {
    hide GetHeader, Walk;
    if |buf| > MAX_SPEC {
      return Err(TooLarge("spec", |buf|, MAX_SPEC));
    }
    var r := new Reader(buf);
    var head :- ReadHeader(r);
    var (op, count) := head;
    var spec :- ReadSections(r, count);
    if |r.buf| - r.pos != 0 {
      return Err(TrailingBytes);
    }
    if op == Create {
      if spec.rootfs == [] {
        return Err(Missing("rootfs"));
      }
      if spec.argv == [] {
        return Err(Missing("argv"));
      }
    }
    out := Ok((op, spec));
  }

  // --------------------------------------------------------------- encode

  method CheckItems(what: string, items: seq<bytes>, limit: nat) returns (r: Result<(), AbiError>)
    ensures r == CheckEach(what, items, limit)
  {
    for i := 0 to |items|
      invariant CheckEach(what, items, limit) == CheckEach(what, items[i..], limit)
    {
      assert items[i..][0] == items[i] && items[i..][1..] == items[i + 1..];
      var _ :- CheckLen(what, |items[i]|, limit);
    }
    assert items[|items|..] == [];
    r := Ok(());
  }

  method ValidateSpec(spec: DomainSpec) returns (r: Result<(), AbiError>)
    ensures r == Validate(spec)
    ensures r.Ok? <==> AbiRoundTrip.Bounded(spec)
  {
    AbiRoundTrip.ValidateBounds(spec);
    var _ :- CheckLen("rootfs", |spec.rootfs|, MAX_STR);
    var _ :- CheckLen("hostname", |spec.hostname|, MAX_STR);
    var _ :- CheckLen("argv", |spec.argv|, MAX_ARGV);
    var _ :- CheckItems("arg", spec.argv, MAX_STR);
    var _ :- CheckLen("env", |spec.env|, MAX_ENV);
    var _ :- CheckItems("env-entry", spec.env, MAX_STR);
    var _ :- CheckLen("uid_maps", |spec.uidMaps|, MAX_MAPS);
    var _ :- CheckLen("gid_maps", |spec.gidMaps|, MAX_MAPS);
    var _ :- CheckLen("masked_paths", |spec.maskedPaths|, MAX_PATHS);
    var _ :- CheckLen("readonly_paths", |spec.readonlyPaths|, MAX_PATHS);
    var _ :- CheckLen("rlimits", |spec.rlimits|, MAX_RLIMITS);
    var _ :- CheckLen("mounts", |spec.mounts|, MAX_MOUNTS);
    r := CheckLen("sysctls", |spec.sysctls|, MAX_SYSCTLS);
  }

  /** The payload of one present field, built by an inner writer. */
  method WritePayload(spec: DomainSpec, tag: u16) returns (inner: Writer)
    requires Present(spec, tag)
    ensures fresh(inner) && inner.buf == Payload(spec, tag)
  {
    hide PutList, Le4, Le8;
    inner := new Writer();
    match tag
    case 1 => inner.Bytes(spec.rootfs);
    case 2 => inner.Bytes(spec.hostname);
    case 3 => inner.Strings(spec.argv);
    case 4 => inner.Strings(spec.env);
    case 5 => inner.U32(spec.namespaces);
    case 6 => inner.IdMaps(spec.uidMaps);
    case 7 => inner.IdMaps(spec.gidMaps);
    case 8 => inner.U64(spec.flags);
    case 9 => inner.U64(spec.capBounding);
    case 11 => inner.Strings(spec.maskedPaths);
    case 12 => inner.Strings(spec.readonlyPaths);
    case 13 => inner.Rlimits(spec.rlimits);
    case 14 => inner.U32(I32AsU32(spec.oomScoreAdj.value));
    case 15 =>
      inner.U64(spec.capEffective);
      inner.U64(spec.capPermitted);
      inner.U64(spec.capInheritable);
      inner.U64(spec.capAmbient);
    case 16 =>
      inner.U32(spec.uid);
      inner.U32(spec.gid);
    case 17 => inner.Mounts(spec.mounts);
    case 18 => inner.Strings(spec.sysctls);
    case _ => assert false;
  }

  lemma {:induction false} EmitSnoc(spec: DomainSpec, tags: seq<u16>, t: u16)
    ensures Emit(spec, tags + [t]) == Emit(spec, tags) + EmitOne(spec, t)
  {
    hide Present, Payload;
    if tags == [] {
      assert [t][1..] == [] && [] + [t] == [t];
    } else {
      assert (tags + [t])[1..] == tags[1..] + [t];
      EmitSnoc(spec, tags[1..], t);
    }
  }

  /** Emit one field, the `k`-th of the order, if it is not the default. */
  method EmitField(body: Body, spec: DomainSpec, tag: u16, ghost k: nat)
    requires k < |ORDER| && ORDER[k] == tag
    requires body.Valid() && body.sections == Emit(spec, ORDER[..k])
    modifies body, body.w
    ensures body.Valid() && body.sections == Emit(spec, ORDER[..k + 1])
  {
    hide Present, Payload, Emit;
    AbiRoundTrip.EmitHolds(spec, ORDER[..k]);
    EmitSnoc(spec, ORDER[..k], tag);
    assert ORDER[..k + 1] == ORDER[..k] + [tag];
    if Present(spec, tag) {
      var inner := WritePayload(spec, tag);
      body.Emit(tag, inner);
    }
  }

  method EmitProcess(body: Body, spec: DomainSpec)
    requires body.Valid() && body.sections == Emit(spec, ORDER[..0])
    modifies body, body.w
    ensures body.Valid() && body.sections == Emit(spec, ORDER[..4])
  {
    hide Emit, Present, Payload, Frame;
    EmitField(body, spec, ROOTFS, 0);
    EmitField(body, spec, HOSTNAME, 1);
    EmitField(body, spec, ARGV, 2);
    EmitField(body, spec, ENV, 3);
  }

  method EmitNamespaces(body: Body, spec: DomainSpec)
    requires body.Valid() && body.sections == Emit(spec, ORDER[..4])
    modifies body, body.w
    ensures body.Valid() && body.sections == Emit(spec, ORDER[..8])
  {
    hide Emit, Present, Payload, Frame;
    EmitField(body, spec, NAMESPACES, 4);
    EmitField(body, spec, UID_MAPS, 5);
    EmitField(body, spec, GID_MAPS, 6);
    EmitField(body, spec, FLAGS, 7);
  }

  method EmitPrivileges(body: Body, spec: DomainSpec)
    requires body.Valid() && body.sections == Emit(spec, ORDER[..8])
    modifies body, body.w
    ensures body.Valid() && body.sections == Emit(spec, ORDER[..12])
  {
    hide Emit, Present, Payload, Frame;
    EmitField(body, spec, CAP_BOUNDING, 8);
    EmitField(body, spec, CAP_SETS, 9);
    EmitField(body, spec, MASKED_PATHS, 10);
    EmitField(body, spec, RO_PATHS, 11);
  }

  method EmitLimits(body: Body, spec: DomainSpec)
    requires body.Valid() && body.sections == Emit(spec, ORDER[..12])
    modifies body, body.w
    ensures body.Valid() && body.sections == Emit(spec, ORDER[..17])
  {
    hide Emit, Present, Payload, Frame;
    EmitField(body, spec, RLIMITS, 12);
    EmitField(body, spec, OOM_SCORE_ADJ, 13);
    EmitField(body, spec, USER, 14);
    EmitField(body, spec, MOUNTS, 15);
    EmitField(body, spec, SYSCTLS, 16);
  }

  /** The fields in the encoder's order. */
  method EmitFields(spec: DomainSpec) returns (body: Body)
    ensures fresh(body) && fresh(body.w) && body.Valid() && body.sections == Emit(spec, ORDER)
  {
    hide Emit, Frame;
    body := new Body();
    EmitNone(spec);
    EmitProcess(body, spec);
    EmitNamespaces(body, spec);
    EmitPrivileges(body, spec);
    EmitLimits(body, spec);
    assert ORDER[..17] == ORDER;
  }

  lemma EmitNone(spec: DomainSpec)
    ensures Emit(spec, ORDER[..0]) == []
  {
  }

  method EncodeSpec(spec: DomainSpec, op: Op) returns (out: Result<bytes, AbiError>)
    ensures out == Encode(spec, op)
  {
    hide Validate, Emit, Le4, Frame;
    var _ :- ValidateSpec(spec);
    var w := new Writer();
    w.Bytes(MAGIC);
    w.U32(ABI_VERSION);
    w.U32(OpCode(op));
    var body := EmitFields(spec);
    w.U32(body.count);
    w.Bytes(body.w.buf);
    assert w.buf == Header(op, body.count) + Frame(body.sections);
    assert body.count == Cast32(|body.sections|);
    if |w.buf| > MAX_SPEC {
      return Err(TooLarge("spec", |w.buf|, MAX_SPEC));
    }
    out := Ok(w.buf);
  }
}
