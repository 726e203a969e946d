/** What the userspace encoder and decoder promise: the exact language the decoder
    accepts, independence of section order, prefix-freeness, and the round trip. */
module AbiProofs {
  import opened Bytes
  import opened Outcomes
  import opened Wire
  import opened AbiFormat

  // ------------------------------------------------------- the field view

  function Good(tag: u16, p: bytes): bool {
    Apply(DEFAULT, tag, p).Ok?
  }

  /** The specification one section alone would give. */
  function One(tag: u16, p: bytes): DomainSpec {
    if Good(tag, p) then Apply(DEFAULT, tag, p).value else DEFAULT
  }

  /** `spec` with the fields a tag governs taken from `from`. */
  function Set(spec: DomainSpec, tag: u16, from: DomainSpec): DomainSpec {
    match tag
    case 1 => spec.(rootfs := from.rootfs)
    case 2 => spec.(hostname := from.hostname)
    case 3 => spec.(argv := from.argv)
    case 4 => spec.(env := from.env)
    case 5 => spec.(namespaces := from.namespaces)
    case 6 => spec.(uidMaps := from.uidMaps)
    case 7 => spec.(gidMaps := from.gidMaps)
    case 8 => spec.(flags := from.flags)
    case 9 => spec.(capsPresent := from.capsPresent, capBounding := from.capBounding)
    case 11 => spec.(maskedPaths := from.maskedPaths)
    case 12 => spec.(readonlyPaths := from.readonlyPaths)
    case 13 => spec.(rlimits := from.rlimits)
    case 14 => spec.(oomScoreAdj := from.oomScoreAdj)
    case 15 => spec.(capEffective := from.capEffective, capPermitted := from.capPermitted,
                     capInheritable := from.capInheritable, capAmbient := from.capAmbient)
    case 16 => spec.(uid := from.uid, gid := from.gid)
    case 17 => spec.(mounts := from.mounts)
    case 18 => spec.(sysctls := from.sysctls)
    case _ => spec
  }

  /** One specification out of one per tag. */
  function Assemble(at: u16 -> DomainSpec): DomainSpec {
    DomainSpec(
      at(ROOTFS).rootfs,
      at(HOSTNAME).hostname,
      at(ARGV).argv,
      at(ENV).env,
      at(NAMESPACES).namespaces,
      at(UID_MAPS).uidMaps,
      at(GID_MAPS).gidMaps,
      at(FLAGS).flags,
      at(CAP_BOUNDING).capsPresent,
      at(CAP_BOUNDING).capBounding,
      at(CAP_SETS).capEffective,
      at(CAP_SETS).capPermitted,
      at(CAP_SETS).capInheritable,
      at(CAP_SETS).capAmbient,
      at(MASKED_PATHS).maskedPaths,
      at(RO_PATHS).readonlyPaths,
      at(RLIMITS).rlimits,
      at(OOM_SCORE_ADJ).oomScoreAdj,
      at(USER).uid,
      at(USER).gid,
      at(MOUNTS).mounts,
      at(SYSCTLS).sysctls)
  }

  function Build(m: map<u16, bytes>): DomainSpec {
    Assemble(tag => if tag in m then One(tag, m[tag]) else DEFAULT)
  }

  const VIEW: View<DomainSpec> := View(KNOWN, Good, Build)

  /** A section's payload is parsed on its own and changes only its fields. */
  lemma ApplySets(spec: DomainSpec, tag: u16, p: bytes)
    ensures Apply(spec, tag, p) ==
      if Good(tag, p) then Ok(Set(spec, tag, Apply(DEFAULT, tag, p).value)) else Err(Apply(DEFAULT, tag, p).error)
  {
  }

  lemma AssembleOneMore(at: u16 -> DomainSpec, at': u16 -> DomainSpec, tag: u16)
    requires forall t :: t != tag ==> at'(t) == at(t)
    requires tag in KNOWN
    ensures Assemble(at') == Set(Assemble(at), tag, at'(tag))
  {
    match tag
    case 1 => case 2 => case 3 => case 4 => case 5 => case 6 =>
    case 7 => case 8 => case 9 => case 11 => case 12 => case 13 =>
    case 14 => case 15 => case 16 => case 17 => case 18 =>
    case _ => assert false;
  }

  lemma ApplyBuilds(m: map<u16, bytes>, tag: u16, p: bytes)
    requires tag in KNOWN && tag !in m
    ensures Good(tag, p) ==> Apply(Build(m), tag, p) == Ok(Build(m[tag := p]))
    ensures !Good(tag, p) ==> Apply(Build(m), tag, p).Err?
  {
    var m' := m[tag := p];
    ApplySets(Build(m), tag, p);
    AssembleOneMore(t => if t in m then One(t, m[t]) else DEFAULT,
                    t => if t in m' then One(t, m'[t]) else DEFAULT, tag);
  }

  lemma ViewDescribes()
    ensures Describes(VIEW, DECODER)
  {
    hide Build, Good;
    UnknownSkipped();
    forall m: map<u16, bytes>, t: u16, p: bytes | t in KNOWN && t !in m
      ensures Good(t, p) ==> Apply(Build(m), t, p) == Ok(Build(m[t := p]))
      ensures !Good(t, p) ==> Apply(Build(m), t, p).Err?
    {
      ApplyBuilds(m, t, p);
    }
  }

  lemma UnknownSkipped()
    ensures forall spec: DomainSpec, t: u16, p: bytes :: t !in KNOWN ==> Apply(spec, t, p) == Ok(spec)
  {
  }

  // ------------------------------------------------- the accepted language

  lemma OpRoundTrip(op: Op, v: u32)
    ensures OpOf(OpCode(op)) == Ok(op)
    ensures OpOf(v).Ok? ==> OpCode(OpOf(v).value) == v
  {
  }

  lemma GetPutHeader(op: Op, count: u32, rest: bytes)
    requires count <= MAX_SPEC / 8
    ensures GetHeader(Header(op, count) + rest) == Ok(((op, count), rest))
  {
    var s := Header(op, count) + rest;
    var r1 := Le4(ABI_VERSION) + (Le4(OpCode(op)) + (Le4(count) + rest));
    assert s == MAGIC + r1;
    assert s[..4] == MAGIC && s[4..] == r1;
    GetPutU32(ABI_VERSION, Le4(OpCode(op)) + (Le4(count) + rest), Truncated);
    GetPutU32(OpCode(op), Le4(count) + rest, Truncated);
    GetPutU32(count, rest, Truncated);
    OpRoundTrip(op, 0);
  }

  lemma PutGetHeader(buf: bytes)
    requires GetHeader(buf).Ok?
    ensures var ((op, count), rest) := GetHeader(buf).value;
      buf == Header(op, count) + rest && count <= MAX_SPEC / 8
  {
    var r1 := buf[4..];
    assert buf == MAGIC + r1;
    var (version, r2) := GetU32(r1, Truncated).value;
    TakenU32(r1, Truncated);
    var (code, r3) := GetU32(r2, Truncated).value;
    TakenU32(r2, Truncated);
    var (count, r4) := GetU32(r3, Truncated).value;
    TakenU32(r3, Truncated);
    OpRoundTrip(Create, code);
    assert buf == MAGIC + Le4(version) + Le4(code) + Le4(count) + r4;
  }

  lemma HeaderFramed(op: Op, xs: seq<Section>, rest: bytes)
    requires |Message(op, xs) + rest| <= MAX_SPEC
    ensures |xs| <= MAX_SPEC / 8 && Sized(xs)
    ensures GetHeader(Message(op, xs) + rest) == Ok(((op, |xs|), Frame(xs) + rest))
  {
    hide GetHeader, Header, Frame;
    FrameBounds(xs);
    assert Message(op, xs) + rest == Header(op, |xs|) + (Frame(xs) + rest);
    GetPutHeader(op, |xs|, Frame(xs) + rest);
  }

  /** Decoding a framed message, plus anything after it. */
  lemma DecodeFramed(op: Op, xs: seq<Section>, rest: bytes)
    requires |Message(op, xs) + rest| <= MAX_SPEC
    ensures |xs| <= MAX_SPEC / 8 && Sized(xs)
    ensures Decode(Message(op, xs) + rest) ==
      (var spec :- Fold(DECODER, xs, {}, DEFAULT);
       if rest != [] then Err(TrailingBytes) else CheckOp(op, spec))
  {
    hide Apply, GetHeader, Walk, Fold, Frame, Message, Sized;
    HeaderFramed(op, xs, rest);
    WalkFrame(DECODER, xs, rest, {}, DEFAULT);
  }

  lemma {:induction false} FrameBounds(xs: seq<Section>)
    ensures forall i :: 0 <= i < |xs| ==> |xs[i].payload| <= |Frame(xs)|
  {
    if xs != [] {
      FrameBounds(xs[1..]);
      assert forall i :: 0 < i < |xs| ==> xs[i] == xs[1..][i - 1];
    }
  }

  /** Every accepted buffer is a message of its operation and some sections. */
  lemma AcceptedIsMessage(buf: bytes) returns (op: Op, xs: seq<Section>)
    requires Decode(buf).Ok?
    ensures op == Decode(buf).value.0 && buf == Message(op, xs) && Sized(xs)
    ensures Fold(DECODER, xs, {}, DEFAULT) == Ok(Decode(buf).value.1)
  {
    hide Apply, GetHeader, Walk, Fold, Header, Sized;
    var ((o, count), r) := GetHeader(buf).value;
    PutGetHeader(buf);
    xs := WalkSplit(DECODER, r, count, {}, DEFAULT);
    op := o;
    assert r == Frame(xs) + [];
    assert r == Frame(xs);
  }

  /** The sections make up a specification, whatever their order. */
  ghost predicate Spells(xs: seq<Section>, spec: DomainSpec) {
    NoRepeat(xs, {}) && AllGood(VIEW, xs) && spec == Build(Fields(KNOWN, xs))
  }

  lemma FoldSpells(xs: seq<Section>, spec: DomainSpec)
    ensures Fold(DECODER, xs, {}, DEFAULT) == Ok(spec) <==> Spells(xs, spec)
  {
    ViewDescribes();
    assert Build(map[]) == DEFAULT;
    FoldIsBuild(VIEW, DECODER, xs, {}, map[]);
    assert map[] + Fields(KNOWN, xs) == Fields(KNOWN, xs);
  }

  predicate Complete(op: Op, spec: DomainSpec) {
    op.Create? ==> spec.rootfs != [] && spec.argv != []
  }

  /** The sections that witness an acceptance. */
  ghost predicate Writes(buf: bytes, op: Op, spec: DomainSpec, xs: seq<Section>) {
    buf == Message(op, xs) && Spells(xs, spec)
  }

  lemma AcceptedWrites(buf: bytes, op: Op, spec: DomainSpec) returns (xs: seq<Section>)
    requires Decode(buf) == Ok((op, spec))
    ensures |buf| <= MAX_SPEC && Complete(op, spec) && Writes(buf, op, spec, xs)
  {
    hide GetHeader, Walk, Fold, Message, Spells;
    var o;
    o, xs := AcceptedIsMessage(buf);
    FoldSpells(xs, spec);
  }

  lemma WritesAccepted(buf: bytes, op: Op, spec: DomainSpec, xs: seq<Section>)
    requires |buf| <= MAX_SPEC && Complete(op, spec) && Writes(buf, op, spec, xs)
    ensures Decode(buf) == Ok((op, spec))
  {
    hide Decode;
    FoldSpells(xs, spec);
    assert buf + [] == buf;
    DecodeFramed(op, xs, []);
  }

  /** The decoder accepts exactly the messages, within 256 KiB, whose small tags
      are distinct, whose known payloads parse, and that are complete for their
      operation; and it returns what they spell. */
  lemma DecodeAccepts(buf: bytes, op: Op, spec: DomainSpec)
    ensures Decode(buf) == Ok((op, spec)) <==>
      |buf| <= 262144 && Complete(op, spec) && exists xs :: Writes(buf, op, spec, xs)
  {
    hide Decode, Writes;
    if Decode(buf) == Ok((op, spec)) {
      var xs := AcceptedWrites(buf, op, spec);
    }
    if |buf| <= MAX_SPEC && Complete(op, spec) && exists xs :: Writes(buf, op, spec, xs) {
      var xs :| Writes(buf, op, spec, xs);
      WritesAccepted(buf, op, spec, xs);
    }
  }

  /** No accepted buffer extends another: an extension that still fits fails with
      exactly `TrailingBytes`, any other with `TooLarge`. */
  lemma ExtensionRejected(buf: bytes, ext: bytes)
    requires Decode(buf).Ok? && ext != []
    ensures Decode(buf + ext) ==
      Err(if |buf + ext| <= 262144 then TrailingBytes else TooLarge("spec", |buf + ext|, 262144))
  {
    if |buf + ext| <= MAX_SPEC {
      var op, xs := AcceptedIsMessage(buf);
      DecodeFramed(op, xs, ext);
    }
  }

  lemma PrefixRejected(buf: bytes, n: nat)
    requires n < |buf| && Decode(buf).Ok?
    ensures Decode(buf[..n]).Err?
  {
    assert buf == buf[..n] + buf[n..];
    if Decode(buf[..n]).Ok? {
      ExtensionRejected(buf[..n], buf[n..]);
    }
  }

  // ---------------------------------------------------- order of sections

  /** Permuting the sections of an accepted buffer does not change the result. */
  lemma OrderIndependent(op: Op, xs: seq<Section>, ys: seq<Section>)
    requires Decode(Message(op, xs)).Ok?
    requires multiset(xs) == multiset(ys)
    ensures Decode(Message(op, ys)) == Decode(Message(op, xs))
  {
    ViewDescribes();
    assert Build(map[]) == DEFAULT;
    assert Message(op, xs) + [] == Message(op, xs) && Message(op, ys) + [] == Message(op, ys);
    FrameLengthPermutes(xs, ys);
    DecodeFramed(op, xs, []);
    FoldPermutes(VIEW, DECODER, xs, ys);
    DecodeFramed(op, ys, []);
  }

  /** A section of an unknown tag can be added anywhere, as long as the buffer
      stays within bounds. */
  lemma UnknownIgnored(op: Op, a: seq<Section>, y: Section, b: seq<Section>)
    requires Decode(Message(op, a + b)).Ok?
    requires y.tag !in KNOWN && (y.tag >= 64 || forall x :: x in a + b ==> x.tag != y.tag)
    requires |Message(op, a + [y] + b)| <= 262144
    ensures Decode(Message(op, a + [y] + b)) == Decode(Message(op, a + b))
  {
    ViewDescribes();
    assert Build(map[]) == DEFAULT;
    assert Message(op, a + b) + [] == Message(op, a + b);
    assert Message(op, a + [y] + b) + [] == Message(op, a + [y] + b);
    DecodeFramed(op, a + b, []);
    FoldIgnoresUnknown(VIEW, DECODER, a, y, b);
    DecodeFramed(op, a + [y] + b, []);
  }

  /** Two sections with the same tag below 64 make the decoder reject. */
  lemma CopyRejected(op: Op, xs: seq<Section>, i: nat, j: nat)
    requires i < j < |xs| && xs[i].tag == xs[j].tag < 64
    ensures Decode(Message(op, xs)).Err?
  {
    if |Message(op, xs)| <= MAX_SPEC {
      ViewDescribes();
      assert Build(map[]) == DEFAULT;
      assert Message(op, xs) + [] == Message(op, xs);
      DecodeFramed(op, xs, []);
      FoldRejectsCopy(VIEW, DECODER, xs, i, j);
    }
  }
}
