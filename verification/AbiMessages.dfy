/** Messages written out byte by byte, and what the two ends make of them. */
module AbiMessages {
  import opened Bytes
  import opened Outcomes
  import opened Wire
  import opened AbiFormat
  import opened Utf8
  import AbiProofs
  import R = AbiRoundTrip
  import K = KernelFormat
  import KernelProofs

  /** A number below 65536 in four bytes, the lowest first. */
  function Word(n: nat): (b: bytes)
    requires n < 0x1_0000
    ensures |b| == 4
  {
    [n % 256, n / 256, 0, 0]
  }

  /** Version 1, create, and the number of sections. */
  function CreateHeader(count: nat): bytes
    requires count < 0x1_0000
  {
    Ascii("KRNC") + Word(1) + Word(1) + Word(count)
  }

  /** A section: its tag, two unused bytes, its length, its bytes. */
  function Tagged(tag: nat, payload: bytes): bytes
    requires tag < 256 && |payload| < 0x1_0000
  {
    [tag, 0, 0, 0] + Word(|payload|) + payload
  }

  /** A container of a root file system and a program without arguments. */
  function Small(rootfs: bytes, program: bytes): bytes
    requires |rootfs| <= 60000 && |program| <= 60000
  {
    CreateHeader(2) + Tagged(1, rootfs) + Tagged(3, Word(1) + Word(|program|) + program)
  }

  function SmallSections(rootfs: bytes, program: bytes): seq<Section>
    requires |program| <= 60000
  {
    [Section(1, 0, rootfs), Section(3, 0, Le4(1) + (Le4(|program|) + program))]
  }

  lemma WordIsLe4(n: nat)
    requires n < 0x1_0000
    ensures Word(n) == Le4(n)
  {
  }

  lemma TaggedIsPut(tag: nat, payload: bytes)
    requires tag < 256 && |payload| < 0x1_0000
    ensures Tagged(tag, payload) == Put(Section(tag, 0, payload))
  {
    WordIsLe4(|payload|);
    assert Le2(tag) + Le2(0) == [tag, 0, 0, 0];
  }

  lemma HeaderIs(count: nat)
    requires count < 0x1_0000
    ensures CreateHeader(count) == Header(Create, count)
  {
    WordIsLe4(1);
    WordIsLe4(count);
    assert Ascii("KRNC") == MAGIC;
  }

  lemma SmallIsMessage(rootfs: bytes, program: bytes)
    requires |rootfs| <= 60000 && |program| <= 60000
    ensures Small(rootfs, program) == Message(Create, SmallSections(rootfs, program))
    ensures |Small(rootfs, program)| <= MAX_SPEC
  {
    hide Le4, Put, Tagged, CreateHeader, Header;
    HeaderIs(2);
    WordIsLe4(1);
    WordIsLe4(|program|);
    var list := Le4(1) + (Le4(|program|) + program);
    assert Le4(1) + Le4(|program|) + program == list;
    TaggedIsPut(1, rootfs);
    TaggedIsPut(3, list);
    var xs := SmallSections(rootfs, program);
    assert xs[1..] == [Section(3, 0, list)];
    assert Frame(xs[1..]) == Put(xs[1]);
  }

  lemma ProgramSection(spec: DomainSpec, program: bytes)
    requires |program| <= 60000
    ensures Apply(spec, 3, Le4(1) + (Le4(|program|) + program)) ==
      if |program| > 4096 then Err(TooLarge("string", |program|, 4096))
      else if ValidUtf8(program) then Ok(spec.(argv := [program])) else Err(Utf8)
  {
    hide Le4, ValidUtf8, GetU32;
    GetPutU32(1, Le4(|program|) + program, Truncated);
    GetPutU32(|program|, program, Truncated);
    var item := Le4(|program|) + program;
    assert program[..|program|] == program && program[|program|..] == [];
    if |program| <= 4096 && ValidUtf8(program) {
      assert GetItem(item) == Ok((program, []));
      assert Many(GetItem, [], 0) == Ok(([], []));
      assert [program] + [] == [program];
    }
    assert Many(GetItem, item, 1) == if |program| > 4096 then Err(TooLarge("string", |program|, 4096))
      else if ValidUtf8(program) then Ok(([program], [])) else Err(Utf8);
  }

  /** What a small Create message decodes to, byte for byte: its texts are taken if and
      only if they are at most 4096 bytes of UTF-8, and then a container needs a root file
      system. */
  lemma SmallDecodes(rootfs: bytes, program: bytes)
    requires |rootfs| <= 60000 && |program| <= 60000
    ensures Decode(Small(rootfs, program)) ==
      if |rootfs| > 4096 then Err(TooLarge("rootfs", |rootfs|, 4096))
      else if !Encodes(rootfs) then Err(Utf8)
      else if |program| > 4096 then Err(TooLarge("string", |program|, 4096))
      else if !Encodes(program) then Err(Utf8)
      else if rootfs == [] then Err(Missing("rootfs"))
      else Ok((Create, DEFAULT.(rootfs := rootfs, argv := [program])))
  {
    hide Decode, Message, ValidUtf8, Encodes, Small, Apply, Le4;
    ValidIff(rootfs);
    ValidIff(program);
    SmallIsMessage(rootfs, program);
    var xs := SmallSections(rootfs, program);
    assert Message(Create, xs) + [] == Message(Create, xs);
    AbiProofs.DecodeFramed(Create, xs, []);
    SmallFolds(rootfs, program);
  }

  lemma SmallFolds(rootfs: bytes, program: bytes)
    requires |rootfs| <= 60000 && |program| <= 60000
    ensures Fold(DECODER, SmallSections(rootfs, program), {}, DEFAULT) ==
      if |rootfs| > 4096 then Err(TooLarge("rootfs", |rootfs|, 4096))
      else if !ValidUtf8(rootfs) then Err(Utf8)
      else if |program| > 4096 then Err(TooLarge("string", |program|, 4096))
      else if !ValidUtf8(program) then Err(Utf8)
      else Ok(DEFAULT.(rootfs := rootfs, argv := [program]))
  {
    hide Apply, ValidUtf8, Le4;
    var xs := SmallSections(rootfs, program);
    RootfsSection(DEFAULT, rootfs);
    assert Accept(DECODER, xs[0], {}, DEFAULT) == Apply(DEFAULT, 1, rootfs);
    if |rootfs| <= 4096 && ValidUtf8(rootfs) {
      var spec := DEFAULT.(rootfs := rootfs);
      ProgramSection(spec, program);
      assert Accept(DECODER, xs[1], Mark({}, 1), spec) == Apply(spec, 3, xs[1].payload);
      assert xs[1..][0] == xs[1] && xs[1..][1..] == [];
      assert Fold(DECODER, xs[1..], Mark({}, 1), spec) == Apply(spec, 3, xs[1].payload);
    }
  }

  lemma RootfsSection(spec: DomainSpec, rootfs: bytes)
    requires |rootfs| <= 60000
    ensures Apply(spec, 1, rootfs) ==
      if |rootfs| > 4096 then Err(TooLarge("rootfs", |rootfs|, 4096))
      else if ValidUtf8(rootfs) then Ok(spec.(rootfs := rootfs)) else Err(Utf8)
  {
    hide ValidUtf8;
  }

  // ------------------------------------------------------- a whole message

  /** A specification with every field set. */
  function Full(): DomainSpec {
    DomainSpec(
      Ascii("/r"), Ascii("h"), [Ascii("a")], [Ascii("E=1")], 0x2000_0000,
      [IdMap(0, 1000, 1)], [IdMap(0, 2000, 2)], 3,
      true, 1, 2, 3, 4, 5,
      [Ascii("/m")], [Ascii("/o")], [Rlimit(7, 1024, 4096)], Some(-1), 1000, 7,
      [Mount(Ascii("/p"), Ascii("proc"), Ascii("none"), 6)], [Ascii("a=1")])
  }

  /** Its sections in the order in which they are written. */
  function FullParts(): (r: seq<bytes>)
    ensures |r| == 17
  {
    [ Tagged(1, Ascii("/r")), Tagged(2, Ascii("h")),
      Tagged(3, Word(1) + Word(1) + Ascii("a")), Tagged(4, Word(1) + Word(3) + Ascii("E=1")),
      Tagged(5, [0, 0, 0, 0x20]),
      Tagged(6, Word(1) + Word(0) + Word(1000) + Word(1)), Tagged(7, Word(1) + Word(0) + Word(2000) + Word(2)),
      Tagged(8, Word(3) + Word(0)), Tagged(9, Word(1) + Word(0)),
      Tagged(15, Word(2) + Word(0) + Word(3) + Word(0) + Word(4) + Word(0) + Word(5) + Word(0)),
      Tagged(11, Word(1) + Word(2) + Ascii("/m")), Tagged(12, Word(1) + Word(2) + Ascii("/o")),
      Tagged(13, Word(1) + Word(7) + Word(1024) + Word(0) + Word(4096) + Word(0)),
      Tagged(14, [255, 255, 255, 255]), Tagged(16, Word(1000) + Word(7)),
      Tagged(17,
        Word(1) + Word(2) + Ascii("/p") + Word(4) + Ascii("proc") + Word(4) + Ascii("none") + Word(6) + Word(0)),
      Tagged(18, Word(1) + Word(3) + Ascii("a=1")) ]
  }

  lemma ListOfOne<T>(put: T -> bytes, x: T)
    ensures PutList(put, [x]) == Word(1) + put(x)
  {
    WordIsLe4(1);
    assert Puts(put, [x]) == [put(x)];
    assert Concat([put(x)]) == put(x) + Concat([]);
  }

  lemma StringIs(s: bytes)
    requires |s| < 0x1_0000
    ensures PutString(s) == Word(|s|) + s
  {
    WordIsLe4(|s|);
  }

  lemma LongIs(n: nat)
    requires n < 0x1_0000
    ensures Le8(n) == Word(n) + Word(0)
  {
    WordIsLe4(n);
    WordIsLe4(0);
  }

  lemma FullStrings()
    ensures Payload(Full(), 3) == Word(1) + Word(1) + Ascii("a")
    ensures Payload(Full(), 4) == Word(1) + Word(3) + Ascii("E=1")
    ensures Payload(Full(), 11) == Word(1) + Word(2) + Ascii("/m")
    ensures Payload(Full(), 12) == Word(1) + Word(2) + Ascii("/o")
    ensures Payload(Full(), 18) == Word(1) + Word(3) + Ascii("a=1")
  {
    hide Word, Le4;
    ListOfOne(PutString, Ascii("a"));
    ListOfOne(PutString, Ascii("E=1"));
    ListOfOne(PutString, Ascii("/m"));
    ListOfOne(PutString, Ascii("/o"));
    ListOfOne(PutString, Ascii("a=1"));
    StringIs(Ascii("a"));
    StringIs(Ascii("E=1"));
    StringIs(Ascii("/m"));
    StringIs(Ascii("/o"));
    StringIs(Ascii("a=1"));
  }

  lemma FullNumbers()
    ensures Payload(Full(), 5) == [0, 0, 0, 0x20]
    ensures Payload(Full(), 8) == Word(3) + Word(0)
    ensures Payload(Full(), 9) == Word(1) + Word(0)
    ensures Payload(Full(), 15) == Word(2) + Word(0) + Word(3) + Word(0) + Word(4) + Word(0) + Word(5) + Word(0)
    ensures Payload(Full(), 14) == [255, 255, 255, 255]
    ensures Payload(Full(), 16) == Word(1000) + Word(7)
  {
    hide Word, Le8;
    LongIs(1);
    LongIs(2);
    LongIs(3);
    LongIs(4);
    LongIs(5);
    WordIsLe4(1000);
    WordIsLe4(7);
  }

  lemma FullRecords()
    ensures Payload(Full(), 6) == Word(1) + Word(0) + Word(1000) + Word(1)
    ensures Payload(Full(), 7) == Word(1) + Word(0) + Word(2000) + Word(2)
    ensures Payload(Full(), 13) == Word(1) + Word(7) + Word(1024) + Word(0) + Word(4096) + Word(0)
  {
    hide Word, Le4, Le8;
    WordIsLe4(0);
    WordIsLe4(1);
    WordIsLe4(2);
    WordIsLe4(7);
    WordIsLe4(1000);
    WordIsLe4(2000);
    LongIs(1024);
    LongIs(4096);
    ListOfOne(PutIdMap, IdMap(0, 1000, 1));
    ListOfOne(PutIdMap, IdMap(0, 2000, 2));
    ListOfOne(PutRlimit, Rlimit(7, 1024, 4096));
  }

  lemma FullMounts()
    ensures Payload(Full(), 17) ==
      Word(1) + Word(2) + Ascii("/p") + Word(4) + Ascii("proc") + Word(4) + Ascii("none") + Word(6) + Word(0)
  {
    hide Word, Le4, Le8, PutString;
    LongIs(6);
    StringIs(Ascii("/p"));
    StringIs(Ascii("proc"));
    StringIs(Ascii("none"));
    ListOfOne(PutMount, Mount(Ascii("/p"), Ascii("proc"), Ascii("none"), 6));
  }

  /** The `i`-th section written, of the tag in that place. */
  lemma FullPart(i: nat)
    requires i < 17
    ensures Put(Section(ORDER[i], 0, Payload(Full(), ORDER[i]))) == FullParts()[i]
    ensures Present(Full(), ORDER[i])
  {
    hide Payload, Put, Tagged, Word;
    FullStrings();
    FullNumbers();
    FullRecords();
    FullMounts();
    TextPayloads();
    assert |Payload(Full(), ORDER[i])| < 0x1_0000;
    TaggedIsPut(ORDER[i], Payload(Full(), ORDER[i]));
    assert FullParts()[i] == Tagged(ORDER[i], Payload(Full(), ORDER[i]));
  }

  lemma TextPayloads()
    ensures Payload(Full(), 1) == Ascii("/r") && Payload(Full(), 2) == Ascii("h")
  {
  }

  lemma {:induction false} EmitAll(spec: DomainSpec, tags: seq<u16>)
    requires forall i :: 0 <= i < |tags| ==> Present(spec, tags[i])
    ensures |Emit(spec, tags)| == |tags|
    ensures forall i :: 0 <= i < |tags| ==> Emit(spec, tags)[i] == Section(tags[i], 0, Payload(spec, tags[i]))
    decreases |tags|
  {
    hide Present, Payload;
    if tags != [] {
      EmitAll(spec, tags[1..]);
    }
  }

  lemma {:induction false} FrameIsConcat(xs: seq<Section>, parts: seq<bytes>)
    requires |xs| == |parts| && forall i :: 0 <= i < |xs| ==> Put(xs[i]) == parts[i]
    ensures Frame(xs) == Concat(parts)
    decreases |xs|
  {
    hide Put;
    if xs != [] {
      FrameIsConcat(xs[1..], parts[1..]);
    }
  }

  lemma {:induction false} ConcatBound(parts: seq<bytes>)
    requires forall i :: 0 <= i < |parts| ==> |parts[i]| <= 1000
    ensures |Concat(parts)| <= 1000 * |parts|
  {
    if parts != [] {
      ConcatBound(parts[1..]);
    }
  }

  /** The bytes of a message in which every field is present. */
  lemma FullEncodes()
    ensures Encode(Full(), Create) == Ok(CreateHeader(17) + Concat(FullParts()))
  {
    hide Emit, Present, Payload, Put, Frame, FullParts, Concat, Header, Le4;
    forall i | 0 <= i < 17
      ensures Present(Full(), ORDER[i]) && Put(Section(ORDER[i], 0, Payload(Full(), ORDER[i]))) == FullParts()[i]
    {
      FullPart(i);
    }
    EmitAll(Full(), ORDER);
    FrameIsConcat(Emit(Full(), ORDER), FullParts());
    HeaderIs(17);
    FullPartsShort();
    ConcatBound(FullParts());
    FullValid();
  }

  lemma FullPartsShort()
    ensures forall i :: 0 <= i < |FullParts()| ==> |FullParts()[i]| <= 1000
  {
    hide Word;
  }

  lemma FullValid()
    ensures Validate(Full()).Ok?
  {
    R.ValidateBounds(Full());
  }

  // ------------------------------------------------------- what is written

  /** The fields a tag stands for are not those of an empty specification. */
  predicate Differs(spec: DomainSpec, tag: u16) {
    match tag
    case 9 => spec.capsPresent
    case 15 => spec.capsPresent
    case _ => AbiProofs.Set(DEFAULT, tag, spec) != DEFAULT
  }

  /** A field is written if and only if it is not the default; the capability words as
      soon as they are marked present. */
  lemma OnlyNonDefault(spec: DomainSpec, tag: u16)
    ensures Present(spec, tag) <==> Differs(spec, tag)
  {
  }

  // --------------------------------------------------------- bad headers

  /** The number at an offset, lowest byte first. */
  function At(buf: bytes, i: nat): nat
    requires i + 4 <= |buf|
  {
    buf[i] + 256 * (buf[i + 1] + 256 * (buf[i + 2] + 256 * buf[i + 3] as int))
  }

  /** What is wrong with the first 16 bytes, the first fault first. */
  function HeaderFault(buf: bytes): Option<AbiError> {
    if |buf| < 4 then Some(Truncated)
    else if buf[..4] != Ascii("KRNC") then Some(BadMagic)
    else if |buf| < 8 then Some(Truncated)
    else if At(buf, 4) != 1 then Some(UnsupportedVersion(At(buf, 4)))
    else if |buf| < 12 then Some(Truncated)
    else if At(buf, 8) < 1 || At(buf, 8) > 5 then Some(BadOp(At(buf, 8)))
    else if |buf| < 16 then Some(Truncated)
    else if At(buf, 12) > 32768 then Some(TooLarge("section_count", At(buf, 12), 32768))
    else None
  }

  lemma WordAt<E>(buf: bytes, i: nat, short: E)
    requires i <= |buf|
    ensures GetU32(buf[i..], short) == if i + 4 > |buf| then Err(short) else Ok((At(buf, i), buf[i + 4..]))
  {
    if i + 4 <= |buf| {
      var b := buf[i..][..4];
      assert b == [buf[i], buf[i + 1], buf[i + 2], buf[i + 3]];
      assert buf[i..][4..] == buf[i + 4..];
      assert FromLe4(b) == At(buf, i);
    }
  }

  /** A fault in the header is the answer, whatever follows. */
  lemma FaultyHeader(buf: bytes)
    ensures |buf| > 262144 ==> Decode(buf) == Err(TooLarge("spec", |buf|, 262144))
    ensures |buf| <= 262144 && HeaderFault(buf).Some? ==> Decode(buf) == Err(HeaderFault(buf).value)
    ensures HeaderFault(buf).None? ==> GetHeader(buf).Ok? && OpCode(GetHeader(buf).value.0.0) == At(buf, 8)
  {
    hide GetU32, Walk, At;
    assert Ascii("KRNC") == MAGIC;
    if |buf| >= 4 {
      WordAt(buf, 4, Truncated);
    }
    if |buf| >= 8 {
      WordAt(buf, 8, Truncated);
    }
    if |buf| >= 12 {
      WordAt(buf, 12, Truncated);
    }
  }

  // -------------------------------------------------- the kernel's reading

  /** The container of a small message. */
  function SmallArgs(rootfs: bytes, program: bytes): K.ContainerArgs {
    K.ContainerArgs(
      Ascii("krunc") + [0], rootfs + [0], [program + [0]], [], 0x6C02_0000, false,
      K.CapSets(false, 0, 0, 0, 0, 0), false, false, [], [], [], None, 0, 0, [], [])
  }

  lemma SmallFoldsInKernel(rootfs: bytes, program: bytes)
    requires |rootfs| <= 4096 && |program| <= 4096
    ensures Fold(K.DECODER, SmallSections(rootfs, program), {}, K.DEFAULT) ==
      Ok(K.DEFAULT.(rootfs := rootfs + [0], argv := [program + [0]]))
  {
    hide Le4, K.Apply;
    var xs := SmallSections(rootfs, program);
    var d := K.DEFAULT.(rootfs := rootfs + [0]);
    KernelSections(d, rootfs, program);
    assert Accept(K.DECODER, xs[0], {}, K.DEFAULT) == K.Apply(K.DEFAULT, 1, rootfs);
    assert Accept(K.DECODER, xs[1], Mark({}, 1), d) == K.Apply(d, 3, xs[1].payload);
    assert xs[1..][0] == xs[1] && xs[1..][1..] == [];
    assert Fold(K.DECODER, xs[1..], Mark({}, 1), d) == K.Apply(d, 3, xs[1].payload);
  }

  lemma KernelSections(d: K.DecodedSpec, rootfs: bytes, program: bytes)
    requires |program| <= 4096
    ensures K.Apply(K.DEFAULT, 1, rootfs) == Ok(K.DEFAULT.(rootfs := rootfs + [0]))
    ensures K.Apply(d, 3, Le4(1) + (Le4(|program|) + program)) == Ok(d.(argv := [program + [0]]))
  {
    hide Le4, GetU32;
    GetPutU32(1, Le4(|program|) + program, EINVAL);
    GetPutU32(|program|, program, EINVAL);
    var item := Le4(|program|) + program;
    assert program[..|program|] == program && program[|program|..] == [];
    assert K.GetItem(item) == Ok((program, []));
    assert Many(K.GetItem, [], 0) == Ok(([], []));
    assert [program] + [] == [program];
    assert Many(K.GetItem, item, 1) == Ok(([program], []));
    assert K.ToCvecs([program]) == [program + [0]];
  }

  /** The kernel takes a small message exactly if it names a root file system. It does not
      look at whether the texts are UTF-8. */
  lemma SmallStarts(rootfs: bytes, program: bytes)
    requires |rootfs| <= 4096 && |program| <= 4096
    ensures K.CreateFromBlob(Small(rootfs, program)) ==
      if rootfs == [] then Err(EINVAL) else Ok(SmallArgs(rootfs, program))
  {
    hide K.DecodeSpec, Message, Small, Fold, SmallSections, KernelProofs.Message;
    SmallIsMessage(rootfs, program);
    SmallFoldsInKernel(rootfs, program);
    var xs := SmallSections(rootfs, program);
    assert Message(Create, xs) == KernelProofs.Message(1, xs) by { SameMessage(xs); }
    assert KernelProofs.Message(1, xs) + [] == KernelProofs.Message(1, xs);
    SmallLength(rootfs, program);
    KernelProofs.DecodeFramed(1, xs, []);
    assert K.DEFAULT_HOST == Ascii("krunc") + [0];
  }

  lemma SameMessage(xs: seq<Section>)
    ensures Message(Create, xs) == KernelProofs.Message(1, xs)
  {
  }

  lemma SmallLength(rootfs: bytes, program: bytes)
    requires |rootfs| <= 4096 && |program| <= 4096
    ensures |Small(rootfs, program)| <= 16384
  {
  }

  // ------------------------------------------------------- kernel errors

  /** Whatever the kernel refuses, it refuses with EINVAL. */
  lemma KernelErrors(buf: bytes)
    ensures K.CreateFromBlob(buf).Err? ==> K.CreateFromBlob(buf).error == EINVAL
  {
    hide K.GetHeader, K.DEFAULT, K.DECODER;
    HeaderError(buf);
    if K.GetHeader(buf).Ok? {
      var (count, r) := K.GetHeader(buf).value;
      WalkError(r, count, {}, K.DEFAULT);
    }
  }

  lemma HeaderError(buf: bytes)
    ensures K.GetHeader(buf).Err? ==> K.GetHeader(buf).error == EINVAL
  {
  }

  lemma {:induction false} WalkError(s: bytes, n: nat, seen: set<u16>, d: K.DecodedSpec)
    ensures Walk(K.DECODER, s, n, seen, d).Err? ==> Walk(K.DECODER, s, n, seen, d).error == EINVAL
    decreases n
  {
    hide K.Apply, GetSection;
    if n > 0 {
      SectionError(s);
      if GetSection(s, EINVAL).Ok? {
        var (x, t) := GetSection(s, EINVAL).value;
        ApplyError(d, x.tag, x.payload);
        var r := Accept(K.DECODER, x, seen, d);
        if r.Ok? {
          WalkError(t, n - 1, Mark(seen, x.tag), r.value);
        }
      }
    }
  }

  lemma SectionError(s: bytes)
    ensures GetSection(s, EINVAL).Err? ==> GetSection(s, EINVAL).error == EINVAL
  {
  }

  lemma ApplyError(d: K.DecodedSpec, tag: u16, p: bytes)
    ensures K.Apply(d, tag, p).Err? ==> K.Apply(d, tag, p).error == EINVAL
  {
    hide K.GetItem, K.GetMount, K.GetRlimit;
    ManyErrors();
    if GetU32(p, EINVAL).Ok? {
      var (n, t) := GetU32(p, EINVAL).value;
      ManyError(K.GetItem, t, n);
      ManyError(K.GetMount, t, n);
      ManyError(K.GetRlimit, t, n);
    }
  }

  lemma ManyErrors()
    ensures forall s :: K.GetItem(s).Err? ==> K.GetItem(s).error == EINVAL
    ensures forall s :: K.GetMount(s).Err? ==> K.GetMount(s).error == EINVAL
    ensures forall s :: K.GetRlimit(s).Err? ==> K.GetRlimit(s).error == EINVAL
  {
  }

  lemma {:induction false} ManyError<T>(item: bytes -> Parse<T, Errno>, s: bytes, n: nat)
    requires forall u :: item(u).Err? ==> item(u).error == EINVAL
    ensures Many(item, s, n).Err? ==> Many(item, s, n).error == EINVAL
    decreases n
  {
    if n > 0 && item(s).Ok? {
      ManyError(item, item(s).value.1, n - 1);
    }
  }

  // --------------------------------------------------------- one more section

  function Tags(xs: seq<Section>, seen: set<u16>): set<u16> {
    if xs == [] then seen else Tags(xs[1..], Mark(seen, xs[0].tag))
  }

  lemma {:induction false} TagsAre(xs: seq<Section>, seen: set<u16>, t: u16)
    ensures t in Tags(xs, seen) <==> t in seen || (t < 64 && exists i :: 0 <= i < |xs| && xs[i].tag == t)
  {
    if xs != [] {
      TagsAre(xs[1..], Mark(seen, xs[0].tag), t);
      assert forall i :: 0 < i < |xs| ==> xs[i] == xs[1..][i - 1];
    }
  }

  lemma {:induction false} FoldSnoc(xs: seq<Section>, x: Section, seen: set<u16>, spec: DomainSpec)
    ensures Fold(DECODER, xs + [x], seen, spec) ==
      (var s :- Fold(DECODER, xs, seen, spec); Accept(DECODER, x, Tags(xs, seen), s))
  {
    hide Accept;
    if xs == [] {
      assert xs + [x] == [x] && [x][1..] == [];
    } else {
      assert (xs + [x])[1..] == xs[1..] + [x];
      var r := Accept(DECODER, xs[0], seen, spec);
      if r.Ok? {
        FoldSnoc(xs[1..], x, Mark(seen, xs[0].tag), r.value);
      }
    }
  }

  /** A section after good ones decides the answer: a tag below 64 that was there already
      is an error of its own, else what is in it counts. */
  lemma NextSection(op: Op, xs: seq<Section>, x: Section, spec: DomainSpec)
    requires Fold(DECODER, xs, {}, DEFAULT) == Ok(spec) && |Message(op, xs + [x])| <= 262144
    ensures Decode(Message(op, xs + [x])) ==
      if x.tag < 64 && exists i :: 0 <= i < |xs| && xs[i].tag == x.tag then Err(Duplicate(x.tag))
      else (var s :- Apply(spec, x.tag, x.payload); CheckOp(op, s))
  {
    hide Decode, Message, Fold, Apply;
    assert Message(op, xs + [x]) + [] == Message(op, xs + [x]);
    AbiProofs.DecodeFramed(op, xs + [x], []);
    FoldSnoc(xs, x, {}, DEFAULT);
    TagsAre(xs, {}, x.tag);
  }

  /** After sections that are all good, a container needs a root file system and a
      program, in this order. */
  lemma AllSections(op: Op, xs: seq<Section>, spec: DomainSpec)
    requires Fold(DECODER, xs, {}, DEFAULT) == Ok(spec) && |Message(op, xs)| <= 262144
    ensures Decode(Message(op, xs)) ==
      if op == Create && spec.rootfs == [] then Err(Missing("rootfs"))
      else if op == Create && spec.argv == [] then Err(Missing("argv"))
      else Ok((op, spec))
  {
    hide Decode, Message, Fold, Apply;
    assert Message(op, xs) + [] == Message(op, xs);
    AbiProofs.DecodeFramed(op, xs, []);
  }
}
