/** What the kernel decoder promises, on its own and about buffers the userspace
    decoder accepts. */
module KernelProofs {
  import opened Bytes
  import opened Outcomes
  import opened Wire
  import opened KernelFormat
  import AbiFormat
  import AbiProofs

  // ------------------------------------------------------- the field view

  function Good(tag: u16, p: bytes): bool {
    Apply(DEFAULT, tag, p).Ok?
  }

  function One(tag: u16, p: bytes): DecodedSpec {
    if Good(tag, p) then Apply(DEFAULT, tag, p).value else DEFAULT
  }

  /** `d` with the fields a tag governs taken from `from`. */
  function Set(d: DecodedSpec, tag: u16, from: DecodedSpec): DecodedSpec {
    match tag
    case 1 => d.(rootfs := from.rootfs)
    case 2 => d.(hostname := from.hostname)
    case 3 => d.(argv := from.argv)
    case 4 => d.(envp := from.envp)
    case 5 => d.(ns := from.ns)
    case 8 => d.(flags := from.flags)
    case 9 => d.(capPresent := from.capPresent, capBounding := from.capBounding)
    case 11 => d.(masked := from.masked)
    case 12 => d.(readonly := from.readonly)
    case 13 => d.(rlimits := from.rlimits)
    case 14 => d.(oomScoreAdj := from.oomScoreAdj)
    case 15 => d.(capEffective := from.capEffective, capPermitted := from.capPermitted,
                  capInheritable := from.capInheritable, capAmbient := from.capAmbient)
    case 16 => d.(uid := from.uid, gid := from.gid)
    case 17 => d.(mounts := from.mounts)
    case 18 => d.(sysctls := from.sysctls)
    case _ => d
  }

  function Assemble(at: u16 -> DecodedSpec): DecodedSpec {
    DecodedSpec(
      at(2).hostname, at(1).rootfs, at(3).argv, at(4).envp, at(5).ns,
      at(9).capPresent, at(9).capBounding,
      at(15).capEffective, at(15).capPermitted, at(15).capInheritable, at(15).capAmbient,
      at(8).flags, at(11).masked, at(12).readonly, at(13).rlimits, at(14).oomScoreAdj,
      at(16).uid, at(16).gid, at(17).mounts, at(18).sysctls)
  }

  function Build(m: map<u16, bytes>): DecodedSpec {
    Assemble(tag => if tag in m then One(tag, m[tag]) else DEFAULT)
  }

  const VIEW: View<DecodedSpec> := View(KNOWN, Good, Build)

  lemma ApplySets(d: DecodedSpec, tag: u16, p: bytes)
    ensures Apply(d, tag, p) ==
      if Good(tag, p) then Ok(Set(d, tag, Apply(DEFAULT, tag, p).value)) else Err(Apply(DEFAULT, tag, p).error)
  {
  }

  lemma AssembleOneMore(at: u16 -> DecodedSpec, at': u16 -> DecodedSpec, tag: u16)
    requires forall t :: t != tag ==> at'(t) == at(t)
    requires tag in KNOWN
    ensures Assemble(at') == Set(Assemble(at), tag, at'(tag))
  {
    match tag
    case 1 => case 2 => case 3 => case 4 => case 5 => case 8 => case 9 =>
    case 11 => case 12 => case 13 => case 14 => case 15 => case 16 => case 17 => case 18 =>
    case _ => assert false;
  }

  lemma ApplyBuilds(m: map<u16, bytes>, tag: u16, p: bytes)
    requires tag in KNOWN && tag !in m
    ensures Good(tag, p) ==> Apply(Build(m), tag, p) == Ok(Build(m[tag := p]))
    ensures !Good(tag, p) ==> Apply(Build(m), tag, p).Err?
  {
    var m' := m[tag := p];
    ApplySets(Build(m), tag, p);
    AssembleOneMore(t => if t in m then One(t, m[t]) else DEFAULT,
                    t => if t in m' then One(t, m'[t]) else DEFAULT, tag);
  }

  lemma ViewDescribes()
    ensures Describes(VIEW, DECODER)
  {
    hide Build, Good;
    UnknownSkipped();
    forall m: map<u16, bytes>, t: u16, p: bytes | t in KNOWN && t !in m
      ensures Good(t, p) ==> Apply(Build(m), t, p) == Ok(Build(m[t := p]))
      ensures !Good(t, p) ==> Apply(Build(m), t, p).Err?
    {
      ApplyBuilds(m, t, p);
    }
  }

  lemma UnknownSkipped()
    ensures forall d: DecodedSpec, t: u16, p: bytes :: t !in KNOWN ==> Apply(d, t, p) == Ok(d)
  {
  }

  // ------------------------------------------------- the accepted language

  /** A header with any operation word: the kernel ignores it. */
  function Header(op: u32, count: u32): (b: bytes)
    ensures |b| == 16
  {
    AbiFormat.MAGIC + Le4(ABI_VERSION) + Le4(op) + Le4(count)
  }

  function Message(op: u32, xs: seq<Section>): bytes {
    Header(op, Cast32(|xs|)) + Frame(xs)
  }

  lemma GetPutHeader(op: u32, count: u32, rest: bytes)
    requires count <= MAX_SPEC / 8
    ensures GetHeader(Header(op, count) + rest) == Ok((count, rest))
  {
    var s := Header(op, count) + rest;
    var r1 := Le4(ABI_VERSION) + (Le4(op) + (Le4(count) + rest));
    assert s == AbiFormat.MAGIC + r1;
    assert s[..4] == AbiFormat.MAGIC && s[4..] == r1;
    GetPutU32(ABI_VERSION, Le4(op) + (Le4(count) + rest), EINVAL);
    GetPutU32(op, Le4(count) + rest, EINVAL);
    GetPutU32(count, rest, EINVAL);
  }

  lemma PutGetHeader(buf: bytes) returns (op: u32)
    requires GetHeader(buf).Ok?
    ensures var (count, rest) := GetHeader(buf).value;
      buf == Header(op, count) + rest && count <= MAX_SPEC / 8
  {
    var r1 := buf[4..];
    assert buf == AbiFormat.MAGIC + r1;
    var (version, r2) := GetU32(r1, EINVAL).value;
    TakenU32(r1, EINVAL);
    var (code, r3) := GetU32(r2, EINVAL).value;
    TakenU32(r2, EINVAL);
    var (count, r4) := GetU32(r3, EINVAL).value;
    TakenU32(r3, EINVAL);
    op := code;
    assert buf == AbiFormat.MAGIC + Le4(version) + Le4(code) + Le4(count) + r4;
  }

  lemma HeaderFramed(op: u32, xs: seq<Section>, rest: bytes)
    requires |Message(op, xs) + rest| <= MAX_SPEC
    ensures |xs| <= 2046 && Sized(xs)
    ensures GetHeader(Message(op, xs) + rest) == Ok((|xs|, Frame(xs) + rest))
  {
    hide GetHeader, Header, Frame;
    AbiProofs.FrameBounds(xs);
    assert Message(op, xs) + rest == Header(op, |xs|) + (Frame(xs) + rest);
    GetPutHeader(op, |xs|, Frame(xs) + rest);
  }

  lemma DecodeFramed(op: u32, xs: seq<Section>, rest: bytes)
    requires |Message(op, xs) + rest| <= MAX_SPEC
    ensures |xs| <= 2046 && Sized(xs)
    ensures DecodeSpec(Message(op, xs) + rest) ==
      (var d :- Fold(DECODER, xs, {}, DEFAULT); if rest != [] then Err(EINVAL) else Ok(d))
  {
    hide Apply, GetHeader, Walk, Fold, Frame, Message, Sized;
    HeaderFramed(op, xs, rest);
    WalkFrame(DECODER, xs, rest, {}, DEFAULT);
  }

  lemma AcceptedIsMessage(buf: bytes) returns (op: u32, xs: seq<Section>)
    requires DecodeSpec(buf).Ok?
    ensures buf == Message(op, xs) && Sized(xs)
    ensures Fold(DECODER, xs, {}, DEFAULT) == DecodeSpec(buf)
  {
    hide Apply, GetHeader, Walk, Fold, Header;
    var (count, r) := GetHeader(buf).value;
    op := PutGetHeader(buf);
    xs := WalkSplit(DECODER, r, count, {}, DEFAULT);
    assert r == Frame(xs) + [];
    assert r == Frame(xs);
  }

  /** The kernel's language is prefix-free as well. */
  lemma ExtensionRejected(buf: bytes, ext: bytes)
    requires DecodeSpec(buf).Ok? && ext != []
    ensures DecodeSpec(buf + ext) == Err(EINVAL)
  {
    if |buf + ext| <= MAX_SPEC {
      hide DecodeSpec;
      var op, xs := AcceptedIsMessage(buf);
      DecodeFramed(op, xs, ext);
    }
  }

  lemma PrefixRejected(buf: bytes, n: nat)
    requires n < |buf| && DecodeSpec(buf).Ok?
    ensures DecodeSpec(buf[..n]).Err?
  {
    hide DecodeSpec;
    assert buf == buf[..n] + buf[n..];
    if DecodeSpec(buf[..n]).Ok? {
      ExtensionRejected(buf[..n], buf[n..]);
    }
  }

  lemma OrderIndependent(op: u32, xs: seq<Section>, ys: seq<Section>)
    requires DecodeSpec(Message(op, xs)).Ok?
    requires multiset(xs) == multiset(ys)
    ensures DecodeSpec(Message(op, ys)) == DecodeSpec(Message(op, xs))
  {
    ViewDescribes();
    assert Build(map[]) == DEFAULT;
    assert Message(op, xs) + [] == Message(op, xs) && Message(op, ys) + [] == Message(op, ys);
    FrameLengthPermutes(xs, ys);
    DecodeFramed(op, xs, []);
    FoldPermutes(VIEW, DECODER, xs, ys);
    DecodeFramed(op, ys, []);
  }

  lemma UnknownIgnored(op: u32, a: seq<Section>, y: Section, b: seq<Section>)
    requires DecodeSpec(Message(op, a + b)).Ok?
    requires y.tag !in KNOWN && (y.tag >= 64 || forall x :: x in a + b ==> x.tag != y.tag)
    requires |Message(op, a + [y] + b)| <= 16384
    ensures DecodeSpec(Message(op, a + [y] + b)) == DecodeSpec(Message(op, a + b))
  {
    ViewDescribes();
    assert Build(map[]) == DEFAULT;
    assert Message(op, a + b) + [] == Message(op, a + b);
    assert Message(op, a + [y] + b) + [] == Message(op, a + [y] + b);
    DecodeFramed(op, a + b, []);
    FoldIgnoresUnknown(VIEW, DECODER, a, y, b);
    DecodeFramed(op, a + [y] + b, []);
  }

  lemma CopyRejected(op: u32, xs: seq<Section>, i: nat, j: nat)
    requires i < j < |xs| && xs[i].tag == xs[j].tag < 64
    ensures DecodeSpec(Message(op, xs)).Err?
  {
    if |Message(op, xs)| <= MAX_SPEC {
      ViewDescribes();
      assert Build(map[]) == DEFAULT;
      assert Message(op, xs) + [] == Message(op, xs);
      DecodeFramed(op, xs, []);
      FoldRejectsCopy(VIEW, DECODER, xs, i, j);
    }
  }

  // ----------------------------------------------------------- refinement

  /** The kernel's record of what userspace decoded. A present but empty hostname
      leaves its terminator behind; `create_from_blob` treats both alike. */
  ghost predicate Images(d: DecodedSpec, spec: AbiFormat.DomainSpec) {
    && (d.hostname == ToCvec(spec.hostname) || (d.hostname == [] && spec.hostname == []))
    && (d.rootfs == ToCvec(spec.rootfs) || (d.rootfs == [] && spec.rootfs == []))
    && d.argv == ToCvecs(Clip(spec.argv, 31))
    && d.envp == ToCvecs(Clip(spec.env, 31))
    && d.ns == spec.namespaces && d.flags == spec.flags
    && d.capPresent == spec.capsPresent && d.capBounding == spec.capBounding
    && d.capEffective == spec.capEffective && d.capPermitted == spec.capPermitted
    && d.capInheritable == spec.capInheritable && d.capAmbient == spec.capAmbient
    && d.masked == ToCvecs(Clip(spec.maskedPaths, 31))
    && d.readonly == ToCvecs(Clip(spec.readonlyPaths, 31))
    && d.rlimits == spec.rlimits
    && d.oomScoreAdj == spec.oomScoreAdj
    && d.uid == spec.uid && d.gid == spec.gid
    && d.mounts == ToMountSpecs(spec.mounts)
    && d.sysctls == ToCvecs(Clip(spec.sysctls, 31))
  }

  /** Every userspace item is read by the kernel as the item `to` makes of it. */
  ghost predicate Follows<T(!new), U>(
    item: bytes -> Parse<T, AbiFormat.AbiError>, kitem: bytes -> Parse<U, Errno>, to: T -> U) {
    forall s: bytes :: item(s).Ok? ==> kitem(s) == Ok((to(item(s).value.0), item(s).value.1))
  }

  lemma {:induction false} ManyFollows<T(!new), U>(item: bytes -> Parse<T, AbiFormat.AbiError>,
      kitem: bytes -> Parse<U, Errno>, to: T -> U, s: bytes, n: nat)
    requires Follows(item, kitem, to)
    requires Many(item, s, n).Ok?
    ensures |Many(item, s, n).value.0| == n
    ensures Many(kitem, s, n).Ok? && Many(kitem, s, n).value.1 == Many(item, s, n).value.1
    ensures |Many(kitem, s, n).value.0| == n
    ensures forall i :: 0 <= i < n ==> Many(kitem, s, n).value.0[i] == to(Many(item, s, n).value.0[i])
    decreases n
  {
    if n > 0 {
      ManyFollows(item, kitem, to, item(s).value.1, n - 1);
    }
  }

  lemma ShortReads(s: bytes)
    ensures GetU16(s, AbiFormat.Truncated).Ok? ==> GetU16(s, EINVAL) == Ok(GetU16(s, AbiFormat.Truncated).value)
    ensures GetU32(s, AbiFormat.Truncated).Ok? ==> GetU32(s, EINVAL) == Ok(GetU32(s, AbiFormat.Truncated).value)
    ensures GetU64(s, AbiFormat.Truncated).Ok? ==> GetU64(s, EINVAL) == Ok(GetU64(s, AbiFormat.Truncated).value)
  {
  }

  lemma StringFollows(s: bytes, what: string)
    requires AbiFormat.GetString(s, what, MAX_STR).Ok?
    ensures GetItem(s) == Ok(AbiFormat.GetString(s, what, MAX_STR).value)
  {
    hide GetU32, ValidUtf8;
    ShortReads(s);
  }

  lemma ItemsFollow()
    ensures Follows(AbiFormat.GetItem, GetItem, (s: bytes) => s)
  {
    hide GetItem, AbiFormat.GetString;
    forall s: bytes | AbiFormat.GetItem(s).Ok? {
      StringFollows(s, "string");
    }
  }

  lemma RlimitsFollow()
    ensures Follows(AbiFormat.GetRlimit, GetRlimit, (l: Rlimit) => l)
  {
    hide GetU32, GetU64;
    forall s: bytes | AbiFormat.GetRlimit(s).Ok?
      ensures GetRlimit(s) == Ok(AbiFormat.GetRlimit(s).value)
    {
      var t := GetU32(s, AbiFormat.Truncated).value.1;
      var u := GetU64(t, AbiFormat.Truncated).value.1;
      ShortReads(s);
      ShortReads(t);
      ShortReads(u);
    }
  }

  lemma MountsFollow()
    ensures Follows(AbiFormat.GetMount, GetMount, ToMountSpec)
  {
    hide GetItem, GetU64, AbiFormat.GetString;
    forall s: bytes | AbiFormat.GetMount(s).Ok?
      ensures GetMount(s) == Ok((ToMountSpec(AbiFormat.GetMount(s).value.0), AbiFormat.GetMount(s).value.1))
    {
      StringFollows(s, "mount.destination");
      var t := AbiFormat.GetString(s, "mount.destination", MAX_STR).value.1;
      StringFollows(t, "mount.type");
      var u := AbiFormat.GetString(t, "mount.type", MAX_STR).value.1;
      StringFollows(u, "mount.source");
      ShortReads(AbiFormat.GetString(u, "mount.source", MAX_STR).value.1);
    }
  }

  lemma ListFollows<T(!new), U>(
    item: bytes -> Parse<T, AbiFormat.AbiError>, kitem: bytes -> Parse<U, Errno>, to: T -> U,
      s: bytes, what: string, max: nat, limit: nat)
    requires Follows(item, kitem, to)
    requires AbiFormat.GetList(item, s, what, max).Ok?
    ensures var xs := AbiFormat.GetList(item, s, what, max).value.0;
      && |xs| <= max
      && GetList(kitem, s, limit).Ok?
      && |GetList(kitem, s, limit).value| == |Clip(xs, limit)|
      && forall i :: 0 <= i < |Clip(xs, limit)| ==> GetList(kitem, s, limit).value[i] == to(xs[i])
  {
    hide GetU32, Follows;
    ShortReads(s);
    var (n, t) := GetU32(s, AbiFormat.Truncated).value;
    ManyFollows(item, kitem, to, t, n);
  }

  lemma StringsFollow(s: bytes, what: string, max: nat)
    requires AbiFormat.GetList(AbiFormat.GetItem, s, what, max).Ok?
    ensures GetStrings(s) == Ok(ToCvecs(Clip(AbiFormat.GetList(AbiFormat.GetItem, s, what, max).value.0, MAX_ARGS - 1)))
  {
    hide GetList, GetItem, AbiFormat.GetList, AbiFormat.GetItem;
    ItemsFollow();
    ListFollows(AbiFormat.GetItem, GetItem, (b: bytes) => b, s, what, max, MAX_ARGS - 1);
    var xs := AbiFormat.GetList(AbiFormat.GetItem, s, what, max).value.0;
    assert GetList(GetItem, s, MAX_ARGS - 1).value == Clip(xs, MAX_ARGS - 1);
  }

  lemma RlimitListFollows(s: bytes)
    requires AbiFormat.GetList(AbiFormat.GetRlimit, s, "rlimits", AbiFormat.MAX_RLIMITS).Ok?
    ensures GetList(GetRlimit, s, MAX_RLIMITS)
         == Ok(AbiFormat.GetList(AbiFormat.GetRlimit, s, "rlimits", AbiFormat.MAX_RLIMITS).value.0)
  {
    hide GetList, GetRlimit, AbiFormat.GetList, AbiFormat.GetRlimit;
    RlimitsFollow();
    ListFollows(AbiFormat.GetRlimit, GetRlimit, (l: Rlimit) => l, s, "rlimits", AbiFormat.MAX_RLIMITS, MAX_RLIMITS);
    var xs := AbiFormat.GetList(AbiFormat.GetRlimit, s, "rlimits", AbiFormat.MAX_RLIMITS).value.0;
    assert GetList(GetRlimit, s, MAX_RLIMITS).value == xs;
  }

  lemma MountListFollows(s: bytes)
    requires AbiFormat.GetList(AbiFormat.GetMount, s, "mounts", AbiFormat.MAX_MOUNTS).Ok?
    ensures GetList(GetMount, s, MAX_MOUNTS)
         == Ok(ToMountSpecs(AbiFormat.GetList(AbiFormat.GetMount, s, "mounts", AbiFormat.MAX_MOUNTS).value.0))
  {
    hide GetList, GetMount, AbiFormat.GetList, AbiFormat.GetMount;
    MountsFollow();
    ListFollows(AbiFormat.GetMount, GetMount, ToMountSpec, s, "mounts", AbiFormat.MAX_MOUNTS, MAX_MOUNTS);
    var xs := AbiFormat.GetList(AbiFormat.GetMount, s, "mounts", AbiFormat.MAX_MOUNTS).value.0;
    assert GetList(GetMount, s, MAX_MOUNTS).value == ToMountSpecs(xs);
  }

  /** One accepted section keeps the two records together. */
  lemma ApplyFollows(spec: AbiFormat.DomainSpec, d: DecodedSpec, tag: u16, p: bytes)
    requires Images(d, spec)
    requires AbiFormat.Apply(spec, tag, p).Ok?
    ensures Apply(d, tag, p).Ok? && Images(Apply(d, tag, p).value, AbiFormat.Apply(spec, tag, p).value)
  {
    hide Apply, AbiFormat.Apply, Images;
    if ListTag(tag) {
      ListFieldFollows(spec, d, tag, p);
    } else {
      WordsFollow(spec, d, tag, p);
    }
  }

  predicate ListTag(tag: u16) {
    tag == 3 || tag == 4 || tag == 11 || tag == 12 || tag == 13 || tag == 17 || tag == 18
  }

  lemma ListFieldFollows(spec: AbiFormat.DomainSpec, d: DecodedSpec, tag: u16, p: bytes)
    requires Images(d, spec) && ListTag(tag)
    requires AbiFormat.Apply(spec, tag, p).Ok?
    ensures Apply(d, tag, p).Ok? && Images(Apply(d, tag, p).value, AbiFormat.Apply(spec, tag, p).value)
  {
    hide GetU32, GetU64, GetStrings, GetList, AbiFormat.GetList, ValidUtf8, ToCvecs, ToMountSpecs, Clip;
    match tag
    case 3 => StringsFollow(p, "argv", AbiFormat.MAX_ARGV);
    case 4 => StringsFollow(p, "env", AbiFormat.MAX_ENV);
    case 11 => StringsFollow(p, "masked_paths", AbiFormat.MAX_PATHS);
    case 12 => StringsFollow(p, "readonly_paths", AbiFormat.MAX_PATHS);
    case 13 => RlimitListFollows(p);
    case 17 => MountListFollows(p);
    case _ => StringsFollow(p, "sysctls", AbiFormat.MAX_SYSCTLS);
  }

  lemma WordsFollow(spec: AbiFormat.DomainSpec, d: DecodedSpec, tag: u16, p: bytes)
    requires Images(d, spec) && !ListTag(tag)
    requires AbiFormat.Apply(spec, tag, p).Ok?
    ensures Apply(d, tag, p).Ok? && Images(Apply(d, tag, p).value, AbiFormat.Apply(spec, tag, p).value)
  {
    hide GetU32, GetU64, GetStrings, GetList, AbiFormat.GetList, ValidUtf8, ToCvecs, ToMountSpecs, Clip;
    match tag
    case 1 => case 2 =>
    case 5 => ShortReads(p);
    case 8 => ShortReads(p);
    case 9 => ShortReads(p);
    case 14 => ShortReads(p);
    case 15 =>
      var t := GetU64(p, AbiFormat.Truncated).value.1;
      var u := GetU64(t, AbiFormat.Truncated).value.1;
      ShortReads(p);
      ShortReads(t);
      ShortReads(u);
      ShortReads(GetU64(u, AbiFormat.Truncated).value.1);
    case 16 =>
      ShortReads(p);
      ShortReads(GetU32(p, AbiFormat.Truncated).value.1);
    case _ =>
  }

  lemma {:induction false} FoldFollows(spec: AbiFormat.DomainSpec, d: DecodedSpec, xs: seq<Section>, seen: set<u16>)
    requires Images(d, spec)
    requires Fold(AbiFormat.DECODER, xs, seen, spec).Ok?
    ensures Fold(DECODER, xs, seen, d).Ok?
    ensures Images(Fold(DECODER, xs, seen, d).value, Fold(AbiFormat.DECODER, xs, seen, spec).value)
    decreases xs
  {
    hide Images, Apply, AbiFormat.Apply;
    if xs != [] {
      var x := xs[0];
      ApplyFollows(spec, d, x.tag, x.payload);
      FoldFollows(AbiFormat.Apply(spec, x.tag, x.payload).value, Apply(d, x.tag, x.payload).value, xs[1..],
        Mark(seen, x.tag));
    }
  }

  /** Whatever the userspace decoder accepts, within the kernel's 16 KiB, the
      kernel decodes to the image of the same specification. */
  lemma KernelRefines(buf: bytes, op: AbiFormat.Op, spec: AbiFormat.DomainSpec)
    requires |buf| <= 16384 && AbiFormat.Decode(buf) == Ok((op, spec))
    ensures DecodeSpec(buf).Ok? && Images(DecodeSpec(buf).value, spec)
  {
    hide AbiFormat.Decode, DecodeSpec, Fold;
    var o, xs := AbiProofs.AcceptedIsMessage(buf);
    assert buf == Message(AbiFormat.OpCode(op), xs);
    assert buf + [] == buf;
    DecodeFramed(AbiFormat.OpCode(op), xs, []);
    FoldFollows(AbiFormat.DEFAULT, DEFAULT, xs, {});
  }

  /** The container arguments a specification stands for. */
  function ArgsOf(spec: AbiFormat.DomainSpec): ContainerArgs {
    var ns := if spec.namespaces != 0 then spec.namespaces else ALL_NS;
    ContainerArgs(
      if spec.hostname != [] then ToCvec(spec.hostname) else DEFAULT_HOST,
      ToCvec(spec.rootfs),
      ToCvecs(Clip(spec.argv, 31)),
      ToCvecs(Clip(spec.env, 31)),
      ns, BitSet(ns, CLONE_NEWUSER),
      CapSets(spec.capsPresent, spec.capBounding, spec.capEffective, spec.capPermitted, spec.capInheritable,
        spec.capAmbient),
      BitSet(spec.flags, 1), BitSet(spec.flags, 2),
      ToCvecs(Clip(spec.maskedPaths, 31)),
      ToCvecs(Clip(spec.readonlyPaths, 31)),
      spec.rlimits, spec.oomScoreAdj, spec.uid, spec.gid,
      ToMountSpecs(spec.mounts),
      ToCvecs(Clip(spec.sysctls, 31)))
  }

  /** A buffer accepted as Create, within 16 KiB, always becomes the container its
      specification describes. */
  lemma CreateRefines(buf: bytes, spec: AbiFormat.DomainSpec)
    requires |buf| <= 16384 && AbiFormat.Decode(buf) == Ok((AbiFormat.Create, spec))
    ensures CreateFromBlob(buf) == Ok(ArgsOf(spec))
  {
    hide DecodeSpec;
    KernelRefines(buf, AbiFormat.Create, spec);
    assert spec.rootfs != [] && spec.argv != [] by {
      assert AbiProofs.Complete(AbiFormat.Create, spec) by {
        var xs := AbiProofs.AcceptedWrites(buf, AbiFormat.Create, spec);
      }
    }
  }
}
