/** The kernel's own decoder of the ABI (`decode_spec`) and the checks of
    `create_from_blob`, as functions. The methods are in `KernelCodec`. */
module KernelFormat {
  import opened Bytes
  import opened Outcomes
  import opened Wire
  import AbiFormat

  const MAX_SPEC := 16 * 1024
  const MAX_ARGS := 32
  const MAX_STR := 4096
  const MAX_RLIMITS := 32
  const MAX_MOUNTS := 64
  const ABI_VERSION: u32 := 1

  const KNOWN: set<u16> := {1, 2, 3, 4, 5, 8, 9, 11, 12, 13, 14, 15, 16, 17, 18}

  type Rlimit = AbiFormat.Rlimit

  /** Each text NUL-terminated. */
  datatype MountSpec = MountSpec(destination: bytes, fsType: bytes, source: bytes, flags: u64)

  datatype DecodedSpec = DecodedSpec(
    hostname: bytes,
    rootfs: bytes,
    argv: seq<bytes>,
    envp: seq<bytes>,
    ns: u32,
    capPresent: bool,
    capBounding: u64,
    capEffective: u64,
    capPermitted: u64,
    capInheritable: u64,
    capAmbient: u64,
    flags: u64,
    masked: seq<bytes>,
    readonly: seq<bytes>,
    rlimits: seq<Rlimit>,
    oomScoreAdj: Option<i32>,
    uid: u32,
    gid: u32,
    mounts: seq<MountSpec>,
    sysctls: seq<bytes>)

  const DEFAULT := DecodedSpec([], [], [], [], 0, false, 0, 0, 0, 0, 0, 0, [], [], [], None, 0, 0, [], [])

  function ToCvec(s: bytes): bytes {
    s + [0]
  }

  function ToCvecs(items: seq<bytes>): (r: seq<bytes>)
    ensures |r| == |items| && forall i :: 0 <= i < |items| ==> r[i] == ToCvec(items[i])
  {
    seq(|items|, i requires 0 <= i < |items| => ToCvec(items[i]))
  }

  /** What is kept of a list that is read to its end. */
  function Clip<T>(items: seq<T>, limit: nat): seq<T> {
    if |items| <= limit then items else items[..limit]
  }

  function ToMountSpec(m: AbiFormat.Mount): MountSpec {
    MountSpec(ToCvec(m.destination), ToCvec(m.fsType), ToCvec(m.source), m.flags)
  }

  function ToMountSpecs(items: seq<AbiFormat.Mount>): (r: seq<MountSpec>)
    ensures |r| == |items| && forall i :: 0 <= i < |items| ==> r[i] == ToMountSpec(items[i])
  {
    seq(|items|, i requires 0 <= i < |items| => ToMountSpec(items[i]))
  }

  function GetItem(s: bytes): Parse<bytes, Errno> {
    var (len, t) :- GetU32(s, EINVAL);
    if len > MAX_STR then Err(EINVAL) else Take(t, len, EINVAL)
  }

  function GetRlimit(s: bytes): Parse<Rlimit, Errno> {
    var (resource, t) :- GetU32(s, EINVAL);
    var (soft, u) :- GetU64(t, EINVAL);
    var (hard, v) :- GetU64(u, EINVAL);
    Ok((AbiFormat.Rlimit(resource, soft, hard), v))
  }

  function GetMount(s: bytes): Parse<MountSpec, Errno> {
    var (destination, t) :- GetItem(s);
    var (fsType, u) :- GetItem(t);
    var (source, v) :- GetItem(u);
    var (flags, w) :- GetU64(v, EINVAL);
    Ok((MountSpec(ToCvec(destination), ToCvec(fsType), ToCvec(source), flags), w))
  }

  /** A list whose count is not checked: read to its end, then clipped. */
  function GetList<T>(item: bytes -> Parse<T, Errno>, s: bytes, limit: nat): Result<seq<T>, Errno> {
    var (n, t) :- GetU32(s, EINVAL);
    var (xs, _) :- Many(item, t, n);
    Ok(Clip(xs, limit))
  }

  function GetStrings(s: bytes): Result<seq<bytes>, Errno> {
    var xs :- GetList(GetItem, s, MAX_ARGS - 1);
    Ok(ToCvecs(xs))
  }

  function Apply(d: DecodedSpec, tag: u16, p: bytes): Result<DecodedSpec, Errno> {
    match tag
    case 1 => Ok(d.(rootfs := ToCvec(p)))
    case 2 => Ok(d.(hostname := ToCvec(p)))
    case 3 => var v :- GetStrings(p); Ok(d.(argv := v))
    case 4 => var v :- GetStrings(p); Ok(d.(envp := v))
    case 5 => var (v, _) :- GetU32(p, EINVAL); Ok(d.(ns := v))
    case 8 => var (v, _) :- GetU64(p, EINVAL); Ok(d.(flags := v))
    case 9 => var (v, _) :- GetU64(p, EINVAL); Ok(d.(capPresent := true, capBounding := v))
    case 11 => var v :- GetStrings(p); Ok(d.(masked := v))
    case 12 => var v :- GetStrings(p); Ok(d.(readonly := v))
    case 13 => var v :- GetList(GetRlimit, p, MAX_RLIMITS); Ok(d.(rlimits := v))
    case 14 => var (v, _) :- GetU32(p, EINVAL); Ok(d.(oomScoreAdj := Some(U32AsI32(v))))
    case 15 =>
      var (e, t) :- GetU64(p, EINVAL);
      var (f, u) :- GetU64(t, EINVAL);
      var (g, v) :- GetU64(u, EINVAL);
      var (h, _) :- GetU64(v, EINVAL);
      Ok(d.(capEffective := e, capPermitted := f, capInheritable := g, capAmbient := h))
    case 16 =>
      var (v, t) :- GetU32(p, EINVAL);
      var (w, _) :- GetU32(t, EINVAL);
      Ok(d.(uid := v, gid := w))
    case 17 => var v :- GetList(GetMount, p, MAX_MOUNTS); Ok(d.(mounts := v))
    case 18 => var v :- GetStrings(p); Ok(d.(sysctls := v))
    case _ => Ok(d)
  }

  const DECODER: Decoder<DecodedSpec, Errno> := Decoder(Apply, EINVAL, (tag: u16) => EINVAL)

  /** Magic, version, an ignored operation word, and the section count. */
  function GetHeader(buf: bytes): Parse<u32, Errno> {
    var (magic, r1) :- Take(buf, 4, EINVAL);
    if magic != AbiFormat.MAGIC then Err(EINVAL) else
    var (version, r2) :- GetU32(r1, EINVAL);
    if version != ABI_VERSION then Err(EINVAL) else
    var (_, r3) :- GetU32(r2, EINVAL);
    var (count, r4) :- GetU32(r3, EINVAL);
    if count > MAX_SPEC / 8 then Err(EINVAL) else Ok((count, r4))
  }

  function DecodeSpec(buf: bytes): Result<DecodedSpec, Errno> {
    if |buf| > MAX_SPEC then Err(EINVAL) else
    var (count, r) :- GetHeader(buf);
    var (d, rest) :- Walk(DECODER, r, count, {}, DEFAULT);
    if rest != [] then Err(EINVAL) else Ok(d)
  }

  // ---------------------------------------------------------- decoding work

  /** The turns a list loop takes, the failing one included, when its unchecked
      count is `n`. */
  function Turns<T, E>(item: bytes -> Parse<T, E>, s: bytes, n: nat): nat
    decreases n
  {
    if n == 0 then 0 else
      var r := item(s);
      1 + if r.Ok? then Turns(item, r.value.1, n - 1) else 0
  }

  function ListTurns<T>(item: bytes -> Parse<T, Errno>, p: bytes): nat {
    var r := GetU32(p, EINVAL);
    if r.Ok? then Turns(item, r.value.1, r.value.0) else 0
  }

  function SectionTurns(tag: u16, p: bytes): nat {
    match tag
    case 3 => ListTurns(GetItem, p)
    case 4 => ListTurns(GetItem, p)
    case 11 => ListTurns(GetItem, p)
    case 12 => ListTurns(GetItem, p)
    case 13 => ListTurns(GetRlimit, p)
    case 17 => ListTurns(GetMount, p)
    case 18 => ListTurns(GetItem, p)
    case _ => 0
  }

  /** The list turns of a whole walk, up to the section that fails, if any. */
  function WalkTurns(s: bytes, n: nat, seen: set<u16>, d: DecodedSpec): nat
    decreases n
  {
    if n == 0 || GetSection(s, EINVAL).Err? then 0 else
      var (x, t) := GetSection(s, EINVAL).value;
      if x.tag < 64 && x.tag in seen then 0 else
      var r := Apply(d, x.tag, x.payload);
      SectionTurns(x.tag, x.payload) + if r.Ok? then WalkTurns(t, n - 1, Mark(seen, x.tag), r.value) else 0
  }

  /** The list turns of a decoding, accepted or not. */
  function DecodeTurns(buf: bytes): nat {
    if |buf| > MAX_SPEC || GetHeader(buf).Err? then 0 else
      var (count, r) := GetHeader(buf).value;
      WalkTurns(r, count, {}, DEFAULT)
  }

  // ------------------------------------------------------ create_from_blob

  const ALL_NS: u32 := 0x2000_0000 + 0x0002_0000 + 0x0400_0000 + 0x0800_0000 + 0x4000_0000
  const CLONE_NEWUSER := 0x1000_0000
  const DEFAULT_HOST: bytes := [0x6B, 0x72, 0x75, 0x6E, 0x63, 0]

  datatype CapSets = CapSets(present: bool, bounding: u64, effective: u64, permitted: u64, inheritable: u64,
    ambient: u64)

  /** What `create_from_blob` hands to `spawn`. The signal in the low byte of the
      clone flags is not part of `namespaces`. */
  datatype ContainerArgs = ContainerArgs(
    hostname: bytes,
    rootfs: bytes,
    argv: seq<bytes>,
    envp: seq<bytes>,
    namespaces: u32,
    userns: bool,
    caps: CapSets,
    noNewPrivs: bool,
    readonlyRootfs: bool,
    masked: seq<bytes>,
    readonly: seq<bytes>,
    rlimits: seq<Rlimit>,
    oomScoreAdj: Option<i32>,
    uid: u32,
    gid: u32,
    mounts: seq<MountSpec>,
    sysctls: seq<bytes>)

  /** Whether the bit of weight `w`, a power of two, is set. */
  predicate BitSet(v: u64, w: nat)
    requires w > 0
  {
    v / w % 2 == 1
  }

  function CreateFromBlob(buf: bytes): Result<ContainerArgs, Errno> {
    var d :- DecodeSpec(buf);
    if |d.rootfs| <= 1 || d.argv == [] then Err(EINVAL) else
    var ns := if d.ns != 0 then d.ns else ALL_NS;
    Ok(ContainerArgs(
      if |d.hostname| > 1 then d.hostname else DEFAULT_HOST,
      d.rootfs, d.argv, d.envp, ns, BitSet(ns, CLONE_NEWUSER),
      CapSets(d.capPresent, d.capBounding, d.capEffective, d.capPermitted, d.capInheritable, d.capAmbient),
      BitSet(d.flags, 1), BitSet(d.flags, 2),
      d.masked, d.readonly, d.rlimits, d.oomScoreAdj, d.uid, d.gid, d.mounts, d.sysctls))
  }
}
