/** The userspace side of the ABI (`krunc-abi`) as functions: the domain
    specification, its encoding and the strict decoder. The methods that compute
    them in place are in `AbiCodec`. */
module AbiFormat {
  import opened Bytes
  import opened Outcomes
  import opened Wire

  const MAGIC: bytes := [0x4B, 0x52, 0x4E, 0x43]
  const ABI_VERSION: u32 := 1
  const MAX_SPEC := 256 * 1024
  const MAX_STR := 4096
  const MAX_ARGV := 1024
  const MAX_ENV := 1024
  const MAX_MAPS := 340
  const MAX_PATHS := 256
  const MAX_RLIMITS := 32
  const MAX_MOUNTS := 64
  const MAX_SYSCTLS := 64

  const ROOTFS: u16 := 1
  const HOSTNAME: u16 := 2
  const ARGV: u16 := 3
  const ENV: u16 := 4
  const NAMESPACES: u16 := 5
  const UID_MAPS: u16 := 6
  const GID_MAPS: u16 := 7
  const FLAGS: u16 := 8
  const CAP_BOUNDING: u16 := 9
  const MASKED_PATHS: u16 := 11
  const RO_PATHS: u16 := 12
  const RLIMITS: u16 := 13
  const OOM_SCORE_ADJ: u16 := 14
  const CAP_SETS: u16 := 15
  const USER: u16 := 16
  const MOUNTS: u16 := 17
  const SYSCTLS: u16 := 18

  const KNOWN: set<u16> := {1, 2, 3, 4, 5, 6, 7, 8, 9, 11, 12, 13, 14, 15, 16, 17, 18}

  datatype Op = Create | Start | State | Kill | Delete

  function OpCode(op: Op): (v: u32)
    ensures 1 <= v <= 5
  {
    match op
    case Create => 1
    case Start => 2
    case State => 3
    case Kill => 4
    case Delete => 5
  }

  datatype AbiError =
    | BadMagic
    | UnsupportedVersion(version: u32)
    | BadOp(op: u32)
    | Truncated
    | TooLarge(what: string, value: nat, limit: nat)
    | Duplicate(tag: u16)
    | Missing(section: string)
    | Utf8
    | TrailingBytes

  function OpOf(v: u32): Result<Op, AbiError> {
    if v == 1 then Ok(Create)
    else if v == 2 then Ok(Start)
    else if v == 3 then Ok(State)
    else if v == 4 then Ok(Kill)
    else if v == 5 then Ok(Delete)
    else Err(BadOp(v))
  }

  datatype IdMap = IdMap(containerId: u32, hostId: u32, size: u32)
  datatype Rlimit = Rlimit(resource: u32, soft: u64, hard: u64)
  datatype Mount = Mount(destination: bytes, fsType: bytes, source: bytes, flags: u64)

  datatype DomainSpec = DomainSpec(
    rootfs: bytes,
    hostname: bytes,
    argv: seq<bytes>,
    env: seq<bytes>,
    namespaces: u32,
    uidMaps: seq<IdMap>,
    gidMaps: seq<IdMap>,
    flags: u64,
    capsPresent: bool,
    capBounding: u64,
    capEffective: u64,
    capPermitted: u64,
    capInheritable: u64,
    capAmbient: u64,
    maskedPaths: seq<bytes>,
    readonlyPaths: seq<bytes>,
    rlimits: seq<Rlimit>,
    oomScoreAdj: Option<i32>,
    uid: u32,
    gid: u32,
    mounts: seq<Mount>,
    sysctls: seq<bytes>)

  const DEFAULT := DomainSpec([], [], [], [], 0, [], [], 0, false, 0, 0, 0, 0, 0, [], [], [], None, 0, 0, [], [])

  function CheckLen(what: string, value: nat, limit: nat): Result<(), AbiError> {
    if value > limit then Err(TooLarge(what, value, limit)) else Ok(())
  }

  // ------------------------------------------------------------- encoding

  function CheckEach(what: string, items: seq<bytes>, limit: nat): Result<(), AbiError> {
    if items == [] then Ok(()) else
      var _ :- CheckLen(what, |items[0]|, limit);
      CheckEach(what, items[1..], limit)
  }

  function Validate(spec: DomainSpec): Result<(), AbiError> {
    var _ :- CheckLen("rootfs", |spec.rootfs|, MAX_STR);
    var _ :- CheckLen("hostname", |spec.hostname|, MAX_STR);
    var _ :- CheckLen("argv", |spec.argv|, MAX_ARGV);
    var _ :- CheckEach("arg", spec.argv, MAX_STR);
    var _ :- CheckLen("env", |spec.env|, MAX_ENV);
    var _ :- CheckEach("env-entry", spec.env, MAX_STR);
    var _ :- CheckLen("uid_maps", |spec.uidMaps|, MAX_MAPS);
    var _ :- CheckLen("gid_maps", |spec.gidMaps|, MAX_MAPS);
    var _ :- CheckLen("masked_paths", |spec.maskedPaths|, MAX_PATHS);
    var _ :- CheckLen("readonly_paths", |spec.readonlyPaths|, MAX_PATHS);
    var _ :- CheckLen("rlimits", |spec.rlimits|, MAX_RLIMITS);
    var _ :- CheckLen("mounts", |spec.mounts|, MAX_MOUNTS);
    CheckLen("sysctls", |spec.sysctls|, MAX_SYSCTLS)
  }

  function PutString(s: bytes): bytes {
    Le4(Cast32(|s|)) + s
  }

  function PutMount(m: Mount): bytes {
    PutString(m.destination) + PutString(m.fsType) + PutString(m.source) + Le8(m.flags)
  }

  function PutIdMap(m: IdMap): bytes {
    Le4(m.containerId) + Le4(m.hostId) + Le4(m.size)
  }

  function PutRlimit(l: Rlimit): bytes {
    Le4(l.resource) + Le8(l.soft) + Le8(l.hard)
  }

  /** A list payload: its `u32` count, then the items. */
  function PutList<T>(put: T -> bytes, items: seq<T>): bytes {
    Le4(Cast32(|items|)) + Concat(Puts(put, items))
  }

  function Puts<T>(put: T -> bytes, items: seq<T>): (ps: seq<bytes>)
    ensures |ps| == |items|
    ensures forall i :: 0 <= i < |items| ==> ps[i] == put(items[i])
  {
    seq(|items|, i requires 0 <= i < |items| => put(items[i]))
  }

  /** Whether `encode` emits a section for this tag: only non-default fields. */
  predicate Present(spec: DomainSpec, tag: u16) {
    match tag
    case 1 => spec.rootfs != []
    case 2 => spec.hostname != []
    case 3 => spec.argv != []
    case 4 => spec.env != []
    case 5 => spec.namespaces != 0
    case 6 => spec.uidMaps != []
    case 7 => spec.gidMaps != []
    case 8 => spec.flags != 0
    case 9 => spec.capsPresent
    case 11 => spec.maskedPaths != []
    case 12 => spec.readonlyPaths != []
    case 13 => spec.rlimits != []
    case 14 => spec.oomScoreAdj.Some?
    case 15 => spec.capsPresent
    case 16 => spec.uid != 0 || spec.gid != 0
    case 17 => spec.mounts != []
    case 18 => spec.sysctls != []
    case _ => false
  }

  function Payload(spec: DomainSpec, tag: u16): bytes {
    match tag
    case 1 => spec.rootfs
    case 2 => spec.hostname
    case 3 => PutList(PutString, spec.argv)
    case 4 => PutList(PutString, spec.env)
    case 5 => Le4(spec.namespaces)
    case 6 => PutList(PutIdMap, spec.uidMaps)
    case 7 => PutList(PutIdMap, spec.gidMaps)
    case 8 => Le8(spec.flags)
    case 9 => Le8(spec.capBounding)
    case 11 => PutList(PutString, spec.maskedPaths)
    case 12 => PutList(PutString, spec.readonlyPaths)
    case 13 => PutList(PutRlimit, spec.rlimits)
    case 14 => if spec.oomScoreAdj.Some? then Le4(I32AsU32(spec.oomScoreAdj.value)) else []
    case 15 => Le8(spec.capEffective) + Le8(spec.capPermitted) + Le8(spec.capInheritable) + Le8(spec.capAmbient)
    case 16 => Le4(spec.uid) + Le4(spec.gid)
    case 17 => PutList(PutMount, spec.mounts)
    case 18 => PutList(PutString, spec.sysctls)
    case _ => []
  }

  /** The order in which `encode` considers the fields. */
  const ORDER: seq<u16> := [1, 2, 3, 4, 5, 6, 7, 8, 9, 15, 11, 12, 13, 14, 16, 17, 18]

  function EmitOne(spec: DomainSpec, tag: u16): seq<Section> {
    if Present(spec, tag) then [Section(tag, 0, Payload(spec, tag))] else []
  }

  function Emit(spec: DomainSpec, tags: seq<u16>): seq<Section> {
    if tags == [] then [] else EmitOne(spec, tags[0]) + Emit(spec, tags[1..])
  }

  function Message(op: Op, xs: seq<Section>): bytes {
    Header(op, Cast32(|xs|)) + Frame(xs)
  }

  function Header(op: Op, count: u32): (b: bytes)
    ensures |b| == 16
  {
    MAGIC + Le4(ABI_VERSION) + Le4(OpCode(op)) + Le4(count)
  }

  function Encode(spec: DomainSpec, op: Op): Result<bytes, AbiError> {
    var _ :- Validate(spec);
    var buf := Message(op, Emit(spec, ORDER));
    if |buf| > MAX_SPEC then Err(TooLarge("spec", |buf|, MAX_SPEC)) else Ok(buf)
  }

  // ------------------------------------------------------------- decoding

  function Text(b: bytes, limit: nat, what: string): Result<bytes, AbiError> {
    var _ :- CheckLen(what, |b|, limit);
    if ValidUtf8(b) then Ok(b) else Err(Utf8)
  }

  function GetString(s: bytes, what: string, limit: nat): Parse<bytes, AbiError> {
    var (len, t) :- GetU32(s, Truncated);
    var _ :- CheckLen(what, len, limit);
    var (b, u) :- Take(t, len, Truncated);
    if ValidUtf8(b) then Ok((b, u)) else Err(Utf8)
  }

  function GetIdMap(s: bytes): Parse<IdMap, AbiError> {
    var (containerId, t) :- GetU32(s, Truncated);
    var (hostId, u) :- GetU32(t, Truncated);
    var (size, v) :- GetU32(u, Truncated);
    Ok((IdMap(containerId, hostId, size), v))
  }

  function GetRlimit(s: bytes): Parse<Rlimit, AbiError> {
    var (resource, t) :- GetU32(s, Truncated);
    var (soft, u) :- GetU64(t, Truncated);
    var (hard, v) :- GetU64(u, Truncated);
    Ok((Rlimit(resource, soft, hard), v))
  }

  function GetMount(s: bytes): Parse<Mount, AbiError> {
    var (destination, t) :- GetString(s, "mount.destination", MAX_STR);
    var (fsType, u) :- GetString(t, "mount.type", MAX_STR);
    var (source, v) :- GetString(u, "mount.source", MAX_STR);
    var (flags, w) :- GetU64(v, Truncated);
    Ok((Mount(destination, fsType, source, flags), w))
  }

  function GetItem(s: bytes): Parse<bytes, AbiError> {
    GetString(s, "string", MAX_STR)
  }

  /** A list payload: an unchecked count is compared with `max` before any item
      is read. */
  function GetList<T>(item: bytes -> Parse<T, AbiError>, s: bytes, what: string, max: nat): Parse<seq<T>, AbiError> {
    var (n, t) :- GetU32(s, Truncated);
    var _ :- CheckLen(what, n, max);
    Many(item, t, n)
  }

  /** What `decode` does with one section. */
  function Apply(spec: DomainSpec, tag: u16, p: bytes): Result<DomainSpec, AbiError> {
    match tag
    case 1 => var v :- Text(p, MAX_STR, "rootfs"); Ok(spec.(rootfs := v))
    case 2 => var v :- Text(p, MAX_STR, "hostname"); Ok(spec.(hostname := v))
    case 3 => var (v, _) :- GetList(GetItem, p, "argv", MAX_ARGV); Ok(spec.(argv := v))
    case 4 => var (v, _) :- GetList(GetItem, p, "env", MAX_ENV); Ok(spec.(env := v))
    case 5 => var (v, _) :- GetU32(p, Truncated); Ok(spec.(namespaces := v))
    case 6 => var (v, _) :- GetList(GetIdMap, p, "uid_maps", MAX_MAPS); Ok(spec.(uidMaps := v))
    case 7 => var (v, _) :- GetList(GetIdMap, p, "gid_maps", MAX_MAPS); Ok(spec.(gidMaps := v))
    case 8 => var (v, _) :- GetU64(p, Truncated); Ok(spec.(flags := v))
    case 9 => var (v, _) :- GetU64(p, Truncated); Ok(spec.(capsPresent := true, capBounding := v))
    case 11 => var (v, _) :- GetList(GetItem, p, "masked_paths", MAX_PATHS); Ok(spec.(maskedPaths := v))
    case 12 => var (v, _) :- GetList(GetItem, p, "readonly_paths", MAX_PATHS); Ok(spec.(readonlyPaths := v))
    case 13 => var (v, _) :- GetList(GetRlimit, p, "rlimits", MAX_RLIMITS); Ok(spec.(rlimits := v))
    case 14 => var (v, _) :- GetU32(p, Truncated); Ok(spec.(oomScoreAdj := Some(U32AsI32(v))))
    case 15 =>
      var (e, t) :- GetU64(p, Truncated);
      var (f, u) :- GetU64(t, Truncated);
      var (g, v) :- GetU64(u, Truncated);
      var (h, _) :- GetU64(v, Truncated);
      Ok(spec.(capEffective := e, capPermitted := f, capInheritable := g, capAmbient := h))
    case 16 =>
      var (v, t) :- GetU32(p, Truncated);
      var (w, _) :- GetU32(t, Truncated);
      Ok(spec.(uid := v, gid := w))
    case 17 => var (v, _) :- GetList(GetMount, p, "mounts", MAX_MOUNTS); Ok(spec.(mounts := v))
    case 18 => var (v, _) :- GetList(GetItem, p, "sysctls", MAX_SYSCTLS); Ok(spec.(sysctls := v))
    case _ => Ok(spec)
  }

  const DECODER: Decoder<DomainSpec, AbiError> := Decoder(Apply, Truncated, (tag: u16) => Duplicate(tag))

  /** Everything before the sections. */
  function GetHeader(buf: bytes): Parse<(Op, u32), AbiError> {
    var (magic, r1) :- Take(buf, 4, Truncated);
    if magic != MAGIC then Err(BadMagic) else
    var (version, r2) :- GetU32(r1, Truncated);
    if version != ABI_VERSION then Err(UnsupportedVersion(version)) else
    var (code, r3) :- GetU32(r2, Truncated);
    var op :- OpOf(code);
    var (count, r4) :- GetU32(r3, Truncated);
    var _ :- CheckLen("section_count", count, MAX_SPEC / 8);
    Ok(((op, count), r4))
  }

  function CheckOp(op: Op, spec: DomainSpec): Result<(Op, DomainSpec), AbiError> {
    if op.Create? && spec.rootfs == [] then Err(Missing("rootfs"))
    else if op.Create? && spec.argv == [] then Err(Missing("argv"))
    else Ok((op, spec))
  }

  function Decode(buf: bytes): Result<(Op, DomainSpec), AbiError> {
    if |buf| > MAX_SPEC then Err(TooLarge("spec", |buf|, MAX_SPEC)) else
    var ((op, count), r) :- GetHeader(buf);
    var (spec, rest) :- Walk(DECODER, r, count, {}, DEFAULT);
    if rest != [] then Err(TrailingBytes) else CheckOp(op, spec)
  }
}
