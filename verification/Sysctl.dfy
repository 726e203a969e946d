/** The runtime's translation of `linux.sysctl` into the entries of a specification. */
module Sysctl {
  import opened Bytes
  import opened Outcomes
  import opened SysctlWrites

  datatype OciError = UnsupportedProperty(text: bytes)

  const DOT: u8 := 0x2E
  const SLASH: u8 := 0x2F

  /** "net.", "kernel.sem", "kernel.shm", "kernel.msg", "fs.mqueue." */
  const NET: bytes := [0x6E, 0x65, 0x74, 0x2E]
  const KERNEL_SEM: bytes := [0x6B, 0x65, 0x72, 0x6E, 0x65, 0x6C, 0x2E, 0x73, 0x65, 0x6D]
  const KERNEL_SHM: bytes := [0x6B, 0x65, 0x72, 0x6E, 0x65, 0x6C, 0x2E, 0x73, 0x68, 0x6D]
  const KERNEL_MSG: bytes := [0x6B, 0x65, 0x72, 0x6E, 0x65, 0x6C, 0x2E, 0x6D, 0x73, 0x67]
  const FS_MQUEUE: bytes := [0x66, 0x73, 0x2E, 0x6D, 0x71, 0x75, 0x65, 0x75, 0x65, 0x2E]

  function Namespaced(name: bytes, ipc: bool, net: bool): bool {
    if NET <= name then net else
      (name == KERNEL_SEM || KERNEL_SHM <= name || KERNEL_MSG <= name || FS_MQUEUE <= name) && ipc
  }

  predicate NameByte(b: u8) {
    0x30 <= b <= 0x39 || 0x41 <= b <= 0x5A || 0x61 <= b <= 0x7A || b == DOT || b == SLASH || b == 0x5F || b == 0x2D
  }

  /** `replace('.', "/")`. */
  function Slashed(name: bytes): (r: bytes)
    ensures |r| == |name|
  {
    seq(|name|, i requires 0 <= i < |name| => if name[i] == DOT then SLASH else name[i])
  }

  /** `split('/')`: one component more than there are slashes. */
  function Components(s: bytes): (r: seq<bytes>)
    ensures r != []
    decreases |s|
  {
    var k := Find(s, SLASH, 0);
    if k == |s| then [s] else [s[..k]] + Components(s[k + 1..])
  }

  predicate BadComponent(c: bytes) {
    c == [] || c == [DOT, DOT]
  }

  function RelPath(name: bytes): Result<bytes, OciError> {
    if name == [] then Err(UnsupportedProperty(name))
    else if exists i :: 0 <= i < |name| && !NameByte(name[i]) then Err(UnsupportedProperty(name))
    else
      var rel := Slashed(name);
      if rel[0] == SLASH || rel[|rel| - 1] == SLASH || exists c :: c in Components(rel) && BadComponent(c)
      then Err(UnsupportedProperty(name)) else Ok(rel)
  }

  predicate EndsLine(b: u8) {
    b == 0 || b == 0x0A
  }

  function Value(value: bytes): Result<bytes, OciError> {
    if exists i :: 0 <= i < |value| && EndsLine(value[i]) then Err(UnsupportedProperty(value)) else Ok(value)
  }

  /** One sysctl, checked and split into its path and value. */
  function Entry(kv: (bytes, bytes), ipc: bool, net: bool): Result<(bytes, bytes), OciError> {
    if !Namespaced(kv.0, ipc, net) then Err(UnsupportedProperty(kv.0)) else
    var rel :- RelPath(kv.0);
    var value :- Value(kv.1);
    Ok((rel, value))
  }

  function Entries(kvs: seq<(bytes, bytes)>, ipc: bool, net: bool): Result<seq<(bytes, bytes)>, OciError> {
    if kvs == [] then Ok([]) else
    var es :- Entries(kvs[..|kvs| - 1], ipc, net);
    var e :- Entry(kvs[|kvs| - 1], ipc, net);
    Ok(es + [e])
  }

  // ------------------------------------------------------------- sorting

  predicate Leq(a: bytes, b: bytes) {
    a == [] || (b != [] && (a[0] < b[0] || (a[0] == b[0] && Leq(a[1..], b[1..]))))
  }

  /** Pairs of strings as Rust orders them. */
  predicate PairLeq(a: (bytes, bytes), b: (bytes, bytes)) {
    if a.0 == b.0 then Leq(a.1, b.1) else Leq(a.0, b.0)
  }

  function Insert(e: (bytes, bytes), es: seq<(bytes, bytes)>): (r: seq<(bytes, bytes)>)
    ensures |r| == |es| + 1
  {
    if es == [] then [e]
    else if PairLeq(e, es[0]) then [e] + es
    else [es[0]] + Insert(e, es[1..])
  }

  function Sort(es: seq<(bytes, bytes)>): (r: seq<(bytes, bytes)>)
    ensures |r| == |es|
  {
    if es == [] then [] else Insert(es[|es| - 1], Sort(es[..|es| - 1]))
  }

  function Format(e: (bytes, bytes)): bytes {
    e.0 + [EQUALS] + e.1
  }

  function Formats(es: seq<(bytes, bytes)>): (r: seq<bytes>)
    ensures |r| == |es| && forall i :: 0 <= i < |es| ==> r[i] == Format(es[i])
  {
    seq(|es|, i requires 0 <= i < |es| => Format(es[i]))
  }

  /** The `sysctls` of the specification, from the map's entries in the order the map
      happens to yield them. */
  function Translate(kvs: seq<(bytes, bytes)>, ipc: bool, net: bool): Result<seq<bytes>, OciError> {
    var es :- Entries(kvs, ipc, net);
    Ok(Formats(Sort(es)))
  }

  /** The sysctl block of `config_to_spec`. */
  method TranslateSysctls(kvs: seq<(bytes, bytes)>, ipc: bool, net: bool) returns (r: Result<seq<bytes>, OciError>)
    ensures r == Translate(kvs, ipc, net)
  {
    var entries := [];
    for i := 0 to |kvs|
      invariant Entries(kvs[..i], ipc, net) == Ok(entries)
    {
      var (k, v) := kvs[i];
      assert kvs[..i + 1][..i] == kvs[..i];
      EntriesPrefix(kvs, i + 1, ipc, net);
      if !Namespaced(k, ipc, net) {
        return Err(UnsupportedProperty(k));
      }
      var rel :- RelPath(k);
      var value :- Value(v);
      entries := entries + [(rel, value)];
    }
    assert kvs[..|kvs|] == kvs;
    r := Ok(Formats(Sort(entries)));
  }

  /** The first error is the whole's. */
  lemma {:induction false} EntriesPrefix(kvs: seq<(bytes, bytes)>, k: nat, ipc: bool, net: bool)
    requires k <= |kvs|
    ensures Entries(kvs[..k], ipc, net).Err? ==> Entries(kvs, ipc, net) == Entries(kvs[..k], ipc, net)
    decreases |kvs|
  {
    if k == |kvs| {
      assert kvs[..k] == kvs;
    } else {
      assert kvs[..|kvs| - 1][..k] == kvs[..k];
      EntriesPrefix(kvs[..|kvs| - 1], k, ipc, net);
    }
  }
}
