/** What any record the kernel decoder makes looks like, whoever wrote the buffer. */
module KernelRecords {
  import opened Bytes
  import opened Outcomes
  import opened Wire
  import opened KernelFormat

  /** A C string of at most 4096 bytes and its terminator. */
  predicate CString(s: bytes) {
    0 < |s| <= 4097 && s[|s| - 1] == 0
  }

  predicate CStrings(items: seq<bytes>) {
    |items| <= 31 && forall i :: 0 <= i < |items| ==> CString(items[i])
  }

  predicate CMounts(items: seq<MountSpec>) {
    |items| <= 64 && forall i :: 0 <= i < |items| ==>
      CString(items[i].destination) && CString(items[i].fsType) && CString(items[i].source)
  }

  /** Lists cut to 31 strings, 32 limits and 64 mounts; every text terminated. */
  predicate Shaped(d: DecodedSpec) {
    && CStrings(d.argv) && CStrings(d.envp) && CStrings(d.masked) && CStrings(d.readonly) && CStrings(d.sysctls)
    && |d.rlimits| <= 32 && CMounts(d.mounts)
    && (d.rootfs != [] ==> d.rootfs[|d.rootfs| - 1] == 0)
    && (d.hostname != [] ==> d.hostname[|d.hostname| - 1] == 0)
  }

  lemma {:induction false} ItemsShort(s: bytes, n: nat)
    requires Many(GetItem, s, n).Ok?
    ensures var xs := Many(GetItem, s, n).value.0; forall i :: 0 <= i < |xs| ==> |xs[i]| <= 4096
    decreases n
  {
    hide GetItem;
    if n > 0 {
      ItemShort(s);
      ItemsShort(GetItem(s).value.1, n - 1);
    }
  }

  lemma ItemShort(s: bytes)
    ensures GetItem(s).Ok? ==> |GetItem(s).value.0| <= 4096
  {
  }

  lemma StringsShaped(p: bytes)
    ensures GetStrings(p).Ok? ==> CStrings(GetStrings(p).value)
  {
    hide GetItem, GetU32;
    if GetStrings(p).Ok? {
      var (n, t) := GetU32(p, EINVAL).value;
      ItemsShort(t, n);
    }
  }

  lemma {:induction false} MountItems(s: bytes, n: nat)
    requires Many(GetMount, s, n).Ok?
    ensures var xs := Many(GetMount, s, n).value.0; forall i :: 0 <= i < |xs| ==>
      CString(xs[i].destination) && CString(xs[i].fsType) && CString(xs[i].source)
    decreases n
  {
    hide GetMount;
    if n > 0 {
      MountItem(s);
      MountItems(GetMount(s).value.1, n - 1);
    }
  }

  lemma MountItem(s: bytes)
    ensures GetMount(s).Ok? ==>
      var m := GetMount(s).value.0; CString(m.destination) && CString(m.fsType) && CString(m.source)
  {
    hide GetItem, GetU64;
    ItemShort(s);
    if GetItem(s).Ok? {
      var t := GetItem(s).value.1;
      ItemShort(t);
      if GetItem(t).Ok? {
        ItemShort(GetItem(t).value.1);
      }
    }
  }

  lemma MountsShaped(p: bytes)
    ensures GetList(GetMount, p, MAX_MOUNTS).Ok? ==> CMounts(GetList(GetMount, p, MAX_MOUNTS).value)
  {
    hide GetMount, GetU32;
    if GetList(GetMount, p, MAX_MOUNTS).Ok? {
      var (n, t) := GetU32(p, EINVAL).value;
      MountItems(t, n);
    }
  }

  predicate StringTag(tag: u16) {
    tag == 3 || tag == 4 || tag == 11 || tag == 12 || tag == 18
  }

  lemma StringsApplied(d: DecodedSpec, tag: u16, p: bytes)
    requires Shaped(d) && StringTag(tag)
    ensures Apply(d, tag, p).Ok? ==> Shaped(Apply(d, tag, p).value)
  {
    hide GetStrings, CString, CMounts;
    StringsShaped(p);
  }

  lemma MountsApplied(d: DecodedSpec, p: bytes)
    requires Shaped(d)
    ensures Apply(d, 17, p).Ok? ==> Shaped(Apply(d, 17, p).value)
    ensures Apply(d, 13, p).Ok? ==> Shaped(Apply(d, 13, p).value)
  {
    hide CStrings, CMounts, GetMount, GetRlimit, GetU32;
    MountsShaped(p);
  }

  lemma OthersApplied(d: DecodedSpec, tag: u16, p: bytes)
    requires Shaped(d) && !StringTag(tag) && tag != 13 && tag != 17
    ensures Apply(d, tag, p).Ok? ==> Shaped(Apply(d, tag, p).value)
  {
    hide CStrings, CMounts, GetU32, GetU64;
  }

  lemma ApplyShaped(d: DecodedSpec, tag: u16, p: bytes)
    requires Shaped(d)
    ensures Apply(d, tag, p).Ok? ==> Shaped(Apply(d, tag, p).value)
  {
    hide Apply, Shaped;
    if StringTag(tag) {
      StringsApplied(d, tag, p);
    } else if tag == 13 || tag == 17 {
      MountsApplied(d, p);
    } else {
      OthersApplied(d, tag, p);
    }
  }

  lemma {:induction false} WalkShaped(s: bytes, n: nat, seen: set<u16>, d: DecodedSpec)
    requires Shaped(d) && Walk(DECODER, s, n, seen, d).Ok?
    ensures Shaped(Walk(DECODER, s, n, seen, d).value.0)
    decreases n
  {
    hide Apply, Shaped, GetSection;
    if n > 0 {
      var (x, t) := GetSection(s, EINVAL).value;
      ApplyShaped(d, x.tag, x.payload);
      var d' := Accept(DECODER, x, seen, d).value;
      WalkShaped(t, n - 1, Mark(seen, x.tag), d');
    }
  }

  /** Whatever buffer it comes from. */
  lemma DecodedShaped(buf: bytes)
    ensures DecodeSpec(buf).Ok? ==> Shaped(DecodeSpec(buf).value)
  {
    hide GetHeader, Walk, Shaped;
    DefaultShaped();
    if DecodeSpec(buf).Ok? {
      var (count, r) := GetHeader(buf).value;
      WalkShaped(r, count, {}, DEFAULT);
    }
  }

  lemma DefaultShaped()
    ensures Shaped(DEFAULT)
  {
  }

  /** So an init is never asked to run without a program or a root file system, its root
      and host name are terminated, and all its arguments reach it. */
  lemma StartedShaped(buf: bytes)
    requires CreateFromBlob(buf).Ok?
    ensures var a := CreateFromBlob(buf).value;
      && 1 <= |a.argv| <= 31 && CStrings(a.argv) && CStrings(a.envp)
      && |a.rootfs| > 1 && a.rootfs[|a.rootfs| - 1] == 0
      && |a.hostname| > 1 && a.hostname[|a.hostname| - 1] == 0
      && |a.rlimits| <= 32 && CMounts(a.mounts)
  {
    hide DecodeSpec, CMounts, CString;
    DecodedShaped(buf);
  }
}
