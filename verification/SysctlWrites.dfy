/** How the kernel module splits a decoded sysctl entry into the file it writes and
    the value. */
module SysctlWrites {
  import opened Bytes
  import opened Outcomes

  const EQUALS: u8 := 0x3D
  /** "/proc/sys/" */
  const PREFIX: bytes := [0x2F, 0x70, 0x72, 0x6F, 0x63, 0x2F, 0x73, 0x79, 0x73, 0x2F]

  /** The NUL-terminated path under /proc/sys and the value, or None if the entry is
      skipped. */
  function Split(entry: bytes): Option<(bytes, bytes)> {
    var eq := Find(entry, EQUALS, 0);
    if eq == |entry| then None else
    var end := if entry[|entry| - 1] == 0 then |entry| - 1 else |entry|;
    if eq + 1 > end then None else Some((PREFIX + entry[..eq] + [0], entry[eq + 1..end]))
  }

  method SplitEntry(entry: bytes) returns (r: Option<(bytes, bytes)>)
    ensures r == Split(entry)
  {
    var eq := 0;
    while eq < |entry| && entry[eq] != EQUALS
      invariant eq <= |entry|
      invariant Find(entry, EQUALS, 0) == Find(entry, EQUALS, eq)
    {
      eq := eq + 1;
    }
    if eq == |entry| {
      return None;
    }
    var end := |entry|;
    if entry[|entry| - 1] == 0 {
      end := |entry| - 1;
    }
    if eq + 1 > end {
      return None;
    }
    var path := PREFIX;
    path := path + entry[..eq];
    path := path + [0];
    r := Some((path, entry[eq + 1..end]));
  }
}
