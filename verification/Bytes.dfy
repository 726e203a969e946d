/** Fixed-width integers, byte strings and the little-endian encoding shared by
    both sides of the ABI. */
module Bytes {

  type u8 = x: int | 0 <= x < 0x100
  type u16 = x: int | 0 <= x < 0x1_0000
  type u32 = x: int | 0 <= x < 0x1_0000_0000
  type u64 = x: int | 0 <= x < 0x1_0000_0000_0000_0000
  type i32 = x: int | -0x8000_0000 <= x < 0x8000_0000

  type bytes = seq<u8>

  /** `n as u32` on a 64-bit `usize`: keeps the low 32 bits. */
  function Cast32(n: nat): u32 {
    n % 0x1_0000_0000
  }

  /** `v as u32` on an `i32`: two's complement reinterpretation. */
  function I32AsU32(v: i32): u32 {
    if v < 0 then v + 0x1_0000_0000 else v
  }

  /** `v as i32` on a `u32`. */
  function U32AsI32(v: u32): i32 {
    if v >= 0x8000_0000 then v - 0x1_0000_0000 else v
  }

  function Le2(v: u16): (b: bytes)
    ensures |b| == 2
  {
    [v % 0x100, v / 0x100]
  }

  function Le4(v: u32): (b: bytes)
    ensures |b| == 4
  {
    [v % 0x100, v / 0x100 % 0x100, v / 0x1_0000 % 0x100, v / 0x100_0000]
  }

  function Le8(v: u64): (b: bytes)
    ensures |b| == 8
  {
    Le4(v % 0x1_0000_0000) + Le4(v / 0x1_0000_0000)
  }

  function FromLe2(b: bytes): u16
    requires |b| == 2
  {
    b[0] as int + 0x100 * (b[1] as int)
  }

  function FromLe4(b: bytes): u32
    requires |b| == 4
  {
    b[0] as int + 0x100 * (b[1] as int) + 0x1_0000 * (b[2] as int) + 0x100_0000 * (b[3] as int)
  }

  function FromLe8(b: bytes): u64
    requires |b| == 8
  {
    FromLe4(b[..4]) + 0x1_0000_0000 * FromLe4(b[4..])
  }

  lemma Le2RoundTrip(v: u16)
    ensures FromLe2(Le2(v)) == v
  {
  }

  lemma Le4RoundTrip(v: u32)
    ensures FromLe4(Le4(v)) == v
  {
    var a, b, c := v / 0x100, v / 0x1_0000, v / 0x100_0000;
    assert v == v % 0x100 + 0x100 * a;
    assert a == a % 0x100 + 0x100 * b;
    assert b == b % 0x100 + 0x100 * c;
  }

  lemma Le8RoundTrip(v: u64)
    ensures FromLe8(Le8(v)) == v
  {
    var lo, hi := v % 0x1_0000_0000, v / 0x1_0000_0000;
    assert Le8(v)[..4] == Le4(lo) && Le8(v)[4..] == Le4(hi);
    Le4RoundTrip(lo);
    Le4RoundTrip(hi);
  }

  /** Distinct byte groups denote distinct words, so a decoded word determines
      the bytes it was read from. */
  lemma FromLe4RoundTrip(b: bytes)
    requires |b| == 4
    ensures Le4(FromLe4(b)) == b
  {
    var v := FromLe4(b);
    var b1: int, b2: int, b3: int := b[1], b[2], b[3];
    assert v / 0x100 == b1 + 0x100 * b2 + 0x1_0000 * b3;
    assert v / 0x1_0000 == b2 + 0x100 * b3;
    assert v / 0x100_0000 == b3;
  }

  lemma FromLe2RoundTrip(b: bytes)
    requires |b| == 2
    ensures Le2(FromLe2(b)) == b
  {
  }

  /** Well-formed UTF-8 as in section 4 of RFC 3629: no overlong forms, no
      surrogates, nothing above U+10FFFF. */
  predicate ValidUtf8(s: bytes) {
    if s == [] then true
    else if s[0] < 0x80 then ValidUtf8(s[1..])
    else if 0xC2 <= s[0] <= 0xDF then |s| >= 2 && Tail(s[1]) && ValidUtf8(s[2..])
    else if 0xE0 <= s[0] <= 0xEF then
      && |s| >= 3
      && (if s[0] == 0xE0 then 0xA0 <= s[1] <= 0xBF
          else if s[0] == 0xED then 0x80 <= s[1] <= 0x9F
          else Tail(s[1]))
      && Tail(s[2])
      && ValidUtf8(s[3..])
    else if 0xF0 <= s[0] <= 0xF4 then
      && |s| >= 4
      && (if s[0] == 0xF0 then 0x90 <= s[1] <= 0xBF
          else if s[0] == 0xF4 then 0x80 <= s[1] <= 0x8F
          else Tail(s[1]))
      && Tail(s[2])
      && Tail(s[3])
      && ValidUtf8(s[4..])
    else false
  }

  predicate Tail(b: u8) {
    0x80 <= b <= 0xBF
  }

  /** A Rust or C slice of text written out as bytes. */
  function Ascii(text: string): (b: bytes)
    requires forall i | 0 <= i < |text| :: text[i] < 0x80 as char
    ensures |b| == |text|
  {
    seq(|text|, i requires 0 <= i < |text| => text[i] as int)
  }

  /** The first index from `i` on that holds `b`, or the length. */
  function Find(s: bytes, b: u8, i: nat): (k: nat)
    requires i <= |s|
    ensures i <= k <= |s|
    ensures forall j :: i <= j < k ==> s[j] != b
    ensures k < |s| ==> s[k] == b
    decreases |s| - i
  {
    if i == |s| || s[i] == b then i else Find(s, b, i + 1)
  }
}
