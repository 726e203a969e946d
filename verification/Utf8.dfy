/** What the decoder takes for text: the UTF-8 encodings of sequences of Unicode scalar
    values, and nothing else. */
module Utf8 {
  import opened Bytes

  /** A Unicode scalar value: a code point that is not a surrogate. */
  type Scalar = c: int | 0 <= c < 0xD800 || 0xE000 <= c < 0x11_0000

  /** Six bits a byte after the first. */
  function EncodeChar(c: Scalar): (b: bytes)
    ensures 1 <= |b| <= 4
  {
    if c < 0x80 then [c]
    else if c < 0x800 then [0xC0 + c / 64, 0x80 + c % 64]
    else if c < 0x1_0000 then [0xE0 + c / 64 / 64, 0x80 + c / 64 % 64, 0x80 + c % 64]
    else [0xF0 + c / 64 / 64 / 64, 0x80 + c / 64 / 64 % 64, 0x80 + c / 64 % 64, 0x80 + c % 64]
  }

  function EncodeText(text: seq<Scalar>): bytes {
    if text == [] then [] else EncodeChar(text[0]) + EncodeText(text[1..])
  }

  ghost predicate Encodes(s: bytes) {
    exists text :: s == EncodeText(text)
  }

  lemma CharThenText(c: Scalar, rest: bytes)
    ensures ValidUtf8(EncodeChar(c) + rest) <==> ValidUtf8(rest)
  {
    var s := EncodeChar(c) + rest;
    assert s[|EncodeChar(c)|..] == rest;
  }

  /** The first character of a text. */
  lemma FirstChar(s: bytes) returns (c: Scalar, rest: bytes)
    requires s != [] && ValidUtf8(s)
    ensures s == EncodeChar(c) + rest && ValidUtf8(rest)
  {
    if s[0] < 0x80 {
      c, rest := s[0], s[1..];
    } else if s[0] <= 0xDF {
      var hi: int, lo: int := s[0] - 0xC0, s[1] - 0x80;
      Digits(hi, lo);
      c, rest := 64 * hi + lo, s[2..];
    } else if s[0] <= 0xEF {
      c := ThreeBytes(s);
      rest := s[3..];
    } else {
      c := FourBytes(s);
      rest := s[4..];
    }
  }

  lemma ThreeBytes(s: bytes) returns (c: Scalar)
    requires |s| >= 3 && 0xE0 <= s[0] <= 0xEF && ValidUtf8(s)
    ensures EncodeChar(c) == s[..3]
  {
    var hi: int, mid: int, lo: int := s[0] - 0xE0, s[1] - 0x80, s[2] - 0x80;
    Digits(hi, mid);
    Digits(64 * hi + mid, lo);
    c := 64 * (64 * hi + mid) + lo;
  }

  lemma FourBytes(s: bytes) returns (c: Scalar)
    requires |s| >= 4 && 0xF0 <= s[0] && ValidUtf8(s)
    ensures EncodeChar(c) == s[..4]
  {
    var top: int, hi: int, mid: int, lo: int := s[0] - 0xF0, s[1] - 0x80, s[2] - 0x80, s[3] - 0x80;
    Digits(top, hi);
    Digits(64 * top + hi, mid);
    Digits(64 * (64 * top + hi) + mid, lo);
    c := 64 * (64 * (64 * top + hi) + mid) + lo;
  }

  lemma Digits(hi: int, lo: int)
    requires 0 <= lo < 64
    ensures (64 * hi + lo) / 64 == hi && (64 * hi + lo) % 64 == lo
  {
  }

  /** Accepted as text exactly if it encodes some sequence of scalar values: every
      character passes, whatever its length, and no overlong form, surrogate or stray byte
      does. */
  lemma {:induction false} ValidIff(s: bytes)
    ensures ValidUtf8(s) <==> Encodes(s)
  {
    if ValidUtf8(s) {
      var text := Characters(s);
    }
    if text :| s == EncodeText(text) {
      EncodedIsValid(text);
    }
  }

  lemma {:induction false} EncodedIsValid(text: seq<Scalar>)
    ensures ValidUtf8(EncodeText(text))
  {
    if text != [] {
      EncodedIsValid(text[1..]);
      CharThenText(text[0], EncodeText(text[1..]));
    }
  }

  lemma {:induction false} Characters(s: bytes) returns (text: seq<Scalar>)
    requires ValidUtf8(s)
    ensures s == EncodeText(text)
    decreases |s|
  {
    if s == [] {
      text := [];
    } else {
      var c, rest := FirstChar(s);
      text := Characters(rest);
      assert ([c] + text)[1..] == text;
      text := [c] + text;
    }
  }
}
