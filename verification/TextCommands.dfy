/** The text plane's parsers: trimming, decimal numbers, and the `run` line. */
module TextCommands {
  import opened Bytes
  import opened Outcomes
  import opened KernelFormat
  import opened SysctlWrites

  predicate IsWs(b: u8) {
    b == 0x20 || b == 0x09 || b == 0x0D || b == 0x0A
  }

  /** Blank, tabulator, carriage return, line feed. */
  predicate Space(b: u8) {
    b as char == ' ' || b as char == '\t' || b as char == '\r' || b as char == '\n'
  }

  predicate AllWs(s: bytes) {
    forall i :: 0 <= i < |s| ==> Space(s[i])
  }

  predicate NoWs(s: bytes) {
    forall i :: 0 <= i < |s| ==> !Space(s[i])
  }

  // ------------------------------------------------------------------ trim

  /** `t` is `s` without the whitespace at its ends. */
  ghost predicate Trimmed(s: bytes, t: bytes) {
    && (t != [] ==> !Space(t[0]) && !Space(t[|t| - 1]))
    && exists from: nat, to: nat :: from <= to <= |s| && Cut(s, t, from, to)
  }

  ghost predicate Cut(s: bytes, t: bytes, from: nat, to: nat)
    requires from <= to <= |s|
  {
    t == s[from..to] && AllWs(s[..from]) && AllWs(s[to..])
  }

  method Trim(s: bytes) returns (t: bytes)
    ensures Trimmed(s, t)
  {
    var from := 0;
    while from < |s| && IsWs(s[from])
      invariant from <= |s| && AllWs(s[..from])
    {
      from := from + 1;
    }
    var to := |s|;
    while from < to && IsWs(s[to - 1])
      invariant from <= to <= |s| && AllWs(s[to..])
    {
      to := to - 1;
    }
    t := s[from..to];
    assert Cut(s, t, from, to);
  }

  /** There is only one way to trim. */
  lemma TrimmedOnce(s: bytes, t: bytes, u: bytes)
    requires Trimmed(s, t) && Trimmed(s, u)
    ensures t == u
  {
    var a: nat, b: nat :| a <= b <= |s| && Cut(s, t, a, b);
    var c: nat, d: nat :| c <= d <= |s| && Cut(s, u, c, d);
    forall i | 0 <= i < |s|
      ensures Space(s[i]) || (a <= i < b && c <= i < d)
    {
      assert i < a ==> Space(s[..a][i]);
      assert i >= b ==> Space(s[b..][i - b]);
      assert i < c ==> Space(s[..c][i]);
      assert i >= d ==> Space(s[d..][i - d]);
    }
    if t != [] {
      assert s[a] == t[0] && s[b - 1] == t[|t| - 1];
    }
    if u != [] {
      assert s[c] == u[0] && s[d - 1] == u[|u| - 1];
    }
  }

  // --------------------------------------------------------------- numbers

  predicate IsDigit(b: u8) {
    0x30 <= b <= 0x39
  }

  predicate Digits(s: bytes) {
    forall i :: 0 <= i < |s| ==> '0' <= s[i] as char <= '9'
  }

  function Decimal(s: bytes): nat
    requires Digits(s)
  {
    if s == [] then 0 else 10 * Decimal(s[..|s| - 1]) + (s[|s| - 1] - 0x30)
  }

  const MINUS: u8 := 0x2D
  const PLUS: u8 := 0x2B

  /** The digits of an optionally signed numeral. */
  function Magnitude(t: bytes): bytes {
    if t != [] && (t[0] as char == '-' || t[0] as char == '+') then t[1..] else t
  }

  predicate Numeral(t: bytes) {
    Magnitude(t) != [] && Digits(Magnitude(t))
  }

  /** The integer an optionally signed decimal denotes, of any size. */
  function Denotes(t: bytes): int
    requires Numeral(t)
  {
    if t[0] as char == '-' then 0 - Decimal(t[1..]) else Decimal(Magnitude(t))
  }

  const I32_MAX := 0x7FFF_FFFF
  const I32_MIN := -0x8000_0000

  type i64 = x: int | -0x8000_0000_0000_0000 <= x < 0x8000_0000_0000_0000

  function CheckedMul(a: i64, b: i64): Option<i64> {
    var p := (a as int) * (b as int);
    if -0x8000_0000_0000_0000 <= p < 0x8000_0000_0000_0000 then Some(p) else None
  }

  function CheckedAdd(a: i64, b: i64): Option<i64> {
    var p := (a as int) + (b as int);
    if -0x8000_0000_0000_0000 <= p < 0x8000_0000_0000_0000 then Some(p) else None
  }

  /** A longer numeral is no smaller. */
  lemma {:induction false} DecimalGrows(s: bytes, k: nat)
    requires Digits(s) && k <= |s|
    ensures Decimal(s[..k]) <= Decimal(s)
    decreases |s|
  {
    if k == |s| {
      assert s[..k] == s;
    } else {
      assert s[..|s| - 1][..k] == s[..k];
      DecimalGrows(s[..|s| - 1], k);
    }
  }

  /** `parse_i32`: the value of the trimmed text if it is a numeral that fits, else
      nothing. The accumulator's overflow checks never fail. */
  method ParseI32(s: bytes) returns (r: Option<i32>)
    ensures forall t :: Trimmed(s, t) ==>
      r == if Numeral(t) && -2147483648 <= Denotes(t) <= 2147483647 then Some(Denotes(t)) else None
  {
    hide Trimmed;
    var text := Trim(s);
    forall t | Trimmed(s, t)
      ensures t == text
    {
      TrimmedOnce(s, t, text);
    }
    if text == [] {
      return None;
    }
    var neg, digits := false, text;
    if text[0] == MINUS {
      neg, digits := true, text[1..];
    } else if text[0] == PLUS {
      digits := text[1..];
    }
    assert digits == Magnitude(text);
    if digits == [] {
      return None;
    }
    var v := Accumulate(digits);
    if v.None? {
      return None;
    }
    var value: i64 := v.value;
    if neg {
      value := -value;
    }
    if value < I32_MIN || value > I32_MAX {
      return None;
    }
    r := Some(value);
  }

  /** The digits' value, unless there is a byte that is none or it is too large for a
      negated `i32`. */
  method Accumulate(digits: bytes) returns (r: Option<i64>)
    ensures r == if Digits(digits) && Decimal(digits) <= 2147483648 then Some(Decimal(digits)) else None
  {
    var v: i64 := 0;
    for i := 0 to |digits|
      invariant Digits(digits[..i])
      invariant v == Decimal(digits[..i]) && v <= I32_MAX + 1
    {
      if !IsDigit(digits[i]) {
        return None;
      }
      assert digits[..i + 1][..i] == digits[..i];
      var m := CheckedMul(v, 10);
      if m.None? {
        assert false;
        return None;
      }
      var a := CheckedAdd(m.value, digits[i] - 0x30);
      if a.None? {
        assert false;
        return None;
      }
      v := a.value;
      if v > I32_MAX + 1 {
        if Digits(digits) {
          DecimalGrows(digits, i + 1);
        }
        return None;
      }
    }
    assert digits[..|digits|] == digits;
    r := Some(v);
  }

  /** A decimal rendering. */
  function RenderNat(n: nat): (s: bytes)
    ensures s != [] && Digits(s)
  {
    if n < 10 then [0x30 + n] else RenderNat(n / 10) + [0x30 + n % 10]
  }

  function Render(v: int): (s: bytes)
    ensures s != []
  {
    if v < 0 then [MINUS] + RenderNat(-v) else RenderNat(v)
  }

  lemma {:induction false} RenderNatDenotes(n: nat)
    ensures Decimal(RenderNat(n)) == n
  {
    if n >= 10 {
      RenderNatDenotes(n / 10);
      assert RenderNat(n)[..|RenderNat(n)| - 1] == RenderNat(n / 10);
    } else {
      assert [0x30 + n][..0] == [];
    }
  }

  /** Every integer is denoted by its rendering, so every `i32` can be parsed back. */
  lemma RenderDenotes(v: int)
    ensures Numeral(Render(v)) && Denotes(Render(v)) == v
    ensures Trimmed(Render(v), Render(v))
  {
    var t := Render(v);
    RenderNatDenotes(if v < 0 then -v else v);
    if v < 0 {
      assert t[1..] == RenderNat(-v);
    }
    assert Magnitude(t) == RenderNat(if v < 0 then -v else v);
    assert IsDigit(t[|t| - 1]) by {
      assert t[|t| - 1] == Magnitude(t)[|Magnitude(t)| - 1];
    }
    assert t[0..|t|] == t;
    assert Cut(t, t, 0, |t|);
  }

  // -------------------------------------------------------------- run line

  /** The end of the run of whitespace, or of other bytes, that starts at `i`. */
  function SkipWs(line: bytes, i: nat): (k: nat)
    requires i <= |line|
    ensures i <= k <= |line|
    decreases |line| - i
  {
    if i < |line| && IsWs(line[i]) then SkipWs(line, i + 1) else i
  }

  function SkipToken(line: bytes, i: nat): (k: nat)
    requires i <= |line|
    ensures i <= k <= |line|
    decreases |line| - i
  {
    if i < |line| && !IsWs(line[i]) then SkipToken(line, i + 1) else i
  }

  function Tokens(line: bytes, i: nat): seq<bytes>
    requires i <= |line|
    decreases |line| - i
  {
    var start := SkipWs(line, i);
    var end := SkipToken(line, start);
    if start == end then [] else [line[start..end]] + Tokens(line, end)
  }

  const ROOTFS_KEY: bytes := [0x72, 0x6F, 0x6F, 0x74, 0x66, 0x73]
  const HOST_KEY: bytes := [0x68, 0x6F, 0x73, 0x74]
  const HOSTNAME_KEY: bytes := [0x68, 0x6F, 0x73, 0x74, 0x6E, 0x61, 0x6D, 0x65]
  const EXEC_KEY: bytes := [0x65, 0x78, 0x65, 0x63]
  const ARG_KEY: bytes := [0x61, 0x72, 0x67]

  function SplitKv(tok: bytes): (bytes, bytes) {
    var k := Find(tok, EQUALS, 0);
    if k < |tok| then (tok[..k], tok[k + 1..]) else (tok, [])
  }

  datatype Fields = Fields(rootfs: Option<bytes>, host: Option<bytes>, exec: Option<bytes>, args: seq<bytes>)

  const NO_FIELDS := Fields(None, None, None, [])

  function Take(f: Fields, tok: bytes): Fields {
    var (key, val) := SplitKv(tok);
    if key == ROOTFS_KEY then f.(rootfs := Some(ToCvec(val)))
    else if key == HOST_KEY || key == HOSTNAME_KEY then f.(host := Some(ToCvec(val)))
    else if key == EXEC_KEY then f.(exec := Some(ToCvec(val)))
    else if key == ARG_KEY && |f.args| < MAX_ARGS - 1 then f.(args := f.args + [ToCvec(val)])
    else f
  }

  function TakeAll(f: Fields, toks: seq<bytes>): Fields
    decreases |toks|
  {
    if toks == [] then f else TakeAll(Take(f, toks[0]), toks[1..])
  }

  datatype Run = Run(host: bytes, rootfs: bytes, argv: seq<bytes>)

  function Finish(f: Fields): Result<Run, Errno> {
    if f.rootfs.None? || f.exec.None? then Err(EINVAL) else
    Ok(Run(if f.host.Some? then f.host.value else DEFAULT_HOST, f.rootfs.value, [f.exec.value] + f.args))
  }

  /** Moves every element of one list to the end of another. */
  method DrainInto(src: seq<bytes>, dst: seq<bytes>) returns (rest: seq<bytes>, all: seq<bytes>)
    ensures rest == [] && all == dst + src
  {
    rest, all := src, dst;
    while rest != []
      invariant all + rest == dst + src
    {
      all := all + [rest[0]];
      rest := rest[1..];
    }
  }

  method ParseRunLine(line: bytes) returns (r: Result<Run, Errno>)
    ensures r == Finish(TakeAll(NO_FIELDS, Tokens(line, 0)))
  {
    hide Take, Finish;
    var f := NO_FIELDS;
    var i := 0;
    while i < |line|
      invariant i <= |line|
      invariant TakeAll(f, Tokens(line, i)) == TakeAll(NO_FIELDS, Tokens(line, 0))
    {
      ghost var from := i;
      while i < |line| && IsWs(line[i])
        invariant from <= i <= |line| && SkipWs(line, i) == SkipWs(line, from)
      {
        i := i + 1;
      }
      var start := i;
      while i < |line| && !IsWs(line[i])
        invariant start <= i <= |line| && SkipToken(line, i) == SkipToken(line, start)
      {
        i := i + 1;
      }
      if start == i {
        break;
      }
      f := TakeToken(f, line[start..i]);
    }
    assert Tokens(line, i) == [];
    r := FinishRun(f);
  }

  method TakeToken(f: Fields, tok: bytes) returns (g: Fields)
    ensures g == Take(f, tok)
  {
    var (key, val) := SplitKv(tok);
    g := f;
    if key == ROOTFS_KEY {
      g := g.(rootfs := Some(ToCvec(val)));
    } else if key == HOST_KEY || key == HOSTNAME_KEY {
      g := g.(host := Some(ToCvec(val)));
    } else if key == EXEC_KEY {
      g := g.(exec := Some(ToCvec(val)));
    } else if key == ARG_KEY {
      if |g.args| < MAX_ARGS - 1 {
        g := g.(args := g.args + [ToCvec(val)]);
      }
    }
  }

  method FinishRun(f: Fields) returns (r: Result<Run, Errno>)
    ensures r == Finish(f)
  {
    if f.rootfs.None? {
      return Err(EINVAL);
    }
    if f.exec.None? {
      return Err(EINVAL);
    }
    var host := if f.host.Some? then f.host.value else DEFAULT_HOST;
    var _, argv := DrainInto(f.args, [f.exec.value]);
    r := Ok(Run(host, f.rootfs.value, argv));
  }

  // ------------------------------------------------------------ round trip

  predicate IsToken(t: bytes) {
    t != [] && NoWs(t)
  }

  /** A line of tokens, each after its own run of whitespace, and a last run. */
  function Spread(toks: seq<bytes>, gaps: seq<bytes>, last: bytes): bytes
    requires |gaps| == |toks|
  {
    if toks == [] then last else gaps[0] + toks[0] + Spread(toks[1..], gaps[1..], last)
  }

  lemma {:induction false} SkipWsOver(line: bytes, i: nat, k: nat)
    requires i <= k <= |line| && forall j :: i <= j < k ==> IsWs(line[j])
    requires k < |line| ==> !IsWs(line[k])
    ensures SkipWs(line, i) == k
    decreases k - i
  {
    if i < k {
      SkipWsOver(line, i + 1, k);
    }
  }

  lemma {:induction false} SkipTokenOver(line: bytes, i: nat, k: nat)
    requires i <= k <= |line| && forall j :: i <= j < k ==> !IsWs(line[j])
    requires k < |line| ==> IsWs(line[k])
    ensures SkipToken(line, i) == k
    decreases k - i
  {
    if i < k {
      SkipTokenOver(line, i + 1, k);
    }
  }

  /** Splitting undoes spreading, whatever the runs of whitespace: only those between
      tokens must not be empty. */
  lemma {:induction false} TokensOfSpread(before: bytes, toks: seq<bytes>, gaps: seq<bytes>, last: bytes)
    requires |gaps| == |toks| && AllWs(last)
    requires forall i :: 0 <= i < |toks| ==> IsToken(toks[i]) && AllWs(gaps[i])
    requires forall i :: 0 < i < |toks| ==> gaps[i] != []
    ensures Tokens(before + Spread(toks, gaps, last), |before|) == toks
    decreases |toks|
  {
    var line := before + Spread(toks, gaps, last);
    var i := |before|;
    if toks == [] {
      SkipWsOver(line, i, |line|);
    } else {
      var rest := Spread(toks[1..], gaps[1..], last);
      var start, end := i + |gaps[0]|, i + |gaps[0]| + |toks[0]|;
      assert line == before + gaps[0] + toks[0] + rest;
      assert forall j :: i <= j < start ==> line[j] == gaps[0][j - i];
      assert forall j :: start <= j < end ==> line[j] == toks[0][j - start];
      SkipWsOver(line, i, start);
      SpreadStarts(toks[1..], gaps[1..], last);
      assert end < |line| ==> line[end] == rest[0];
      SkipTokenOver(line, start, end);
      assert line[start..end] == toks[0];
      assert line == (before + gaps[0] + toks[0]) + rest;
      TokensOfSpread(before + gaps[0] + toks[0], toks[1..], gaps[1..], last);
    }
  }

  lemma SpreadStarts(toks: seq<bytes>, gaps: seq<bytes>, last: bytes)
    requires |gaps| == |toks| && AllWs(last)
    requires forall i :: 0 <= i < |toks| ==> AllWs(gaps[i]) && gaps[i] != []
    ensures var s := Spread(toks, gaps, last); s != [] ==> IsWs(s[0])
  {
    if toks != [] {
      assert Spread(toks, gaps, last)[0] == gaps[0][0];
    }
  }

  function Field(key: bytes, val: bytes): bytes {
    key + [EQUALS] + val
  }

  lemma SplitField(key: bytes, val: bytes)
    requires EQUALS !in key
    ensures SplitKv(Field(key, val)) == (key, val)
  {
    var tok := Field(key, val);
    assert forall i :: 0 <= i < |key| ==> tok[i] == key[i];
    var k := Find(tok, EQUALS, 0);
    assert tok[|key|] == EQUALS;
    if k < |key| {
      assert false;
    }
    assert tok[..|key|] == key && tok[|key| + 1..] == val;
  }

  /** "run" */
  const RUN: bytes := [0x72, 0x75, 0x6E]

  function ArgFields(args: seq<bytes>): (r: seq<bytes>)
    ensures |r| == |args| && forall i :: 0 <= i < |args| ==> r[i] == Field(ARG_KEY, args[i])
  {
    seq(|args|, i requires 0 <= i < |args| => Field(ARG_KEY, args[i]))
  }

  function RunTokens(host: Option<bytes>, rootfs: bytes, exec: bytes, args: seq<bytes>): seq<bytes> {
    [RUN, Field(ROOTFS_KEY, rootfs)] + (if host.Some? then [Field(HOST_KEY, host.value)] else [])
    + [Field(EXEC_KEY, exec)] + ArgFields(args)
  }

  lemma TakeArg(f: Fields, arg: bytes)
    requires |f.args| <= 31
    ensures Take(f, Field(ARG_KEY, arg)) == f.(args := Clip(f.args + [ToCvec(arg)], 31))
    ensures |Clip(f.args + [ToCvec(arg)], 31)| <= 31
  {
    hide SplitKv;
    SplitField(ARG_KEY, arg);
    assert |f.args| == 31 ==> (f.args + [ToCvec(arg)])[..31] == f.args;
  }

  lemma ClipTwice(xs: seq<bytes>, ys: seq<bytes>, limit: nat)
    ensures Clip(Clip(xs, limit) + ys, limit) == Clip(xs + ys, limit)
  {
    if |xs| > limit {
      assert (xs[..limit] + ys)[..limit] == xs[..limit] == (xs + ys)[..limit];
      assert ys == [] ==> xs[..limit] + ys == xs[..limit] && xs + ys == xs;
    }
  }

  lemma {:induction false} TakeArgs(f: Fields, args: seq<bytes>)
    requires |f.args| <= 31
    ensures TakeAll(f, ArgFields(args)) == f.(args := Clip(f.args + ToCvecs(args), 31))
    decreases |args|
  {
    hide Take, TakeAll, Clip, ArgFields, ToCvecs, Field;
    if args == [] {
      TakeNone(f, args);
    } else {
      var arg, rest := args[0], args[1..];
      var xs, more := f.args + [ToCvec(arg)], ToCvecs(rest);
      TakeArg(f, arg);
      ArgsCons(args);
      TakeOne(f, Field(ARG_KEY, arg), ArgFields(rest));
      TakeArgs(Take(f, Field(ARG_KEY, arg)), rest);
      assert f.args + ToCvecs(args) == xs + more;
      ClipTwice(xs, more, 31);
    }
  }

  lemma ArgsCons(args: seq<bytes>)
    requires args != []
    ensures ArgFields(args) == [Field(ARG_KEY, args[0])] + ArgFields(args[1..])
    ensures ToCvecs(args) == [ToCvec(args[0])] + ToCvecs(args[1..])
  {
  }

  lemma TakeNone(f: Fields, args: seq<bytes>)
    requires args == [] && |f.args| <= 31
    ensures TakeAll(f, ArgFields(args)) == f.(args := Clip(f.args + ToCvecs(args), 31))
  {
    assert f.args + ToCvecs(args) == f.args;
  }

  lemma TakeOne(f: Fields, tok: bytes, rest: seq<bytes>)
    ensures TakeAll(f, [tok] + rest) == TakeAll(Take(f, tok), rest)
  {
    assert ([tok] + rest)[1..] == rest;
  }

  /** A rendered run line, with any whitespace around and between its fields, parses to
      what was rendered, the arguments cut to their first 31. */
  lemma RunLineReadsBack(
    host: Option<bytes>, rootfs: bytes, exec: bytes, args: seq<bytes>, gaps: seq<bytes>, last: bytes)
    requires NoWs(rootfs) && NoWs(exec) && (host.Some? ==> NoWs(host.value))
    requires forall i :: 0 <= i < |args| ==> NoWs(args[i])
    requires |gaps| == |RunTokens(host, rootfs, exec, args)| && AllWs(last)
    requires forall i :: 0 <= i < |gaps| ==> AllWs(gaps[i]) && (i > 0 ==> gaps[i] != [])
    ensures var line := Spread(RunTokens(host, rootfs, exec, args), gaps, last);
      Finish(TakeAll(NO_FIELDS, Tokens(line, 0))) ==
        Ok(Run(if host.Some? then ToCvec(host.value) else DEFAULT_HOST, ToCvec(rootfs),
               [ToCvec(exec)] + Clip(ToCvecs(args), 31)))
  {
    hide Spread, Tokens, TakeAll, SplitKv;
    var toks := RunTokens(host, rootfs, exec, args);
    var line := Spread(toks, gaps, last);
    forall i | 0 <= i < |toks|
      ensures IsToken(toks[i])
    {
    }
    TokensOfSpread([], toks, gaps, last);
    assert [] + line == line;
    var tail := [Field(EXEC_KEY, exec)] + ArgFields(args);
    var mid := (if host.Some? then [Field(HOST_KEY, host.value)] else []) + tail;
    assert toks == [RUN] + ([Field(ROOTFS_KEY, rootfs)] + mid);
    RunIsNoField();
    SplitField(ROOTFS_KEY, rootfs);
    SplitField(EXEC_KEY, exec);
    TakeOne(NO_FIELDS, RUN, [Field(ROOTFS_KEY, rootfs)] + mid);
    var f := Take(NO_FIELDS, RUN);
    TakeOne(f, Field(ROOTFS_KEY, rootfs), mid);
    f := Take(f, Field(ROOTFS_KEY, rootfs));
    if host.Some? {
      SplitField(HOST_KEY, host.value);
      TakeOne(f, Field(HOST_KEY, host.value), tail);
      f := Take(f, Field(HOST_KEY, host.value));
    } else {
      assert mid == tail;
    }
    TakeOne(f, Field(EXEC_KEY, exec), ArgFields(args));
    f := Take(f, Field(EXEC_KEY, exec));
    TakeArgs(f, args);
    assert [] + ToCvecs(args) == ToCvecs(args);
  }

  lemma RunIsNoField()
    ensures SplitKv(RUN) == (RUN, [])
  {
  }
}
