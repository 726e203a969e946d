/** What a `run` line asks for, token by token. */
module RunLine {
  import opened Bytes
  import opened Outcomes
  import opened KernelFormat
  import opened TextCommands

  /** The token is this key, alone or followed by "=" and a value. */
  predicate HasKey(tok: bytes, key: bytes) {
    key <= tok && (|tok| > |key| ==> tok[|key|] as char == '=')
  }

  function ValueAfter(tok: bytes, key: bytes): bytes
    requires HasKey(tok, key)
  {
    if |tok| == |key| then [] else tok[|key| + 1..]
  }

  /** The value of the last token with one of two keys. */
  function LastValue(toks: seq<bytes>, key: bytes, other: bytes): Option<bytes> {
    if toks == [] then None else
      var tok := toks[|toks| - 1];
      if HasKey(tok, key) then Some(ValueAfter(tok, key))
      else if HasKey(tok, other) then Some(ValueAfter(tok, other))
      else LastValue(toks[..|toks| - 1], key, other)
  }

  /** The values of the tokens with a key, in order. */
  function Values(toks: seq<bytes>, key: bytes): seq<bytes> {
    if toks == [] then [] else
      var tok := toks[|toks| - 1];
      Values(toks[..|toks| - 1], key) + (if HasKey(tok, key) then [ValueAfter(tok, key)] else [])
  }

  function Terminated(v: bytes): bytes {
    v + [0]
  }

  /** The first 31 of some values, each terminated. */
  function First31(vs: seq<bytes>): (r: seq<bytes>)
    ensures |r| == if |vs| <= 31 then |vs| else 31
  {
    seq(if |vs| <= 31 then |vs| else 31, i requires 0 <= i < |vs| => Terminated(vs[i]))
  }

  /** What is asked for: the last root file system and program, EINVAL without either; the
      last host name under either of its keys, "krunc" without; and the first 31
      arguments. Nothing else in the tokens matters. */
  function Asked(toks: seq<bytes>): Result<Run, Errno> {
    var rootfs := LastValue(toks, Ascii("rootfs"), Ascii("rootfs"));
    var exec := LastValue(toks, Ascii("exec"), Ascii("exec"));
    var host := LastValue(toks, Ascii("host"), Ascii("hostname"));
    if rootfs.None? || exec.None? then Err(EINVAL) else
    Ok(Run(
      Terminated(if host.Some? then host.value else Ascii("krunc")),
      Terminated(rootfs.value),
      [Terminated(exec.value)] + First31(Values(toks, Ascii("arg")))))
  }

  lemma Keys()
    ensures ROOTFS_KEY == Ascii("rootfs") && EXEC_KEY == Ascii("exec") && ARG_KEY == Ascii("arg")
    ensures HOST_KEY == Ascii("host") && HOSTNAME_KEY == Ascii("hostname")
    ensures DEFAULT_HOST == Terminated(Ascii("krunc"))
  {
  }

  /** Splitting at the first "=" finds the key that a token has. */
  lemma SplitHasKey(tok: bytes, key: bytes)
    requires 0x3D !in key
    ensures SplitKv(tok).0 == key <==> HasKey(tok, key)
    ensures HasKey(tok, key) ==> SplitKv(tok).1 == ValueAfter(tok, key)
  {
    var k := Find(tok, 0x3D, 0);
    if HasKey(tok, key) {
      assert forall i :: 0 <= i < |key| ==> tok[i] == key[i];
      assert k == |key|;
      assert tok[..k] == key;
    }
  }

  lemma PlainKeys()
    ensures 0x3D !in Ascii("rootfs") && 0x3D !in Ascii("exec") && 0x3D !in Ascii("arg")
    ensures 0x3D !in Ascii("host") && 0x3D !in Ascii("hostname")
  {
  }

  lemma {:induction false} TakeAllSnoc(f: Fields, toks: seq<bytes>, last: bytes)
    ensures TakeAll(f, toks + [last]) == Take(TakeAll(f, toks), last)
    decreases |toks|
  {
    hide Take;
    if toks == [] {
      assert toks + [last] == [last] && [last][1..] == [];
    } else {
      assert (toks + [last])[1..] == toks[1..] + [last];
      TakeAllSnoc(Take(f, toks[0]), toks[1..], last);
    }
  }

  function Mapped(v: Option<bytes>): Option<bytes> {
    if v.Some? then Some(Terminated(v.value)) else None
  }

  /** The fields after some tokens. */
  ghost predicate Collected(f: Fields, toks: seq<bytes>) {
    && f.rootfs == Mapped(LastValue(toks, Ascii("rootfs"), Ascii("rootfs")))
    && f.exec == Mapped(LastValue(toks, Ascii("exec"), Ascii("exec")))
    && f.host == Mapped(LastValue(toks, Ascii("host"), Ascii("hostname")))
    && f.args == First31(Values(toks, Ascii("arg")))
  }

  lemma CollectedMore(f: Fields, toks: seq<bytes>, last: bytes)
    requires Collected(f, toks)
    ensures Collected(Take(f, last), toks + [last])
  {
    hide Ascii, SplitKv, HasKey, ValueAfter;
    Keys();
    PlainKeys();
    KeysDiffer();
    SplitHasKey(last, Ascii("rootfs"));
    SplitHasKey(last, Ascii("exec"));
    SplitHasKey(last, Ascii("arg"));
    SplitHasKey(last, Ascii("host"));
    SplitHasKey(last, Ascii("hostname"));
    assert (toks + [last])[..|toks|] == toks;
  }

  lemma KeysDiffer()
    ensures Ascii("rootfs") != Ascii("exec") && Ascii("rootfs") != Ascii("arg")
    ensures Ascii("rootfs") != Ascii("host") && Ascii("rootfs") != Ascii("hostname")
    ensures Ascii("exec") != Ascii("arg") && Ascii("exec") != Ascii("host") && Ascii("exec") != Ascii("hostname")
    ensures Ascii("arg") != Ascii("host") && Ascii("arg") != Ascii("hostname") && Ascii("host") != Ascii("hostname")
  {
    assert Ascii("exec")[0] == 0x65 && Ascii("host")[0] == 0x68;
  }

  lemma {:induction false} Collects(toks: seq<bytes>)
    ensures Collected(TakeAll(NO_FIELDS, toks), toks)
    decreases |toks|
  {
    hide TakeAll, Take, Collected;
    if toks == [] {
      CollectedNone();
    } else {
      var n := |toks| - 1;
      Collects(toks[..n]);
      assert toks == toks[..n] + [toks[n]];
      TakeAllSnoc(NO_FIELDS, toks[..n], toks[n]);
      CollectedMore(TakeAll(NO_FIELDS, toks[..n]), toks[..n], toks[n]);
    }
  }

  lemma CollectedNone()
    ensures Collected(TakeAll(NO_FIELDS, []), [])
  {
  }

  /** Whatever tokens a line has, in any order and number, the parser's answer is what
      they ask for. */
  lemma AsksFor(toks: seq<bytes>)
    ensures Finish(TakeAll(NO_FIELDS, toks)) == Asked(toks)
  {
    hide TakeAll, LastValue, Values, Ascii;
    Collects(toks);
    Keys();
  }

  /** Non-empty words without whitespace, each after its own run of whitespace, and a last
      run: only before the first word and after the last one may it be empty. */
  ghost predicate Separated(toks: seq<bytes>, gaps: seq<bytes>, last: bytes) {
    && |gaps| == |toks| && AllWs(last)
    && (forall i :: 0 <= i < |toks| ==> IsToken(toks[i]) && AllWs(gaps[i]))
    && (forall i :: 0 < i < |toks| ==> gaps[i] != [])
  }

  /** Every line is so made up. */
  lemma LineIsSpread(line: bytes) returns (toks: seq<bytes>, gaps: seq<bytes>, last: bytes)
    ensures Separated(toks, gaps, last) && line == Spread(toks, gaps, last)
  {
    toks, gaps, last := SpreadFrom(line);
  }

  lemma {:induction false} SpreadFrom(line: bytes) returns (toks: seq<bytes>, gaps: seq<bytes>, last: bytes)
    ensures Separated(toks, gaps, last) && line == Spread(toks, gaps, last)
    ensures line != [] && !Space(line[0]) ==> toks != [] && gaps[0] == []
    ensures line != [] && Space(line[0]) && toks != [] ==> gaps[0] != []
    decreases |line|
  {
    var start := FirstNot(line, false);
    if start == |line| {
      toks, gaps, last := [], [], line;
    } else {
      var rest := line[start..];
      var size := FirstNot(rest, true);
      var ts, gs, l := SpreadFrom(rest[size..]);
      var tok, gap := rest[..size], line[..start];
      toks, gaps, last := [tok] + ts, [gap] + gs, l;
      assert toks[1..] == ts && gaps[1..] == gs;
      assert line == gap + tok + rest[size..];
      if ts != [] {
        assert rest[size..] != [] by {
          assert Spread(ts, gs, l) == gs[0] + ts[0] + Spread(ts[1..], gs[1..], l);
        }
        assert Space(rest[size..][0]);
      }
    }
  }

  /** How far the bytes go on to be whitespace, or to be none. */
  lemma {:induction false} FirstNot(s: bytes, word: bool) returns (k: nat)
    ensures k <= |s| && (k < |s| ==> Space(s[k]) == word)
    ensures if word then NoWs(s[..k]) else AllWs(s[..k])
    ensures s != [] && Space(s[0]) != word ==> k > 0
    ensures s != [] && Space(s[0]) == word ==> k == 0
    decreases |s|
  {
    if s == [] || Space(s[0]) == word {
      k := 0;
    } else {
      k := FirstNot(s[1..], word);
      k := k + 1;
      assert s[..k] == [s[0]] + s[1..][..k - 1];
    }
  }

  /** So a line is answered as its words ask, however they are spaced. */
  lemma LineAsksFor(line: bytes, toks: seq<bytes>, gaps: seq<bytes>, last: bytes)
    requires Separated(toks, gaps, last) && line == Spread(toks, gaps, last)
    ensures Finish(TakeAll(NO_FIELDS, Tokens(line, 0))) == Asked(toks)
  {
    hide Tokens, TakeAll, Finish, Asked, Spread;
    TokensOfSpread([], toks, gaps, last);
    assert [] + line == line;
    AsksFor(toks);
  }
}
