/** Masked and read-only paths from the configuration to the calls of the init. */
module PathPipeline {
  import opened Bytes
  import opened Outcomes
  import opened Wire
  import opened KernelFormat
  import opened Setup
  import opened SetupProofs
  import opened SetupConfinement
  import A = AbiFormat
  import R = AbiRoundTrip
  import AbiProofs
  import KernelBounds

  /** A specification the kernel module has taken. */
  ghost predicate Taken(spec: A.DomainSpec, args: ContainerArgs) {
    && R.RustStrings(spec) && A.Encode(spec, A.Create).Ok?
    && CreateFromBlob(A.Encode(spec, A.Create).value) == Ok(args)
  }

  /** Of each list the kernel keeps the first 31. */
  lemma PathsArrive(spec: A.DomainSpec, args: ContainerArgs)
    requires Taken(spec, args)
    ensures args.masked == ToCvecs(Clip(spec.maskedPaths, 31))
    ensures args.readonly == ToCvecs(Clip(spec.readonlyPaths, 31))
  {
    hide A.Encode, CreateFromBlob, R.RustStrings;
    KernelBounds.KernelTakesEncoded(spec);
  }

  /** The masking stage tried to mask this path. */
  ghost predicate TriedToMask(args: ContainerArgs, answers: Answers, p: bytes) {
    exists n :: TriesToMask(args, answers, n, p)
  }

  predicate TriesToMask(args: ContainerArgs, answers: Answers, n: int, p: bytes) {
    && MaskStart(args, answers) <= n < ReadonlyStart(args, answers) && n < |Trace(args, false, answers)|
    && Trace(args, false, answers)[n].call == MaskCall(ToCvec(p))
  }

  function ReadonlyEnd(args: ContainerArgs, answers: Answers): nat {
    |Upto(Stages(args), 10, answers).0|
  }

  ghost predicate TriedToBind(args: ContainerArgs, answers: Answers, p: bytes) {
    exists n :: TriesToBind(args, answers, n, p)
  }

  predicate TriesToBind(args: ContainerArgs, answers: Answers, n: int, p: bytes) {
    && ReadonlyStart(args, answers) <= n < ReadonlyEnd(args, answers) && n < |Trace(args, false, answers)|
    && Trace(args, false, answers)[n].call == SelfBindCall(ToCvec(p))
  }

  lemma CvecInjective(p: bytes, q: bytes)
    requires ToCvec(p) == ToCvec(q)
    ensures p == q
  {
    assert ToCvec(p)[..|ToCvec(p)| - 1] == p && ToCvec(q)[..|ToCvec(q)| - 1] == q;
  }

  lemma MaskedCall(items: seq<bytes>, c: bytes)
    requires Planned(Each(MaskActs, items), MaskCall(c))
    ensures c in items
  {
    hide Each;
    var x :| x in Each(MaskActs, items) && Mentions(x, MaskCall(c));
    var i := EachFrom(MaskActs, items, x);
    MaskCallsOf(items[i], x, c);
  }

  lemma MaskCallsOf(m: bytes, x: Act, c: bytes)
    requires x in MaskActs(m) && Mentions(x, MaskCall(c))
    ensures c == m
  {
    hide DevNull;
  }

  lemma BoundCall(items: seq<bytes>, c: bytes)
    requires Planned(Each(ReadonlyActs, items), SelfBindCall(c))
    ensures c in items
  {
    hide Each;
    var x :| x in Each(ReadonlyActs, items) && Mentions(x, SelfBindCall(c));
    var i := EachFrom(ReadonlyActs, items, x);
  }

  lemma CvecMember(items: seq<bytes>, p: bytes)
    ensures ToCvec(p) in ToCvecs(items) <==> p in items
  {
    if ToCvec(p) in ToCvecs(items) {
      var i :| 0 <= i < |items| && ToCvecs(items)[i] == ToCvec(p);
      CvecInjective(p, items[i]);
    }
    if p in items {
      var i :| 0 <= i < |items| && items[i] == p;
      assert ToCvecs(items)[i] == ToCvec(p);
    }
  }

  lemma MaskTried(args: ContainerArgs, answers: Answers, p: bytes)
    requires Executed(Trace(args, false, answers)) && p != []
    ensures TriedToMask(args, answers, p) <==> ToCvec(p) in args.masked
  {
    hide Trace, Executed, Stages, Each, MaskActs, MaskCall, MaskElseCall, Upto, DevNull;
    var t := Trace(args, false, answers);
    if ToCvec(p) in args.masked {
      var i :| 0 <= i < |args.masked| && args.masked[i] == ToCvec(p);
      MaskAttempted(args, answers, i);
      MaskInStage(args, answers, i);
      assert TriesToMask(args, answers, |BeforeMask(args, answers, i)|, p);
    }
    if n :| TriesToMask(args, answers, n, p) {
      StagesMiddle(args);
      InOrder(args, answers, 8);
      var after := Upto(Stages(args), 9, answers).0;
      assert t[n] == after[n] && Planned(Each(MaskActs, args.masked), after[n].call);
      MaskedCall(args.masked, ToCvec(p));
    }
  }

  /** An init that execs tried to mask exactly the first 31 configured paths. */
  lemma FirstMasked(spec: A.DomainSpec, args: ContainerArgs, answers: Answers, p: bytes)
    requires Taken(spec, args) && Executed(Trace(args, false, answers)) && p != []
    ensures TriedToMask(args, answers, p) <==> p in Clip(spec.maskedPaths, 31)
  {
    hide Taken, Trace, Executed, TriedToMask;
    PathsArrive(spec, args);
    MaskTried(args, answers, p);
    CvecMember(Clip(spec.maskedPaths, 31), p);
  }

  lemma MaskInStage(args: ContainerArgs, answers: Answers, i: nat)
    requires Executed(Trace(args, false, answers)) && i < |args.masked| && |args.masked[i]| > 1
    ensures |BeforeMask(args, answers, i)| < ReadonlyStart(args, answers)
  {
    hide Play, Join, Stages, Each, MaskActs;
    StagesMiddle(args);
    WithinStage(args, answers, 8, MaskActs, args.masked, i);
    MaskPlays(args.masked[i], answers, BeforeMask(args, answers, i));
  }

  lemma ReadonlyTried(args: ContainerArgs, answers: Answers, p: bytes)
    requires Executed(Trace(args, false, answers)) && p != []
    ensures TriedToBind(args, answers, p) <==> ToCvec(p) in args.readonly
  {
    hide Trace, Executed, Stages, Each, ReadonlyActs, SelfBindCall, ReadonlyCall, Upto;
    var t := Trace(args, false, answers);
    if ToCvec(p) in args.readonly {
      var i :| 0 <= i < |args.readonly| && args.readonly[i] == ToCvec(p);
      ReadonlyAttempted(args, answers, i);
      ReadonlyInStage(args, answers, i);
      assert TriesToBind(args, answers, |BeforeReadonly(args, answers, i)|, p);
    }
    if n :| TriesToBind(args, answers, n, p) {
      StagesMiddle(args);
      InOrder(args, answers, 9);
      var after := Upto(Stages(args), 10, answers).0;
      assert t[n] == after[n] && Planned(Each(ReadonlyActs, args.readonly), after[n].call);
      BoundCall(args.readonly, ToCvec(p));
    }
  }

  /** And to make read-only exactly the first 31. */
  lemma FirstReadonly(spec: A.DomainSpec, args: ContainerArgs, answers: Answers, p: bytes)
    requires Taken(spec, args) && Executed(Trace(args, false, answers)) && p != []
    ensures TriedToBind(args, answers, p) <==> p in Clip(spec.readonlyPaths, 31)
  {
    hide Taken, Trace, Executed, TriedToBind;
    PathsArrive(spec, args);
    ReadonlyTried(args, answers, p);
    CvecMember(Clip(spec.readonlyPaths, 31), p);
  }

  lemma ReadonlyInStage(args: ContainerArgs, answers: Answers, i: nat)
    requires Executed(Trace(args, false, answers)) && i < |args.readonly| && |args.readonly[i]| > 1
    ensures |BeforeReadonly(args, answers, i)| < |Upto(Stages(args), 10, answers).0|
  {
    hide Play, Join, Stages, Each, ReadonlyActs;
    StagesMiddle(args);
    WithinStage(args, answers, 9, ReadonlyActs, args.readonly, i);
    ReadonlyPlays(args.readonly[i], answers, BeforeReadonly(args, answers, i));
  }

  /** Of distinct paths the `i`-th is tried if and only if `i` is below 31. */
  lemma MaskedIff(spec: A.DomainSpec, args: ContainerArgs, answers: Answers, i: nat)
    requires Taken(spec, args) && Executed(Trace(args, false, answers))
    requires i < |spec.maskedPaths| && spec.maskedPaths[i] != []
    requires forall j, k :: 0 <= j < k < |spec.maskedPaths| ==> spec.maskedPaths[j] != spec.maskedPaths[k]
    ensures TriedToMask(args, answers, spec.maskedPaths[i]) <==> i < 31
  {
    hide Taken, Trace, Executed, TriedToMask;
    var p, kept := spec.maskedPaths[i], Clip(spec.maskedPaths, 31);
    FirstMasked(spec, args, answers, p);
    if i < 31 {
      assert kept[i] == p;
    }
  }

  // ---------------------------------------------------------------- witness

  /** 32 distinct paths, "/A" and so on. */
  function ManyPaths(): (r: seq<bytes>)
    ensures |r| == 32 && forall i :: 0 <= i < 32 ==> |r[i]| == 2
  {
    seq(32, i requires 0 <= i < 32 => [0x2F, 0x41 + i])
  }

  function ManyMasked(): A.DomainSpec {
    A.DEFAULT.(rootfs := [0x2F], argv := [[0x61]], maskedPaths := ManyPaths())
  }

  lemma {:induction false} ConcatSize(parts: seq<bytes>, size: nat)
    requires forall i :: 0 <= i < |parts| ==> |parts[i]| == size
    ensures |Concat(parts)| == |parts| * size
  {
    if parts != [] {
      ConcatSize(parts[1..], size);
    }
  }

  lemma StringsSize(items: seq<bytes>, size: nat)
    requires forall i :: 0 <= i < |items| ==> |items[i]| == size
    ensures |A.PutList(A.PutString, items)| == 4 + |items| * (4 + size)
  {
    hide Le4;
    ConcatSize(A.Puts(A.PutString, items), 4 + size);
  }

  lemma OneSize(spec: A.DomainSpec, t: u16, size: nat)
    requires A.Present(spec, t) ==> |A.Payload(spec, t)| <= size
    ensures |Frame(A.EmitOne(spec, t))| <= 8 + size
  {
    hide A.Present, A.Payload;
    var one := A.EmitOne(spec, t);
    if one != [] {
      assert Frame(one) == Put(one[0]) + Frame([]);
    }
  }

  /** No more sections than tags, of limited size. */
  lemma {:induction false} EmitSize(spec: A.DomainSpec, tags: seq<u16>, size: nat)
    requires forall t: u16 :: A.Present(spec, t) ==> |A.Payload(spec, t)| <= size
    ensures |Frame(A.Emit(spec, tags))| <= Times(|tags|, 8 + size)
    decreases |tags|
  {
    hide A.Present, A.Payload, A.EmitOne, Frame;
    if tags == [] {
      NoFrame();
    } else {
      EmitSize(spec, tags[1..], size);
      OneSize(spec, tags[0], size);
      FrameAppend(A.EmitOne(spec, tags[0]), A.Emit(spec, tags[1..]));
    }
  }

  function Times(n: nat, k: nat): nat {
    if n == 0 then 0 else k + Times(n - 1, k)
  }

  lemma NoFrame()
    ensures Frame([]) == []
  {
  }

  /** 32 masked paths can be configured: the specification encodes and the kernel takes
      it. */
  lemma ManyMaskedTaken() returns (args: ContainerArgs)
    ensures Taken(ManyMasked(), args) && args.argv != []
    ensures forall i, j :: 0 <= i < j < 32 ==> ManyMasked().maskedPaths[i] != ManyMasked().maskedPaths[j]
  {
    var spec := ManyMasked();
    ManySize();
    ManyText();
    KernelBounds.KernelTakesEncoded(spec);
    args := CreateFromBlob(A.Encode(spec, A.Create).value).value;
    ManyDistinct();
  }

  lemma ManyDistinct()
    ensures forall i, j :: 0 <= i < j < 32 ==> ManyPaths()[i] != ManyPaths()[j]
  {
    assert forall i :: 0 <= i < 32 ==> ManyPaths()[i] == [0x2F, 0x41 + i];
  }

  lemma ManyText()
    ensures R.RustStrings(ManyMasked()) && R.ShortLists(ManyMasked()) && AbiProofs.Complete(A.Create, ManyMasked())
  {
    hide ValidUtf8;
    var spec := ManyMasked();
    assert R.Unbounded(spec) == ManyPaths();
    forall s | s in ManyPaths()
      ensures ValidUtf8(s)
    {
      R.AsciiIsUtf8(s);
    }
    R.AsciiIsUtf8([0x2F]);
    R.AsciiIsUtf8([0x61]);
    R.AsciiIsUtf8([]);
  }

  lemma ManyPayloads(t: u16)
    requires A.Present(ManyMasked(), t)
    ensures |A.Payload(ManyMasked(), t)| <= 200
  {
    hide A.PutList;
    StringsSize([[0x61]], 1);
    StringsSize(ManyPaths(), 2);
  }

  lemma ManySize()
    ensures A.Encode(ManyMasked(), A.Create).Ok? && |A.Encode(ManyMasked(), A.Create).value| <= MAX_SPEC
  {
    hide A.Emit, A.Present, A.Payload, A.Validate;
    var spec := ManyMasked();
    R.ValidateBounds(spec);
    forall t: u16 | A.Present(spec, t)
      ensures |A.Payload(spec, t)| <= 200
    {
      ManyPayloads(t);
    }
    EmitSize(spec, A.ORDER, 200);
    SeventeenTimes();
  }

  lemma SeventeenTimes()
    ensures Times(17, 208) == 3536
  {
    assert Times(5, 208) == 1040;
    assert Times(10, 208) == 2080;
    assert Times(15, 208) == 3120;
  }

  /** And then its 32nd masked path is never tried. */
  lemma LastMaskedDropped(args: ContainerArgs, answers: Answers)
    requires Taken(ManyMasked(), args) && Executed(Trace(args, false, answers))
    ensures !TriedToMask(args, answers, ManyMasked().maskedPaths[31])
  {
    hide Taken, Trace, Executed, TriedToMask;
    ManyDistinct();
    MaskedIff(ManyMasked(), args, answers, 31);
  }
}
