/** Mount options from the configuration to the mounts of the init: translated by the
    runtime, encoded, decoded by the kernel module, and mounted. */
module MountPipeline {
  import opened Bytes
  import opened Outcomes
  import opened TagBits
  import opened Words
  import opened MountOptions
  import opened KernelFormat
  import opened Setup
  import opened SetupProofs
  import opened MountTree
  import opened SetupRoot
  import opened SetupMounts
  import A = AbiFormat
  import R = AbiRoundTrip
  import KernelBounds

  /** A mount as configured. */
  datatype Configured = Configured(destination: bytes, typ: bytes, source: bytes, options: seq<string>)

  predicate AllListed(options: seq<string>) {
    forall i :: 0 <= i < |options| ==> Listed(options[i])
  }

  predicate AnyBind(options: seq<string>) {
    exists i :: 0 <= i < |options| && IsBind(options[i])
  }

  function Translated(m: Configured): A.Mount {
    A.Mount(m.destination, if AnyBind(m.options) then [] else m.typ, m.source, Number(Fold(m.options)))
  }

  /** One turn of the mounts loop of `config_to_spec`. */
  method TranslateMount(m: Configured) returns (r: Result<A.Mount, MountError>)
    ensures r.Ok? <==> AllListed(m.options)
    ensures r.Ok? ==> r.value == Translated(m)
  {
    hide Listed, IsBind, Fold, Number;
    var checked := CheckMountOptions(m.options);
    if checked.Err? {
      return Err(checked.error);
    }
    var flags, isBind := MountFlags(m.options);
    r := Ok(A.Mount(m.destination, if isBind then [] else m.typ, m.source, Number(flags)));
  }

  // ----------------------------------------------------- flags by their bits

  /** The bits that options set, besides those of "bind" and "remount". */
  predicate OptionNumber(k: u16) {
    k == RDONLY || k == NOSUID || k == NODEV || k == NOEXEC || k == SYNCHRONOUS || k == DIRSYNC || k == NOATIME
    || k == NODIRATIME || k == SILENT || k == RELATIME || k == I_VERSION || k == STRICTATIME || k == LAZYTIME
  }

  lemma Weights()
    ensures Pow2(0) == 0x1 && Pow2(1) == 0x2 && Pow2(2) == 0x4 && Pow2(3) == 0x8 && Pow2(4) == 0x10 && Pow2(5) == 0x20
    ensures Pow2(7) == 0x80 && Pow2(10) == 0x400 && Pow2(11) == 0x800 && Pow2(12) == 0x1000 && Pow2(14) == 0x4000
    ensures Pow2(15) == 0x8000 && Pow2(17) == 0x2_0000 && Pow2(18) == 0x4_0000 && Pow2(19) == 0x8_0000
    ensures Pow2(20) == 0x10_0000 && Pow2(21) == 0x20_0000 && Pow2(23) == 0x80_0000 && Pow2(24) == 0x100_0000
    ensures Pow2(25) == 0x200_0000
  {
    assert Pow2(6) == 0x40;
    assert Pow2(13) == 0x2000;
  }

  lemma OptionWeight(k: u16)
    requires OptionNumber(k)
    ensures k < 64 && OptionBit(Pow2(k))
  {
    hide Pow2;
    Weights();
  }

  /** A bit of translated flags is what the last option that mentions it says. */
  lemma FlagBit(options: seq<string>, k: u16, w: nat)
    requires k < 64 && w == Pow2(k)
    ensures BitSet(Number(Fold(options)), w) <==> LastWord(options, k)
  {
    hide Number, Fold, BitSet, BitOn, Pow2;
    LastWriterWins(options, k);
    NumberBit(Fold(options), k);
    BitOfWeight(Number(Fold(options)), w, k);
  }

  lemma NeverAsked(options: seq<string>, k: u16)
    requires k == 17 || k == 18 || k == 19 || k == 20
    ensures !LastWord(options, k)
  {
  }

  /** Without "remount" the flags mount something new. */
  lemma TranslatedPushes(options: seq<string>)
    ensures Pushes(Number(Fold(options))) <==> !LastWord(options, REMOUNT)
    ensures BitSet(Number(Fold(options)), Setup.MS_BIND) <==> LastWord(options, BIND)
  {
    hide Number, Fold, LastWord, Pow2, BitSet;
    Weights();
    FlagBit(options, REMOUNT, MS_REMOUNT);
    FlagBit(options, BIND, MS_BIND);
    FlagBit(options, 17, MS_UNBINDABLE);
    FlagBit(options, 18, MS_PRIVATE);
    FlagBit(options, 19, MS_SLAVE);
    FlagBit(options, 20, MS_SHARED);
    NeverAsked(options, 17);
    NeverAsked(options, 18);
    NeverAsked(options, 19);
    NeverAsked(options, 20);
  }

  lemma AnyBindAsks(options: seq<string>)
    ensures AnyBind(options) <==> LastWord(options, BIND)
  {
    hide IsBind;
    assert forall o :: !AsksOff(o, BIND);
    assert forall o :: AsksOn(o, BIND) <==> IsBind(o);
  }

  lemma RemountAsks(options: seq<string>)
    ensures "remount" in options <==> LastWord(options, REMOUNT)
  {
    assert forall o :: !AsksOff(o, REMOUNT);
    assert forall o :: AsksOn(o, REMOUNT) <==> o == "remount";
  }

  // ------------------------------------------------------------- end to end

  /** The configured mount, as the kernel module hands it to the init. */
  predicate Arrives(m: Configured, spec: A.DomainSpec, args: ContainerArgs, i: nat) {
    && i < |spec.mounts| && spec.mounts[i] == Translated(m)
    && i < |args.mounts| && args.mounts[i] == ToMountSpec(Translated(m))
  }

  lemma MountArrives(m: Configured, spec: A.DomainSpec, args: ContainerArgs, i: nat)
    requires R.RustStrings(spec) && A.Encode(spec, A.Create).Ok?
    requires CreateFromBlob(A.Encode(spec, A.Create).value) == Ok(args)
    requires i < |spec.mounts| && spec.mounts[i] == Translated(m)
    ensures |args.mounts| == |spec.mounts| && Arrives(m, spec, args, i)
  {
    hide A.Encode, CreateFromBlob, R.RustStrings, Translated;
    KernelBounds.KernelTakesEncoded(spec);
  }

  /** From the options in the configuration to exec: on a configured mount that arrived,
      is no remount, succeeded, and has nothing mounted on its place or above it later, an
      option is in force if and only if the last option that mentions it asks for it and
      no option makes the mount a bind. */
  lemma OptionsInForce(
    under: u64, m: Configured, spec: A.DomainSpec, args: ContainerArgs, answers: Answers, i: nat, k: u16)
    requires Arrives(m, spec, args, i) && Executed(Trace(args, false, answers))
    requires |args.mounts[i].destination| > 1 && Clear(args, i, PlaceOf(args.mounts[i].destination))
    requires PlaceOf(args.mounts[i].destination) != [] && answers(MountAt(args, answers, i)) == 0
    requires "remount" !in m.options && OptionNumber(k)
    ensures var q := PlaceOf(args.mounts[i].destination);
      var top := Lands(under, Trace(args, false, answers), q);
      && top.Some? && top.value.at == MountAt(args, answers, i) && Pow2(k) > 0
      && (BitSet(top.value.flags, Pow2(k)) <==> LastWord(m.options, k) && !AnyBind(m.options))
  {
    hide Trace, Executed, Layers, MountAt, Number, Fold, InForce, Pushes, LastWord, AnyBind, OptionNumber, PlaceOf;
    hide Clear;
    hide OptionsHold, BindWithOptions, BitSet, Pow2, OptionBit;
    TranslatedPushes(m.options);
    RemountAsks(m.options);
    AnyBindAsks(m.options);
    MountInForce(under, args, answers, i);
    OptionWeight(k);
    FlagBit(m.options, k, Pow2(k));
    InForceBit(Number(Fold(m.options)), Pow2(k));
  }
}
