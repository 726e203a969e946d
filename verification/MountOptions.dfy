/** The runtime's screening of mount options and their fold into `MS_*` flags. */
module MountOptions {
  import opened Bytes
  import opened Outcomes
  import opened TagBits

  datatype MountError = UnsupportedOption(text: string)

  /** The `MS_*` flags by bit number. */
  const RDONLY: u16 := 0
  const NOSUID: u16 := 1
  const NODEV: u16 := 2
  const NOEXEC: u16 := 3
  const SYNCHRONOUS: u16 := 4
  const REMOUNT: u16 := 5
  const DIRSYNC: u16 := 7
  const NOATIME: u16 := 10
  const NODIRATIME: u16 := 11
  const BIND: u16 := 12
  const REC: u16 := 14
  const SILENT: u16 := 15
  const RELATIME: u16 := 21
  const I_VERSION: u16 := 23
  const STRICTATIME: u16 := 24
  const LAZYTIME: u16 := 25

  function Without(flags: bv64, bit: bv64): bv64 {
    flags & !bit
  }

  /** What a branch of the fold does to the flags. */
  datatype Change = Keep | On(bit: u16) | Off(bit: u16) | OnBind(recursive: bool)

  /** The branch an option takes in `mount_flags`, its first match; None is the
      catch-all. */
  function Branch(o: string): Option<Change> {
    if o == "defaults" then Some(Keep) else
    if o == "ro" then Some(On(RDONLY)) else
    if o == "rw" then Some(Off(RDONLY)) else
    if o == "nosuid" then Some(On(NOSUID)) else
    if o == "suid" then Some(Off(NOSUID)) else
    if o == "nodev" then Some(On(NODEV)) else
    if o == "dev" then Some(Off(NODEV)) else
    if o == "noexec" then Some(On(NOEXEC)) else
    if o == "exec" then Some(Off(NOEXEC)) else
    if o == "sync" then Some(On(SYNCHRONOUS)) else
    if o == "async" then Some(Off(SYNCHRONOUS)) else
    if o == "dirsync" then Some(On(DIRSYNC)) else
    if o == "remount" then Some(On(REMOUNT)) else
    if o == "noatime" then Some(On(NOATIME)) else
    if o == "atime" then Some(Off(NOATIME)) else
    if o == "nodiratime" then Some(On(NODIRATIME)) else
    if o == "diratime" then Some(Off(NODIRATIME)) else
    if o == "relatime" then Some(On(RELATIME)) else
    if o == "norelatime" then Some(Off(RELATIME)) else
    if o == "strictatime" then Some(On(STRICTATIME)) else
    if o == "nostrictatime" then Some(Off(STRICTATIME)) else
    if o == "lazytime" then Some(On(LAZYTIME)) else
    if o == "nolazytime" then Some(Off(LAZYTIME)) else
    if o == "iversion" then Some(On(I_VERSION)) else
    if o == "noiversion" then Some(Off(I_VERSION)) else
    if o == "loud" then Some(Off(SILENT)) else
    if o == "bind" then Some(OnBind(false)) else
    if o == "rbind" then Some(OnBind(true)) else
    None
  }

  /** The options `check_mount_options` lets through. */
  predicate Listed(o: string) {
    || o == "defaults" || o == "ro" || o == "rw" || o == "nosuid" || o == "suid" || o == "nodev" || o == "dev"
    || o == "noexec" || o == "exec" || o == "sync" || o == "async" || o == "dirsync" || o == "remount"
    || o == "noatime" || o == "atime" || o == "nodiratime" || o == "diratime" || o == "relatime"
    || o == "norelatime" || o == "strictatime" || o == "nostrictatime" || o == "lazytime" || o == "nolazytime"
    || o == "iversion" || o == "noiversion" || o == "loud" || o == "bind" || o == "rbind"
  }

  function Apply(flags: bv64, o: string): bv64 {
    match Branch(o)
    case None => flags
    case Some(Keep) => flags
    case Some(On(bit)) => if bit < 64 then With(flags, Bit(bit)) else flags
    case Some(Off(bit)) => if bit < 64 then Without(flags, Bit(bit)) else flags
    case Some(OnBind(recursive)) =>
      if recursive then With(With(flags, Bit(BIND)), Bit(REC)) else With(flags, Bit(BIND))
  }

  function Fold(options: seq<string>): bv64 {
    if options == [] then 0 else Apply(Fold(options[..|options| - 1]), options[|options| - 1])
  }

  predicate IsBind(o: string) {
    o == "bind" || o == "rbind"
  }

  /** `mount_flags`. */
  method MountFlags(options: seq<string>) returns (flags: bv64, isBind: bool)
    ensures flags == Fold(options)
    ensures isBind <==> exists i :: 0 <= i < |options| && IsBind(options[i])
  {
    hide Apply, IsBind, Branch;
    flags := 0;
    isBind := false;
    for i := 0 to |options|
      invariant flags == Fold(options[..i])
      invariant isBind <==> exists j :: 0 <= j < i && IsBind(options[j])
    {
      assert options[..i + 1][..i] == options[..i];
      flags := Apply(flags, options[i]);
      BindBranch(options[i]);
      var branch := Branch(options[i]);
      if branch.Some? && branch.value.OnBind? {
        isBind := true;
      }
    }
    assert options[..|options|] == options;
  }

  lemma BindBranch(o: string)
    ensures IsBind(o) <==> Branch(o).Some? && Branch(o).value.OnBind?
  {
  }

  /** `check_mount_options`: the first option it does not list is the error. */
  method CheckMountOptions(options: seq<string>) returns (r: Result<(), MountError>)
    ensures r.Ok? <==> forall i :: 0 <= i < |options| ==> Listed(options[i])
    ensures r.Err? ==> exists i ::
      && 0 <= i < |options| && r.error == UnsupportedOption(options[i]) && !Listed(options[i])
      && forall j :: 0 <= j < i ==> Listed(options[j])
  {
    hide Listed;
    for i := 0 to |options|
      invariant forall j :: 0 <= j < i ==> Listed(options[j])
    {
      if !Listed(options[i]) {
        return Err(UnsupportedOption(options[i]));
      }
    }
    r := Ok(());
  }

  /** The two tables agree: an option takes the catch-all exactly if it is not listed. */
  lemma TablesAgree(o: string)
    ensures Listed(o) <==> Branch(o).Some?
  {
  }

  // --------------------------------------------------- what options mean

  /** The options that ask for a flag, by its bit number. */
  predicate AsksOn(o: string, bit: u16) {
    || (bit == 0 && o == "ro") || (bit == 1 && o == "nosuid") || (bit == 2 && o == "nodev")
    || (bit == 3 && o == "noexec") || (bit == 4 && o == "sync") || (bit == 5 && o == "remount")
    || (bit == 7 && o == "dirsync") || (bit == 10 && o == "noatime")
    || (bit == 11 && o == "nodiratime") || (bit == 12 && IsBind(o)) || (bit == 14 && o == "rbind")
    || (bit == 21 && o == "relatime") || (bit == 23 && o == "iversion")
    || (bit == 24 && o == "strictatime") || (bit == 25 && o == "lazytime")
  }

  /** The options that ask for its absence; there are none for the flags of "remount",
      "dirsync", "bind" and "rbind". */
  predicate AsksOff(o: string, bit: u16) {
    || (bit == 0 && o == "rw") || (bit == 1 && o == "suid") || (bit == 2 && o == "dev")
    || (bit == 3 && o == "exec") || (bit == 4 && o == "async") || (bit == 10 && o == "atime")
    || (bit == 11 && o == "diratime") || (bit == 15 && o == "loud") || (bit == 21 && o == "norelatime")
    || (bit == 23 && o == "noiversion") || (bit == 24 && o == "nostrictatime")
    || (bit == 25 && o == "nolazytime")
  }

  /** An option is let through exactly if it asks for something, or is "defaults". */
  lemma ListedIff(o: string)
    ensures Listed(o) <==> o == "defaults" || exists bit: u16 :: AsksOn(o, bit) || AsksOff(o, bit)
  {
    if bit: u16 :| AsksOn(o, bit) || AsksOff(o, bit) {
      BranchAsksOn(o, bit);
      BranchAsksOff(o, bit);
      TablesAgree(o);
    }
    if Listed(o) && o != "defaults" {
      TablesAgree(o);
      match Branch(o) {
        case Some(On(bit)) => BranchAsksOn(o, bit);
        case Some(Off(bit)) => BranchAsksOff(o, bit);
        case Some(OnBind(_)) => BranchAsksOn(o, BIND);
        case Some(Keep) => KeepIsDefaults(o);
      }
    }
  }

  lemma KeepIsDefaults(o: string)
    requires Branch(o) == Some(Keep)
    ensures o == "defaults"
  {
  }

  lemma BranchAsksOn(o: string, bit: u16)
    ensures AsksOn(o, bit) <==>
      || Branch(o) == Some(On(bit)) || (Branch(o) == Some(OnBind(false)) && bit == BIND)
      || (Branch(o) == Some(OnBind(true)) && (bit == BIND || bit == REC))
  {
  }

  lemma BranchAsksOff(o: string, bit: u16)
    ensures AsksOff(o, bit) <==> Branch(o) == Some(Off(bit))
  {
  }

  lemma BranchBits(o: string)
    ensures Branch(o).Some? && (Branch(o).value.On? || Branch(o).value.Off?) ==> Branch(o).value.bit < 64
  {
  }

  lemma AndNotSame(s: bv64, b: bv64)
    ensures !Has(Without(s, b), b)
  {
  }

  lemma AndNotOther(s: bv64, b: bv64, c: bv64)
    requires !Has(b, c)
    ensures Has(Without(s, b), c) == Has(s, c)
  {
  }

  lemma BitAfterRemove(flags: bv64, cleared: u16, bit: u16)
    requires cleared < 64 && bit < 64
    ensures Has(Without(flags, Bit(cleared)), Bit(bit)) <==> bit != cleared && Has(flags, Bit(bit))
  {
    hide Bit, Has, Without;
    if bit != cleared {
      BitsDisjoint(cleared, bit);
      AndNotOther(flags, Bit(cleared), Bit(bit));
    } else {
      AndNotSame(flags, Bit(bit));
    }
  }

  lemma ApplyBit(flags: bv64, o: string, bit: u16)
    requires bit < 64
    ensures Has(Apply(flags, o), Bit(bit)) <==> AsksOn(o, bit) || (Has(flags, Bit(bit)) && !AsksOff(o, bit))
  {
    hide Bit, Has, With, Without, Branch, AsksOn, AsksOff;
    BranchAsksOn(o, bit);
    BranchAsksOff(o, bit);
    BranchBits(o);
    match Branch(o)
    case Some(On(b)) => BitAfterInsert(flags, b, bit);
    case Some(Off(b)) => BitAfterRemove(flags, b, bit);
    case Some(OnBind(_)) =>
      BitAfterInsert(flags, BIND, bit);
      BitAfterInsert(With(flags, Bit(BIND)), REC, bit);
    case _ =>
  }

  /** Some option asks for the flag and none after it asks for its absence. */
  ghost predicate LastWord(options: seq<string>, bit: u16) {
    exists i :: 0 <= i < |options| && AsksOn(options[i], bit)
      && forall j :: i < j < |options| ==> !AsksOff(options[j], bit)
  }

  lemma LastWordStep(options: seq<string>, bit: u16)
    requires options != []
    ensures var (before, o) := (options[..|options| - 1], options[|options| - 1]);
      LastWord(options, bit) <==> AsksOn(o, bit) || (LastWord(before, bit) && !AsksOff(o, bit))
  {
    hide AsksOn, AsksOff;
    var n := |options| - 1;
    var before := options[..n];
    assert forall i :: 0 <= i < n ==> before[i] == options[i];
    if LastWord(before, bit) && !AsksOff(options[n], bit) {
      var i :| 0 <= i < n && AsksOn(before[i], bit) && forall j :: i < j < n ==> !AsksOff(before[j], bit);
      assert AsksOn(options[i], bit);
    }
    if AsksOn(options[n], bit) {
      assert LastWord(options, bit);
    }
    if LastWord(options, bit) && !AsksOn(options[n], bit) {
      var i :| 0 <= i < |options| && AsksOn(options[i], bit)
        && forall j :: i < j < |options| ==> !AsksOff(options[j], bit);
      assert AsksOn(before[i], bit);
    }
  }

  /** The last option that mentions a flag decides it, for each of the 64 bits. */
  lemma {:induction false} LastWriterWins(options: seq<string>, bit: u16)
    requires bit < 64
    ensures Has(Fold(options), Bit(bit)) <==> LastWord(options, bit)
  {
    hide Bit, Has, Apply, AsksOn, AsksOff;
    if options == [] {
      NothingInZero(Bit(bit));
    } else {
      LastWriterWins(options[..|options| - 1], bit);
      LastWordStep(options, bit);
      ApplyBit(Fold(options[..|options| - 1]), options[|options| - 1], bit);
    }
  }

  /** The bind flag is set exactly for a bind, the recursive one exactly for "rbind",
      and the silent one never. */
  lemma BindFlags(options: seq<string>)
    ensures Has(Fold(options), Bit(BIND)) <==> exists i :: 0 <= i < |options| && IsBind(options[i])
    ensures Has(Fold(options), Bit(REC)) <==> exists i :: 0 <= i < |options| && options[i] == "rbind"
    ensures !Has(Fold(options), Bit(SILENT))
  {
    hide Bit, Has, Fold;
    LastWriterWins(options, BIND);
    LastWriterWins(options, REC);
    LastWriterWins(options, SILENT);
  }
}
