/** Capability names to the sets in force when the init executes. */
module Capabilities {
  import opened Bytes
  import opened Outcomes
  import opened TagBits
  import opened Words
  import opened KernelFormat
  import opened Setup
  import opened SetupProofs
  import A = AbiFormat
  import R = AbiRoundTrip
  import KernelBounds

  /** The highest capability the module builds against. */
  const CAP_LAST_CAP: nat := 40

  /** The numbers in the runtime's table. */
  type Cap = x: int | 0 <= x <= 40

  /** A capability name, by its number if it is in the table. */
  datatype Name = Known(bit: Cap) | Unlisted(text: bytes)

  datatype CapError = UnknownCapability(text: bytes)

  function BitsOf(names: seq<Name>): set<u16> {
    set i | 0 <= i < |names| && names[i].Known? :: names[i].bit
  }

  /** The word has exactly these bits. */
  ghost predicate HasBits(v: nat, caps: set<u16>) {
    forall k: u16 :: k < 64 ==> (BitOn(v, k) <==> k in caps)
  }

  /** `caps_to_mask`: the named bits; the first name that is not in the table is the
      error. */
  method CapsToMask(names: seq<Name>) returns (r: Result<u64, CapError>)
    ensures r.Ok? <==> forall i :: 0 <= i < |names| ==> names[i].Known?
    ensures r.Ok? ==> HasBits(r.value, BitsOf(names))
    ensures r.Err? ==>
      exists i :: 0 <= i < |names| && names[i] == Unlisted(r.error.text) && forall j :: 0 <= j < i ==> names[j].Known?
  {
    hide Holds, HasBits;
    var mask: bv64 := 0;
    EmptyHolds();
    assert BitsOf(names[..0]) == {};
    for i := 0 to |names|
      invariant forall j :: 0 <= j < i ==> names[j].Known?
      invariant Holds(mask, BitsOf(names[..i]))
    {
      if names[i].Unlisted? {
        return Err(UnknownCapability(names[i].text));
      }
      InsertHolds(mask, BitsOf(names[..i]), names[i].bit);
      assert BitsOf(names[..i + 1]) == BitsOf(names[..i]) + {names[i].bit};
      mask := With(mask, Bit(names[i].bit));
    }
    assert names[..|names|] == names;
    NumberHasBits(mask, BitsOf(names));
    r := Ok(Number(mask));
  }

  lemma NumberHasBits(mask: bv64, caps: set<u16>)
    requires Holds(mask, caps)
    ensures HasBits(Number(mask), caps)
  {
    hide BitOn, Number, Has, Bit;
    forall k: u16 | k < 64
      ensures BitOn(Number(mask), k) <==> k in caps
    {
      NumberBit(mask, k);
    }
  }

  // ------------------------------------------------------- the kernel side

  datatype Sets = Sets(bounding: nat, effective: nat, permitted: nat, inheritable: nat, ambient: nat)

  /** `v & ((1 << (CAP_LAST_CAP + 1)) - 1)`. */
  function Masked(v: u64): nat {
    Remainder(v, Pow2(CAP_LAST_CAP + 1))
  }

  /** The sets after `krunc_apply_creds` answered: replaced only when there are some and
      the new credentials could be made. */
  function Applied(before: Sets, caps: CapSets, rc: int): Sets {
    if !caps.present || rc != 0 then before else
    Sets(Masked(caps.bounding), Masked(caps.effective), Masked(caps.permitted),
         Masked(caps.inheritable), Masked(caps.ambient))
  }

  function UpTo40(caps: set<u16>): set<u16> {
    set k | k in caps && k <= 40
  }

  /** The kernel drops the bits above the last capability and no others. */
  lemma MaskedHolds(v: u64, caps: set<u16>)
    requires HasBits(v, caps)
    ensures HasBits(Masked(v), UpTo40(caps))
  {
    hide BitOn, Pow2, Remainder;
    forall k: u16 | k < 64
      ensures BitOn(Masked(v), k) <==> k in caps && k <= 40
    {
      LowBits(v, CAP_LAST_CAP + 1, k);
    }
  }

  lemma NamedHolds(v: u64, names: seq<Name>)
    requires HasBits(v, BitsOf(names))
    ensures HasBits(Masked(v), BitsOf(names))
  {
    hide HasBits, Masked;
    MaskedHolds(v, BitsOf(names));
    assert UpTo40(BitsOf(names)) == BitsOf(names);
  }

  datatype Lists = Lists(bounding: seq<Name>, effective: seq<Name>, permitted: seq<Name>, inheritable: seq<Name>,
    ambient: seq<Name>)

  /** Each set holds exactly the capabilities its list names. */
  ghost predicate Grants(s: Sets, l: Lists) {
    && HasBits(s.bounding, BitsOf(l.bounding)) && HasBits(s.effective, BitsOf(l.effective))
    && HasBits(s.permitted, BitsOf(l.permitted)) && HasBits(s.inheritable, BitsOf(l.inheritable))
    && HasBits(s.ambient, BitsOf(l.ambient))
  }

  /** The words of the specification are the masks of the lists. */
  ghost predicate Names(spec: A.DomainSpec, l: Lists) {
    && HasBits(spec.capBounding, BitsOf(l.bounding)) && HasBits(spec.capEffective, BitsOf(l.effective))
    && HasBits(spec.capPermitted, BitsOf(l.permitted)) && HasBits(spec.capInheritable, BitsOf(l.inheritable))
    && HasBits(spec.capAmbient, BitsOf(l.ambient))
  }

  lemma CommittedGrants(before: Sets, caps: CapSets, spec: A.DomainSpec, lists: Lists)
    requires Names(spec, lists) && caps.present
    requires caps.bounding == spec.capBounding && caps.effective == spec.capEffective
      && caps.permitted == spec.capPermitted
    requires caps.inheritable == spec.capInheritable && caps.ambient == spec.capAmbient
    ensures Grants(Applied(before, caps, 0), lists)
  {
    hide HasBits, Masked;
    NamedHolds(caps.bounding, lists.bounding);
    NamedHolds(caps.effective, lists.effective);
    NamedHolds(caps.permitted, lists.permitted);
    NamedHolds(caps.inheritable, lists.inheritable);
    NamedHolds(caps.ambient, lists.ambient);
  }

  /** From the names in the configuration to exec: the last call before it applies the
      credentials, and then each set holds exactly the named capabilities if and only if
      the call succeeded (or they happened to be held before). A configuration without
      capabilities changes nothing. */
  lemma NamedCapabilities(
    spec: A.DomainSpec, lists: Lists, args: ContainerArgs, answers: Answers, before: Sets)
    requires R.RustStrings(spec) && A.Encode(spec, A.Create).Ok?
    requires CreateFromBlob(A.Encode(spec, A.Create).value) == Ok(args)
    requires Names(spec, lists) && Executed(Trace(args, false, answers))
    ensures var t := Trace(args, false, answers);
      && |t| >= 2 && t[|t| - 2].call == CredsCall(args)
      && var after := Applied(before, args.caps, t[|t| - 2].rc);
         if spec.capsPresent then Grants(after, lists) <==> t[|t| - 2].rc == 0 || Grants(before, lists)
         else after == before
  {
    hide A.Encode, CreateFromBlob, R.RustStrings, Play, Join, Stages, Names, Grants, Masked;
    KernelBounds.KernelTakesEncoded(spec);
    PlanEnds(args, false, answers);
    PlayedExecs(args, answers);
    if spec.capsPresent {
      CommittedGrants(before, args.caps, spec, lists);
    }
  }

  /** The code does not look at that call's answer: a container can execute holding
      capabilities its configuration does not name. */
  lemma NamesNotHeld(spec: A.DomainSpec, lists: Lists, args: ContainerArgs, before: Sets) returns (answers: Answers)
    requires R.RustStrings(spec) && A.Encode(spec, A.Create).Ok?
    requires CreateFromBlob(A.Encode(spec, A.Create).value) == Ok(args)
    requires Names(spec, lists) && spec.capsPresent && !Grants(before, lists)
    ensures var t := Trace(args, false, answers);
      Executed(t) && |t| >= 2 && !Grants(Applied(before, args.caps, t[|t| - 2].rc), lists)
  {
    hide A.Encode, CreateFromBlob, R.RustStrings, Trace, Executed, Names, Grants, Masked;
    KernelBounds.KernelTakesEncoded(spec);
    answers := CredsCanFail(args, -12);
    NamedCapabilities(spec, lists, args, answers, before);
  }
}
