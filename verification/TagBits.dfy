/** The `u64` bitset of tags that both decoders keep. */
module TagBits {
  import opened Bytes

  /** `1u64 << tag`. */
  function Bit(tag: u16): bv64
    requires tag < 64
  {
    (1 as bv64) << (tag as bv7)
  }

  /** `seen & bit != 0`. */
  predicate Has(seen: bv64, bit: bv64) {
    seen & bit != 0
  }

  /** `seen | bit`. */
  function With(seen: bv64, bit: bv64): bv64 {
    seen | bit
  }

  /** The bitset holds exactly these tags. */
  ghost predicate Holds(seen: bv64, tags: set<u16>) {
    && (forall t :: t in tags ==> t < 64)
    && (forall t: u16 :: t < 64 ==> (Has(seen, Bit(t)) <==> t in tags))
  }

  lemma ShiftsDisjoint(t: bv7, u: bv7)
    requires t < 64 && u < 64 && t != u
    ensures ((1 as bv64) << t) & ((1 as bv64) << u) == 0
  {
  }

  lemma ShiftNonZero(t: bv7)
    requires t < 64
    ensures ((1 as bv64) << t) != 0
  {
  }

  lemma CastBack(t: int)
    requires 0 <= t < 64
    ensures (t as bv7) as int == t
  {
  }

  lemma CastSmall(t: int)
    requires 0 <= t < 64
    ensures t as bv7 < 64
  {
  }

  lemma CastApart(t: int, u: int)
    requires 0 <= t < 64 && 0 <= u < 64 && t != u
    ensures t as bv7 != u as bv7
  {
    CastBack(t);
    CastBack(u);
  }

  lemma BitsDisjoint(t: u16, u: u16)
    requires t < 64 && u < 64 && t != u
    ensures !Has(Bit(t), Bit(u))
  {
    CastApart(t, u);
    CastSmall(t);
    CastSmall(u);
    ShiftsDisjoint(t as bv7, u as bv7);
  }

  lemma BitNonZero(t: u16)
    requires t < 64
    ensures Bit(t) != 0
  {
    CastSmall(t);
    ShiftNonZero(t as bv7);
  }

  lemma OrSame(s: bv64, b: bv64)
    requires b != 0
    ensures Has(With(s, b), b)
  {
  }

  lemma OrOther(s: bv64, b: bv64, c: bv64)
    requires !Has(b, c)
    ensures Has(With(s, b), c) == Has(s, c)
  {
  }

  lemma NothingInZero(b: bv64)
    ensures !Has(0, b)
  {
  }

  lemma EmptyHolds()
    ensures Holds(0, {})
  {
    hide Bit, Has;
    forall t: u16 | t < 64 {
      NothingInZero(Bit(t));
    }
  }

  lemma BitAfterInsert(seen: bv64, tag: u16, t: u16)
    requires tag < 64 && t < 64
    ensures Has(With(seen, Bit(tag)), Bit(t)) <==> t == tag || Has(seen, Bit(t))
  {
    hide Bit, Has, With;
    if t != tag {
      BitsDisjoint(tag, t);
      OrOther(seen, Bit(tag), Bit(t));
    } else {
      BitNonZero(tag);
      OrSame(seen, Bit(tag));
    }
  }

  /** `seen |= bit` adds one tag and keeps the others. */
  lemma InsertHolds(seen: bv64, tags: set<u16>, tag: u16)
    requires Holds(seen, tags) && tag < 64
    ensures Holds(With(seen, Bit(tag)), tags + {tag})
  {
    hide Bit, Has, With;
    forall t: u16 | t < 64 {
      BitAfterInsert(seen, tag, t);
    }
  }
}
