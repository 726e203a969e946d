/** The `u64` words of the ABI by their bits. */
module Words {
  import opened Bytes
  import opened TagBits
  import KernelFormat

  function Pow2(k: nat): (p: nat)
    ensures p > 0
  {
    if k == 0 then 1 else 2 * Pow2(k - 1)
  }

  predicate BitOn(v: nat, k: nat) {
    v / Pow2(k) % 2 == 1
  }

  lemma DivUnique(x: nat, d: nat, q: nat, r: nat)
    requires d > 0 && x == d * q + r && r < d
    ensures x / d == q && x % d == r
  {
    var k, s := x / d, x % d;
    assert x == d * k + s;
    if k > q {
      DistinctMultiples(d, q, k);
      assert false;
    } else if k < q {
      DistinctMultiples(d, k, q);
      assert false;
    }
  }

  lemma DistinctMultiples(d: nat, q: nat, k: nat)
    requires q < k
    ensures d * k >= d * q + d
  {
    assert d * k == d * q + d * (k - q);
    assert d * (k - q) >= d by {
      assert k - q >= 1;
    }
  }

  /** Dividing by twice a number is halving first. */
  lemma HalveFirst(x: nat, p: nat)
    requires p > 0
    ensures x / (2 * p) == x / 2 / p
  {
    var h := x / 2;
    var q, r := h / p, h % p;
    assert h == p * q + r;
    var s := 2 * r + x % 2;
    assert x == 2 * h + x % 2;
    Doubled(p, q);
    DivUnique(x, 2 * p, q, s);
  }

  /** The bit of a weight that is a power of two. */
  lemma BitOfWeight(v: u64, w: nat, k: nat)
    requires w == Pow2(k)
    ensures KernelFormat.BitSet(v, w) <==> BitOn(v, k)
  {
  }

  lemma NextBit(v: nat, k: nat)
    requires k > 0
    ensures BitOn(v, k) <==> BitOn(v / 2, k - 1)
  {
    HalveFirst(v, Pow2(k - 1));
  }

  lemma LowBit(v: nat)
    ensures BitOn(v, 0) <==> v % 2 == 1
  {
    assert Pow2(0) == 1;
  }

  // ----------------------------------------------------------- truncation

  /** `v & (d - 1)` for a power of two. */
  function Remainder(v: nat, d: nat): (r: nat)
    requires d > 0
    ensures r < d
  {
    v % d
  }

  lemma HalveRemainder(v: nat, p: nat)
    requires p > 0
    ensures Remainder(v, 2 * p) / 2 == Remainder(v / 2, p)
    ensures Remainder(v, 2 * p) % 2 == v % 2
  {
    hide Remainder;
    var q := DivParts(v, 2 * p);
    HalveParts(v, p, q, Remainder(v, 2 * p));
  }

  lemma DivParts(v: nat, d: nat) returns (q: nat)
    requires d > 0
    ensures v == d * q + Remainder(v, d)
  {
    q := v / d;
  }

  lemma HalveParts(v: nat, p: nat, q: nat, r: nat)
    requires p > 0 && v == (2 * p) * q + r && r < 2 * p
    ensures r / 2 == Remainder(v / 2, p) && r % 2 == v % 2
  {
    Doubled(p, q);
    Halves(v, p * q, r, p);
    DivUnique(v / 2, p, q, r / 2);
  }

  lemma Halves(v: nat, m: nat, r: nat, p: nat)
    requires v == 2 * m + r && r < 2 * p
    ensures v % 2 == r % 2 && v / 2 == m + r / 2 && r / 2 < p
  {
  }

  lemma Doubled(p: nat, q: nat)
    ensures (2 * p) * q == 2 * (p * q)
  {
  }

  /** Keeping the low `m` bits keeps just those. */
  lemma {:induction false} LowBits(v: nat, m: nat, k: nat)
    ensures BitOn(Remainder(v, Pow2(m)), k) <==> k < m && BitOn(v, k)
  {
    hide BitOn;
    if m == 0 {
      ZeroBits(k);
    } else {
      HalveRemainder(v, Pow2(m - 1));
      if k == 0 {
        LowBit(v);
        LowBit(Remainder(v, Pow2(m)));
      } else {
        NextBit(Remainder(v, Pow2(m)), k);
        NextBit(v, k);
        LowBits(v / 2, m - 1, k - 1);
      }
    }
  }

  lemma ZeroBits(k: nat)
    ensures !BitOn(0, k)
  {
    DivUnique(0, Pow2(k), 0, 0);
  }

  // -------------------------------------------------------------- numbers

  /** The bits from the `i`-th on as a number. */
  function Value(b: bv64, i: nat): nat
    requires i <= 64
    decreases 64 - i
  {
    if i == 64 then 0 else (if Has(b, Bit(i)) then 1 else 0) + 2 * Value(b, i + 1)
  }

  lemma {:induction false} ValueBounded(b: bv64, i: nat)
    requires i <= 64
    ensures Value(b, i) < Pow2(64 - i)
    decreases 64 - i
  {
    hide Has, Bit;
    if i < 64 {
      ValueBounded(b, i + 1);
    }
  }

  lemma Pow2Of64()
    ensures Pow2(64) == 0x1_0000_0000_0000_0000
  {
    assert Pow2(8) == 0x100;
    assert Pow2(16) == 0x1_0000;
    assert Pow2(24) == 0x100_0000;
    assert Pow2(32) == 0x1_0000_0000;
    assert Pow2(40) == 0x100_0000_0000;
    assert Pow2(48) == 0x1_0000_0000_0000;
    assert Pow2(56) == 0x100_0000_0000_0000;
  }

  /** The number a word of bits is. */
  function Number(b: bv64): u64 {
    ValueBounded(b, 0);
    Pow2Of64();
    Value(b, 0)
  }

  lemma ValueHalves(b: bv64, i: nat)
    requires i < 64
    ensures Value(b, i) / 2 == Value(b, i + 1)
    ensures Value(b, i) % 2 == 1 <==> Has(b, Bit(i))
  {
    hide Has, Bit;
  }

  lemma {:induction false} ValueBit(b: bv64, i: nat, k: nat)
    requires i <= k < 64
    ensures BitOn(Value(b, i), k - i) <==> Has(b, Bit(k))
    decreases k - i
  {
    hide Has, Bit, BitOn, Value, Pow2;
    ValueHalves(b, i);
    if k == i {
      LowBit(Value(b, i));
    } else {
      NextBit(Value(b, i), k - i);
      ValueBit(b, i + 1, k);
    }
  }

  /** The bits of the number are the bits of the word. */
  lemma NumberBit(b: bv64, k: nat)
    requires k < 64
    ensures BitOn(Number(b), k) <==> Has(b, Bit(k))
  {
    ValueBit(b, 0, k);
  }

  /** And there is only one such number. */
  lemma {:induction false} SameBits(v: nat, w: nat, n: nat)
    requires v < Pow2(n) && w < Pow2(n) && forall k :: 0 <= k < n ==> (BitOn(v, k) <==> BitOn(w, k))
    ensures v == w
  {
    hide BitOn;
    if n > 0 {
      LowBit(v);
      LowBit(w);
      forall k | 0 <= k < n - 1
        ensures BitOn(v / 2, k) <==> BitOn(w / 2, k)
      {
        NextBit(v, k + 1);
        NextBit(w, k + 1);
        assert BitOn(v, k + 1) <==> BitOn(w, k + 1);
      }
      SameBits(v / 2, w / 2, n - 1);
    }
  }
}
