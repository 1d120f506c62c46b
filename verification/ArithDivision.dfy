/** The arithmetic behind one turn of long division. */
module ArithDivision {
  import opened Bits
  import opened Limbs
  import opened ArithSteps

  /** Bits of the quotient below this one are still clear. */
  predicate Clear(s: seq<Limb>, q: nat, r: nat) {
    q < |s| && (forall j | 0 <= j < q :: s[j] == 0) && s[q] % Pow2(r) == 0
  }

  predicate Balanced(quotient: nat, num: nat, d: nat, v: nat) {
    num + quotient * d == v
  }

  /** Before the turn for bit number shift. */
  predicate Pending(s: seq<Limb>, num: nat, div: nat, shift: nat, d: nat, v: nat) {
    && Clear(s, shift / 32, shift % 32 + 1) && Balanced(Val(s), num, d, v)
    && div == d * Pow2(shift) && num < 2 * div
  }

  /** After it. */
  predicate Settled(s: seq<Limb>, num: nat, div: nat, shift: nat, d: nat, v: nat) {
    && Clear(s, shift / 32, shift % 32) && Balanced(Val(s), num, d, v)
    && div == d * Pow2(shift) && num < div
  }

  predicate Finished(s: seq<Limb>, num: nat, d: nat, v: nat) {
    Balanced(Val(s), num, d, v) && num < d
  }

  lemma Doubled(x: nat, p: nat, e: nat, base: nat)
    requires p > 0 && x % (2 * p) == 0 && x < base && base == (2 * p) * e
    ensures x % p == 0 && (x + p) % p == 0 && x + 2 * p <= base
  {
    var q := x / (2 * p);
    assert x == (2 * p) * q;
    assert (2 * p) * q == p * (2 * q);
    ModZero(p, 2 * q);
    assert p * (2 * q) + p == p * (2 * q + 1);
    ModZero(p, 2 * q + 1);
    if q >= e { MulMono(2 * p, e, q); }
    MulMono(2 * p, q + 1, e);
    assert (2 * p) * (q + 1) == (2 * p) * q + 2 * p;
  }

  lemma BitFree(x: Limb, r: nat)
    requires r < 32 && x % Pow2(r + 1) == 0
    ensures Or(x, Pow2(r)) == x + Pow2(r) < BASE
    ensures x % Pow2(r) == 0 && (x + Pow2(r)) % Pow2(r) == 0
  {
    OrIsSum(x, Pow2(r), r + 1);
    Pow2Add(r + 1, 31 - r);
    Pow32();
    Doubled(x, Pow2(r), Pow2(31 - r), BASE);
  }

  /** The weight of bit r of limb q. */
  lemma PlaceOf(q: nat, r: nat)
    ensures Pow2(r) * P(q) == Pow2(32 * q + r)
  {
    PIsPow2(q);
    Pow2Add(32 * q, r);
    assert Pow2(r) * P(q) == P(q) * Pow2(r);
  }

  lemma BitValue(s: seq<Limb>, q: nat, r: nat, x: Limb, p: nat)
    requires q < |s| && p == Pow2(r) && x == s[q] + p
    ensures Val(s[q := x]) == Val(s) + Pow2(32 * q + r)
  {
    ValUpdate(s, q, x);
    Distribute3(s[q], p, P(q));
    PlaceOf(q, r);
  }

  lemma SetBalanced(val: nat, p: nat, num: nat, div: nat, d: nat, v: nat)
    requires Balanced(val, num, d, v) && div == d * p && num >= div
    ensures Balanced(val + p, num - div, d, v)
  {
    Distribute3(val, p, d);
    assert p * d == d * p;
  }

  lemma BitSet(s: seq<Limb>, shift: nat, num: nat, div: nat, d: nat, v: nat)
    requires Pending(s, num, div, shift, d, v) && num >= div && s[shift / 32] + Pow2(shift % 32) < BASE
    ensures Settled(s[shift / 32 := s[shift / 32] + Pow2(shift % 32)], num - div, div, shift, d, v)
  {
    var q, r := shift / 32, shift % 32;
    BitFree(s[q], r);
    BitValue(s, q, r, s[q] + Pow2(r), Pow2(r));
    SetBalanced(Val(s), Pow2(shift), num, div, d, v);
  }

  lemma BitClear(s: seq<Limb>, shift: nat, num: nat, div: nat, d: nat, v: nat)
    requires Pending(s, num, div, shift, d, v) && num < div
    ensures Settled(s, num, div, shift, d, v)
  {
    BitFree(s[shift / 32], shift % 32);
  }

  lemma Halved(d: nat, shift: nat)
    requires shift > 0
    ensures d * Pow2(shift) == 2 * (d * Pow2(shift - 1)) && (d * Pow2(shift)) / Pow2(1) == d * Pow2(shift - 1)
  {
    assert d * (2 * Pow2(shift - 1)) == 2 * (d * Pow2(shift - 1));
    assert Pow2(1) == 2;
  }

  lemma NextPlace(s: seq<Limb>, shift: nat)
    requires shift > 0 && Clear(s, shift / 32, shift % 32)
    ensures Clear(s, (shift - 1) / 32, (shift - 1) % 32 + 1)
  {
    if shift % 32 == 0 {
      assert (shift - 1) / 32 == shift / 32 - 1 && (shift - 1) % 32 == 31;
      ModZero(Pow2(32), 0);
    } else {
      assert (shift - 1) / 32 == shift / 32 && (shift - 1) % 32 == shift % 32 - 1;
    }
  }

  lemma NextBit(s: seq<Limb>, num: nat, div: nat, half: nat, shift: nat, d: nat, v: nat)
    requires Settled(s, num, div, shift, d, v) && half == div / Pow2(1)
    ensures shift > 0 ==> Pending(s, num, half, shift - 1, d, v)
    ensures shift == 0 ==> Finished(s, num, d, v)
  {
    if shift > 0 {
      Halved(d, shift);
      NextPlace(s, shift);
    }
  }

  lemma FloorFound(s: seq<Limb>, num: nat, d: nat, v: nat)
    requires Finished(s, num, d, v)
    ensures Val(s) == v / d && num == v % d
  {
    assert Val(s) * d == d * Val(s);
    DivUnique(v, d, Val(s), num);
  }

  /** The aligning shift loses no bit, and reaches beyond half of the numerator. */
  lemma Aligned(v: nat, d: nat, vBits: nat, dBits: nat, w: nat)
    requires IsBitCount(v, vBits) && IsBitCount(d, dBits) && 0 < dBits <= vBits <= 32 * w
    ensures var div := d * Pow2(vBits - dBits); 0 <= div && div % P(w) == div && v < 2 * div
  {
    var shift := vBits - dBits;
    Pow2Add(dBits, shift);
    PIsPow2(w);
    Pow2Mono(vBits, 32 * w);
    AlignArith(v, d, Pow2(dBits - 1), Pow2(dBits), Pow2(shift), P(w));
  }

  lemma AlignArith(v: nat, d: nat, lo: nat, hi: nat, p: nat, m: nat)
    requires lo <= d < hi && hi == 2 * lo && p > 0 && v < hi * p <= m
    ensures 0 <= d * p && (d * p) % m == d * p && v < 2 * (d * p)
  {
    Less(d, hi, p);
    MulMono(p, lo, d);
    assert hi * p == 2 * (p * lo);
    DivUnique(d * p, m, 0, d * p);
  }

  lemma Less(a: nat, b: nat, p: nat)
    requires a < b && p > 0
    ensures 0 <= a * p < b * p
  {
    MulMono(p, a + 1, b);
    assert p * (a + 1) == a * p + p;
  }

  lemma DivideStarts(s: seq<Limb>, v: nat, d: nat, div: nat, shift: nat)
    requires (forall j | 0 <= j < |s| :: s[j] == 0) && shift < 32 * |s| && div == d * Pow2(shift) && v < 2 * div
    ensures Pending(s, v, div, shift, d, v)
  {
    ValZero(s);
    assert Val(s) * d == 0;
    ModZero(Pow2(shift % 32 + 1), 0);
  }
}
