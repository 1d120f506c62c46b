/** Powers of two and bitwise operators on natural numbers. */
module Bits {

  function Pow2(n: nat): (r: nat)
    ensures r > 0
  {
    if n == 0 then 1 else 2 * Pow2(n - 1)
  }

  lemma {:induction false} Pow2Add(a: nat, b: nat)
    ensures Pow2(a + b) == Pow2(a) * Pow2(b)
  {
    if a > 0 {
      Pow2Add(a - 1, b);
      assert Pow2(a) * Pow2(b) == 2 * (Pow2(a - 1) * Pow2(b));
    }
  }

  lemma {:induction false} Pow2Mono(a: nat, b: nat)
    requires a <= b
    ensures Pow2(a) <= Pow2(b)
    ensures a < b ==> 2 * Pow2(a) <= Pow2(b)
  {
    if a < b { Pow2Mono(a, b - 1); }
  }

  /** Bit number k of x. */
  function Bit(x: nat, k: nat): nat {
    if k == 0 then x % 2 else Bit(x / 2, k - 1)
  }

  function Or(x: nat, y: nat): nat {
    if x == 0 && y == 0 then 0
    else 2 * Or(x / 2, y / 2) + if x % 2 == 1 || y % 2 == 1 then 1 else 0
  }

  function And(x: nat, y: nat): nat {
    if x == 0 || y == 0 then 0
    else 2 * And(x / 2, y / 2) + if x % 2 == 1 && y % 2 == 1 then 1 else 0
  }

  lemma {:induction false} OrZero(x: nat)
    ensures Or(x, 0) == x && Or(0, x) == x
  {
    if x > 0 { OrZero(x / 2); }
  }

  /** Numbers without a common bit are joined by adding them. */
  lemma {:induction false} OrIsSum(x: nat, y: nat, k: nat)
    requires x % Pow2(k) == 0 && y < Pow2(k)
    ensures Or(x, y) == x + y && Or(y, x) == x + y
  {
    if k == 0 {
      OrZero(x);
    } else {
      HalfMultiple(x, k);
      OrIsSum(x / 2, y / 2, k - 1);
    }
  }

  lemma HalfMultiple(x: nat, k: nat)
    requires k > 0 && x % Pow2(k) == 0
    ensures x % 2 == 0 && (x / 2) % Pow2(k - 1) == 0
  {
    var p, q := Pow2(k - 1), x / Pow2(k);
    assert x == 2 * (p * q);
    assert x / 2 == p * q;
    ModZero(p, q);
  }

  lemma ModZero(p: nat, q: nat)
    requires p > 0
    ensures (p * q) % p == 0 && (q * p) % p == 0
  {
    DivUnique(p * q, p, q, 0);
  }

  lemma NoMultiple(d: int, z: int)
    requires d > 0 && -d < d * z < d
    ensures z == 0
  {
    if z > 0 {
      MulMono(d, 1, z);
    } else if z < 0 {
      MulMono(d, z, -1);
    }
  }

  lemma MulMono(d: int, a: int, b: int)
    requires d >= 0 && a <= b
    ensures d * a <= d * b
  {
  }

  lemma DivUnique(x: int, d: int, q: int, r: int)
    requires d > 0 && x == d * q + r && 0 <= r < d
    ensures x / d == q && x % d == r
  {
    var q', r' := x / d, x % d;
    Difference(d, q, q', r, r');
    NoMultiple(d, q - q');
  }

  lemma Difference(d: int, q: int, q': int, r: int, r': int)
    requires d * q + r == d * q' + r'
    ensures d * (q - q') == r' - r
  {
  }

  /** The bit test of the source: x & (1 << k). */
  lemma {:induction false} AndPow2(x: nat, k: nat)
    ensures And(x, Pow2(k)) == if Bit(x, k) == 1 then Pow2(k) else 0
  {
    if k > 0 {
      if x > 0 {
        AndPow2(x / 2, k - 1);
      } else {
        BitZero(k);
      }
    } else {
      assert And(x / 2, 0) == 0;
    }
  }

  lemma {:induction false} BitZero(k: nat)
    ensures Bit(0, k) == 0
  {
    if k > 0 { BitZero(k - 1); }
  }

  /** The value of a number whose top bit is known. */
  lemma {:induction false} TopBit(x: nat, k: nat)
    requires x < Pow2(k + 1)
    ensures Bit(x, k) == 1 <==> x >= Pow2(k)
    ensures Bit(x, k) == 0 <==> x < Pow2(k)
  {
    if k > 0 { TopBit(x / 2, k - 1); }
  }

  /** x & (2^k - 1) */
  lemma {:induction false} AndMask(x: nat, k: nat)
    ensures And(x, Pow2(k) - 1) == x % Pow2(k)
  {
    if k > 0 {
      var m := Pow2(k - 1) - 1;
      AndMask(x / 2, k - 1);
      ModHalf(x, m + 1);
      AndOdd(x, m);
    }
  }

  lemma AndOdd(x: nat, m: nat)
    ensures And(x, 2 * m + 1) == 2 * And(x / 2, m) + x % 2
  {
    assert (2 * m + 1) / 2 == m && (2 * m + 1) % 2 == 1;
  }

  lemma DivNat(v: nat, p: nat)
    requires p > 0
    ensures 0 <= v / p && 0 <= v % p < p && v % p <= v && v == p * (v / p) + v % p
  {
    var q := v / p;
    if q < 0 { MulMono(p, q, -1); } else { MulMono(p, 0, q); }
  }

  /** A quotient is bounded by what bounds its numerator. */
  lemma DivBounds(v: nat, p: nat, k: nat)
    requires p > 0
    ensures v >= p * k <==> v / p >= k
  {
    var q := v / p;
    DivNat(v, p);
    assert p * (q + 1) == p * q + p;
    if q < k { MulMono(p, q + 1, k); } else { MulMono(p, k, q); }
  }

  lemma ModHalf(x: nat, p: nat)
    requires p > 0
    ensures x % (2 * p) == 2 * ((x / 2) % p) + x % 2
  {
    var h := x / 2;
    assert h == p * (h / p) + h % p;
    assert 2 * (p * (h / p)) == (2 * p) * (h / p);
    DivUnique(x, 2 * p, h / p, 2 * (h % p) + x % 2);
  }

  /** Bit number k, as a quotient. */
  lemma {:induction false} BitIs(x: nat, k: nat)
    ensures Bit(x, k) == x / Pow2(k) % 2
  {
    if k > 0 {
      BitIs(x / 2, k - 1);
      DivHalf(x, Pow2(k - 1));
    }
  }

  lemma DivHalf(x: nat, p: nat)
    requires p > 0
    ensures x / (2 * p) == (x / 2) / p
  {
    var h := x / 2;
    assert h == p * (h / p) + h % p;
    assert 2 * (p * (h / p)) == (2 * p) * (h / p);
    DivUnique(x, 2 * p, h / p, 2 * (h % p) + x % 2);
  }

  /** Adding a bit that is clear sets it. */
  lemma {:induction false} OrFreeBit(x: nat, k: nat)
    requires Bit(x, k) == 0
    ensures Or(x, Pow2(k)) == x + Pow2(k)
  {
    if k == 0 {
      OrZero(x / 2);
    } else {
      OrFreeBit(x / 2, k - 1);
    }
  }

  lemma {:induction false} BitOr(x: nat, y: nat, k: nat)
    ensures Bit(Or(x, y), k) == if Bit(x, k) == 1 || Bit(y, k) == 1 then 1 else 0
  {
    if x == 0 && y == 0 {
      BitZero(k);
    } else if k > 0 {
      BitOr(x / 2, y / 2, k - 1);
    }
  }

  lemma {:induction false} BitPow2(j: nat, k: nat)
    ensures Bit(Pow2(j), k) == if j == k then 1 else 0
  {
    if j == 0 {
      if k > 0 { BitZero(k - 1); }
    } else if k > 0 {
      BitPow2(j - 1, k - 1);
    }
  }

  lemma {:induction false} BitRange(x: nat, k: nat)
    ensures Bit(x, k) == 0 || Bit(x, k) == 1
  {
    if k > 0 { BitRange(x / 2, k - 1); }
  }
}
