/** Numbers in any radix, the most significant digit first. */
module Radix {
  import opened Bits

  function Pow(r: nat, n: nat): (p: nat)
    ensures r > 0 ==> p > 0
  {
    if n == 0 then 1 else Times(r, Pow(r, n - 1))
  }

  function Times(a: nat, b: nat): (p: nat)
    ensures p == a * b
    ensures a > 0 && b > 0 ==> p > 0
  {
    if a == 0 then 0 else (MulMono(b, 1, a); a * b)
  }

  function Num(s: seq<nat>, r: nat): nat {
    if s == [] then 0 else Times(Num(s[..|s| - 1], r), r) + s[|s| - 1]
  }

  predicate Digits(s: seq<nat>, r: nat) {
    forall i | 0 <= i < |s| :: s[i] < r
  }

  /** Digits without a leading zero. */
  predicate Canonical(s: seq<nat>, r: nat) {
    Digits(s, r) && (s != [] ==> s[0] != 0)
  }

  /** The digits of a number, without a leading zero. */
  function ToDigits(v: nat, r: nat): (s: seq<nat>)
    requires r > 1
    decreases v
  {
    if v == 0 then [] else (QuotientLess(v, r); ToDigits(v / r, r) + [v % r])
  }

  lemma QuotientLess(v: nat, r: nat)
    requires v > 0 && r > 1
    ensures 0 <= v / r < v && 0 <= v % r < r && v == r * (v / r) + v % r
  {
    DivNat(v, r);
    MulMono(v / r, 2, r);
    assert (v / r) * r == r * (v / r);
  }

  lemma {:induction false} ToDigitsCanonical(v: nat, r: nat)
    requires r > 1
    ensures Canonical(ToDigits(v, r), r) && Num(ToDigits(v, r), r) == v
    ensures v > 0 <==> ToDigits(v, r) != []
    decreases v
  {
    if v > 0 {
      QuotientLess(v, r);
      ToDigitsCanonical(v / r, r);
      var s, d := ToDigits(v / r, r), v % r;
      assert (s + [d])[..|s|] == s;
      assert s == [] ==> v == d;
    }
  }

  lemma NumSnoc(s: seq<nat>, d: nat, r: nat)
    ensures Num(s + [d], r) == Num(s, r) * r + d
  {
    assert (s + [d])[..|s|] == s;
  }

  /** A number has one canonical form. */
  lemma {:induction false} CanonicalUnique(s: seq<nat>, r: nat)
    requires r > 1 && Canonical(s, r)
    ensures ToDigits(Num(s, r), r) == s
    ensures s != [] ==> Num(s, r) > 0
  {
    if s != [] {
      var n := |s| - 1;
      var t, d := s[..n], s[n];
      CanonicalUnique(t, r);
      var v := Num(s, r);
      assert v == Num(t, r) * r + d;
      assert t != [] ==> v > 0 by { if t != [] { MulMono(r, 1, Num(t, r)); } }
      assert Num(t, r) * r == r * Num(t, r);
      DivUnique(v, r, Num(t, r), d);
      assert s == t + [d];
    }
  }

  /** A leading digit counts for its place. */
  lemma {:induction false} NumCons(d: nat, s: seq<nat>, r: nat)
    ensures Num([d] + s, r) == d * Pow(r, |s|) + Num(s, r)
  {
    if s == [] {
      assert [d] + s == [] + [d];
      NumSnoc([], d, r);
    } else {
      var n := |s| - 1;
      NumCons(d, s[..n], r);
      assert [d] + s == ([d] + s[..n]) + [s[n]];
      NumSnoc([d] + s[..n], s[n], r);
      ConsArith(d, Pow(r, n), Num(s[..n], r), r);
    }
  }

  lemma ConsArith(d: nat, p: nat, v: nat, r: nat)
    ensures (d * p + v) * r == d * (r * p) + v * r
  {
    assert d * (r * p) == (d * p) * r;
  }

  lemma {:induction false} LeadingZeros(s: seq<nat>, k: nat, r: nat)
    requires k <= |s| && forall i | 0 <= i < k :: s[i] == 0
    ensures Num(s, r) == Num(s[k..], r)
  {
    if k > 0 {
      NumCons(0, s[1..], r);
      assert s == [0] + s[1..];
      LeadingZeros(s[1..], k - 1, r);
      assert s[1..][k - 1..] == s[k..];
    }
  }

  lemma {:induction false} NumBound(s: seq<nat>, r: nat)
    requires r > 0 && Digits(s, r)
    ensures Num(s, r) < Pow(r, |s|)
  {
    if s != [] {
      var n := |s| - 1;
      NumBound(s[..n], r);
      BoundArith(Num(s[..n], r), s[n], Pow(r, n), r);
    }
  }

  lemma BoundArith(v: nat, d: nat, p: nat, r: nat)
    requires v < p && d < r
    ensures v * r + d < r * p
  {
    MulMono(r, v + 1, p);
    assert r * (v + 1) == v * r + r;
  }

  // ----- Powers -----

  lemma Assoc(a: nat, b: nat, c: nat)
    ensures a * (b * c) == (a * b) * c
  {
  }

  lemma {:induction false} PowAdd(r: nat, a: nat, b: nat)
    ensures Pow(r, a + b) == Pow(r, a) * Pow(r, b)
  {
    if a > 0 {
      PowAdd(r, a - 1, b);
      Assoc(r, Pow(r, a - 1), Pow(r, b));
    }
  }

  lemma {:induction false} PowMul(r: nat, a: nat, b: nat)
    ensures Pow(Pow(r, a), b) == Pow(r, Times(a, b))
  {
    if b > 0 {
      PowMul(r, a, b - 1);
      PowAdd(r, a, Times(a, b - 1));
    }
  }

  lemma {:induction false} PowMono(r: nat, a: nat, b: nat)
    requires r > 0 && a <= b
    ensures Pow(r, a) <= Pow(r, b)
  {
    if a < b {
      PowMono(r, a, b - 1);
      MulMono(Pow(r, b - 1), 1, r);
    }
  }

  lemma {:induction false} PowBase(a: nat, b: nat, n: nat)
    requires a <= b
    ensures Pow(a, n) <= Pow(b, n)
  {
    if n > 0 {
      PowBase(a, b, n - 1);
      MulMono(a, Pow(a, n - 1), Pow(b, n - 1));
      MulMono(Pow(b, n - 1), a, b);
    }
  }

  /** Powers with one exponent order their bases. */
  lemma {:induction false} PowBaseStrict(a: nat, b: nat, n: nat)
    requires a < b && n > 0
    ensures Pow(a, n) < Pow(b, n)
  {
    PowBase(a, b, n - 1);
    MulMono(a, Pow(a, n - 1), Pow(b, n - 1));
    assert Pow(b, n - 1) > 0;
    MulMono(Pow(b, n - 1), a + 1, b);
    assert Pow(b, n - 1) * (a + 1) == Pow(b, n - 1) * a + Pow(b, n - 1);
    assert Pow(b, n - 1) * a == a * Pow(b, n - 1);
  }

  lemma PowSwap(x: nat, m: nat, p: nat)
    ensures Pow(Pow(x, m), p) == Pow(Pow(x, p), m)
  {
    PowMul(x, m, p);
    PowMul(x, p, m);
    Commutes(m, p);
  }

  lemma Commutes(a: nat, b: nat)
    ensures Times(a, b) == Times(b, a)
  {
  }

  lemma PowMulMono(y: nat, q: nat, m: nat, n: nat, p: nat)
    requires y > 0 && Times(q, m) <= Times(n, p)
    ensures Pow(Pow(y, q), m) <= Pow(Pow(y, n), p)
  {
    PowMul(y, q, m);
    PowMul(y, n, p);
    PowMono(y, Times(q, m), Times(n, p));
  }

  /** If x^p <= y^q, then x^m <= y^n for every m / n up to p / q. */
  lemma RationalLog(x: nat, y: nat, p: nat, q: nat, m: nat, n: nat)
    requires x > 0 && y > 0 && p > 0 && Pow(x, p) <= Pow(y, q) && Times(q, m) <= Times(n, p)
    ensures Pow(x, m) <= Pow(y, n)
  {
    PowSwap(x, m, p);
    PowBase(Pow(x, p), Pow(y, q), m);
    PowMulMono(y, q, m, n, p);
    if Pow(x, m) > Pow(y, n) { PowBaseStrict(Pow(y, n), Pow(x, m), p); }
  }
}
