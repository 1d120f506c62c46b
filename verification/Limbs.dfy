/** Numbers as sequences of 32-bit limbs, the least significant first. */
module Limbs {
  import opened Bits

  const BASE: nat := 0x1_0000_0000

  type Limb = x: int | 0 <= x < 0x1_0000_0000

  /** BASE to the n. */
  function P(n: nat): (r: nat)
    ensures r > 0
  {
    if n == 0 then 1 else BASE * P(n - 1)
  }

  function Val(s: seq<Limb>): nat {
    if s == [] then 0 else Val(s[..|s| - 1]) + s[|s| - 1] * P(|s| - 1)
  }

  lemma {:induction false} PAdd(a: nat, b: nat)
    ensures P(a + b) == P(a) * P(b)
  {
    if a > 0 {
      PAdd(a - 1, b);
      assert P(a) * P(b) == BASE * (P(a - 1) * P(b));
    }
  }

  lemma {:induction false} PIsPow2(n: nat)
    ensures P(n) == Pow2(32 * n)
  {
    if n > 0 {
      PIsPow2(n - 1);
      Pow2Add(32, 32 * (n - 1));
      Pow32();
    }
  }

  lemma Pow32()
    ensures Pow2(32) == BASE
  {
    assert Pow2(8) == 256;
    Pow2Add(8, 8);
    Pow2Add(16, 16);
  }

  lemma {:induction false} ValBound(s: seq<Limb>)
    ensures Val(s) < P(|s|)
  {
    if s != [] {
      var n := |s| - 1;
      ValBound(s[..n]);
      LimbBound(s[n], P(n));
    }
  }

  lemma LimbBound(x: Limb, p: nat)
    ensures x * p + p <= BASE * p
  {
    MulMono(p, x + 1, BASE);
    assert p * (x + 1) == x * p + p;
  }

  lemma ValNext(s: seq<Limb>, i: nat)
    requires i < |s|
    ensures Val(s[..i + 1]) == Val(s[..i]) + s[i] * P(i)
  {
    var t := s[..i + 1];
    assert t[..i] == s[..i];
  }

  /** Changing one limb changes the value by that much at its place. */
  lemma {:induction false} ValUpdate(s: seq<Limb>, i: nat, x: Limb)
    requires i < |s|
    ensures Val(s[i := x]) == Val(s) - s[i] * P(i) + x * P(i)
  {
    var n := |s| - 1;
    if i == n {
      assert s[i := x][..n] == s[..n];
    } else {
      assert s[i := x][..n] == s[..n][i := x];
      ValUpdate(s[..n], i, x);
    }
  }

  lemma {:induction false} ValSplit(s: seq<Limb>, k: nat)
    requires k <= |s|
    ensures Val(s) == Val(s[..k]) + P(k) * Val(s[k..])
  {
    if k == |s| {
      assert s[..k] == s;
    } else {
      var n := |s| - 1;
      ValSplit(s[..n], k);
      assert s[..n][..k] == s[..k] && s[k..][..n - k] == s[..n][k..];
      PAdd(k, n - k);
      Distribute(P(k), Val(s[..n][k..]), s[n], P(n - k));
    }
  }

  lemma Distribute(p: nat, v: nat, x: nat, q: nat)
    ensures p * (v + x * q) == p * v + x * (p * q)
  {
  }

  lemma {:induction false} ValZero(s: seq<Limb>)
    requires forall i | 0 <= i < |s| :: s[i] == 0
    ensures Val(s) == 0
  {
    if s != [] { ValZero(s[..|s| - 1]); }
  }

  /** Limbs above i agree and limb i is less: so is the number. */
  lemma ValLess(s: seq<Limb>, t: seq<Limb>, i: nat)
    requires |s| == |t| && i < |s| && s[i] < t[i] && forall j | i < j < |s| :: s[j] == t[j]
    ensures Val(s) < Val(t)
  {
    assert s[i + 1..] == t[i + 1..];
    ValSplit(s, i + 1);
    ValSplit(t, i + 1);
    ValNext(s, i);
    ValNext(t, i);
    ValBound(s[..i]);
    PlaceLess(Val(s[..i]), Val(t[..i]), s[i], t[i], P(i));
  }

  lemma PlaceLess(x: nat, y: nat, a: nat, b: nat, p: nat)
    requires x < p && a < b
    ensures x + a * p < y + b * p
  {
    MulMono(p, a + 1, b);
    assert p * (a + 1) == a * p + p;
  }

  /** A value and what overflowed determine the value modulo the width. */
  lemma Modulo(x: nat, q: int, m: nat, y: int)
    requires x < m && x + q * m == y
    ensures x == y % m
  {
    DivUnique(y, m, q, x);
  }

  lemma ValSnoc(s: seq<Limb>, x: Limb)
    ensures Val(s + [x]) == Val(s) + x * P(|s|)
  {
    assert (s + [x])[..|s|] == s;
  }

  /** The limbs done so far and the carry together hold y. */
  predicate Holds(s: seq<Limb>, carry: int, y: int) {
    Val(s) + carry * P(|s|) == y
  }

  /** One step of a carrying loop. */
  lemma CarryStep(s: seq<Limb>, c: nat, y: int, n: nat)
    requires Holds(s, c, y) && n >= c
    ensures Holds(s + [n % BASE], n / BASE, y + (n - c) * P(|s|))
  {
    var lo, hi, p := n % BASE, n / BASE, P(|s|);
    ValSnoc(s, lo);
    Regroup(lo, hi, BASE, p, c, n);
  }

  lemma Regroup(lo: nat, hi: nat, base: nat, p: nat, c: nat, n: nat)
    requires n == lo + base * hi && n >= c
    ensures lo * p + hi * (base * p) == c * p + (n - c) * p
  {
    Distribute3(lo, base * hi, p);
    Distribute3(c, n - c, p);
    assert (base * hi) * p == hi * (base * p);
  }

  lemma Distribute3(a: int, b: int, p: int)
    ensures (a + b) * p == a * p + b * p
  {
  }

  /** After the last limb the carry is what is lost. */
  lemma CarryEnds(s: seq<Limb>, c: int, y: int)
    requires Holds(s, c, y)
    ensures Val(s) == y % P(|s|)
  {
    ValBound(s);
    Modulo(Val(s), c, P(|s|), y);
  }
}
