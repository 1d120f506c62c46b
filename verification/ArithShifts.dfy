/** The arithmetic behind one turn of the shifting loops. */
module ArithShifts {
  import opened Bits
  import opened Limbs

  /** A number below base == d * e, scaled by d: the part at or above base, and the rest. */
  lemma SplitScaled(x: nat, d: nat, e: nat, base: nat) returns (q: nat, r: nat)
    requires d > 0 && e > 0 && base == d * e && x < base
    ensures q == x / e && r == x % e && x == e * q + r
    ensures x * d == q * base + r * d && (x * d) % base == r * d
    ensures q < d && (r * d) % d == 0 && 0 <= r * d && r * d + d <= base
  {
    q, r := x / e, x % e;
    Scaled(x, q, r, d, e);
    assert base * q == q * base;
    DivUnique(x * d, base, q, r * d);
    ModZero(d, r);
    HighSmall(x, q, r, d, e);
  }

  lemma Scaled(x: nat, q: nat, r: nat, d: nat, e: nat)
    requires x == e * q + r && r < e && d > 0
    ensures x * d == (d * e) * q + r * d && 0 <= r * d && r * d + d <= d * e
  {
    Distribute3(e * q, r, d);
    assert (e * q) * d == (d * e) * q;
    MulMono(d, r + 1, e);
    assert d * (r + 1) == r * d + d;
  }

  lemma HighSmall(x: nat, q: nat, r: nat, d: nat, e: nat)
    requires x == e * q + r && x < d * e && e > 0
    ensures q < d
  {
    assert e * d == d * e;
    if q >= d { MulMono(e, d, q); }
  }

  lemma Halves(sh: nat)
    requires sh <= 32
    ensures Pow2(sh) * Pow2(32 - sh) == BASE && Pow2(sh) <= BASE
  {
    Pow2Add(sh, 32 - sh);
    Pow32();
    Pow2Mono(sh, 32);
  }

  /** How a limb splits when shifted left: hi moves into the next place, lo stays. */
  lemma SplitLeft(x: Limb, sh: nat) returns (hi: nat, lo: nat)
    requires sh < 32
    ensures hi == x / Pow2(32 - sh) && lo == (x * Pow2(sh)) % BASE
    ensures x * Pow2(sh) == hi * BASE + lo
    ensures hi < Pow2(sh) && lo % Pow2(sh) == 0 && lo + Pow2(sh) <= BASE
  {
    Halves(sh);
    var q, r := SplitScaled(x, Pow2(sh), Pow2(32 - sh), BASE);
    hi, lo := q, r * Pow2(sh);
  }

  /** And when shifted right: hi stays, lo moves down to the top of the place below. */
  lemma SplitRight(x: Limb, sh: nat) returns (hi: nat, lo: nat)
    requires sh < 32
    ensures hi == x / Pow2(sh) && lo == x % Pow2(sh) && x == hi * Pow2(sh) + lo
    ensures hi < Pow2(32 - sh) && lo < Pow2(sh)
    ensures (x * Pow2(32 - sh)) % BASE == lo * Pow2(32 - sh)
    ensures (lo * Pow2(32 - sh)) % Pow2(32 - sh) == 0
    ensures 0 <= lo * Pow2(32 - sh) && lo * Pow2(32 - sh) + Pow2(32 - sh) <= BASE
    ensures sh == 0 ==> lo * Pow2(32 - sh) == 0
  {
    Halves(32 - sh);
    hi, lo := SplitScaled(x, Pow2(32 - sh), Pow2(sh), BASE);
    assert Pow2(sh) * hi == hi * Pow2(sh);
  }

  /** Adding x at place j, or dropping it past the end. */
  function Deposit(s: seq<Limb>, j: nat, x: nat): seq<Limb>
    requires j < |s| ==> s[j] + x < BASE
  {
    if j < |s| then s[j := s[j] + x] else s
  }

  lemma DepositVal(s: seq<Limb>, j: nat, x: nat) returns (lost: int)
    requires j < |s| ==> s[j] + x < BASE
    ensures Val(Deposit(s, j, x)) + lost * P(|s|) == Val(s) + x * P(j)
  {
    if j < |s| {
      lost := 0;
      ValUpdate(s, j, s[j] + x);
      Distribute3(s[j], x, P(j));
    } else {
      PAdd(j - |s|, |s|);
      lost := x * P(j - |s|);
      assert lost * P(|s|) == x * (P(j - |s|) * P(|s|));
    }
  }

  // ----- Left -----

  predicate LeftShape(s: seq<Limb>, at: nat, sh: nat) {
    (forall j | at < j < |s| :: s[j] == 0) && (at < |s| ==> s[at] < Pow2(sh))
  }

  predicate LeftVal(s: seq<Limb>, a: seq<Limb>, i: nat, f: int, lost: int)
    requires i <= |a|
  {
    Val(s) + lost * P(|s|) == Val(a[..i]) * f
  }

  lemma LeftArith(v: int, x: nat, pi: nat, d: nat, pk: nat, hi: nat, lo: nat, pik: nat, f: nat)
    requires f == d * pk && pik == pi * pk && x * d == hi * BASE + lo
    ensures (v + x * pi) * f == v * f + lo * pik + hi * (BASE * pik)
  {
    Distribute3(v, x * pi, f);
    assert (x * pi) * (d * pk) == (x * d) * (pi * pk) by { Shuffle(x, pi, d, pk); }
    Distribute3(hi * BASE, lo, pik);
    assert (hi * BASE) * pik == hi * (BASE * pik);
  }

  lemma Shuffle(a: int, b: int, c: int, d: int)
    ensures (a * b) * (c * d) == (a * c) * (b * d)
  {
    assert (a * b) * (c * d) == a * (b * (c * d));
    assert b * (c * d) == c * (b * d);
    assert a * (c * (b * d)) == (a * c) * (b * d);
  }

  lemma LeftStep(s: seq<Limb>, a: seq<Limb>, i: nat, k: nat, sh: nat, hi: nat, lo: nat, lost: int) returns (lost': int)
    requires |s| == |a| && i < |a| && sh < 32 && a[i] * Pow2(sh) == hi * BASE + lo
    requires hi < Pow2(sh) && lo + Pow2(sh) <= BASE && Pow2(sh) <= BASE
    requires LeftShape(s, i + k, sh) && LeftVal(s, a, i, Pow2(sh) * P(k), lost)
    ensures LeftVal(LeftTurn(s, i + k, sh, hi, lo), a, i + 1, Pow2(sh) * P(k), lost')
  {
    var at, d := i + k, Pow2(sh);
    var l := LeftValue(s, at, sh, hi, lo);
    lost' := lost + l;
    ValNext(a, i);
    PAdd(i, k);
    LeftArith(Val(a[..i]), a[i], P(i), d, P(k), hi, lo, P(at), d * P(k));
    Distribute3(lost, l, P(|s|));
  }

  lemma LeftValue(s: seq<Limb>, at: nat, sh: nat, hi: nat, lo: nat) returns (lost: int)
    requires LeftShape(s, at, sh) && hi < Pow2(sh) && lo + Pow2(sh) <= BASE && Pow2(sh) <= BASE
    ensures Val(LeftTurn(s, at, sh, hi, lo)) + lost * P(|s|) == Val(s) + lo * P(at) + hi * (BASE * P(at))
  {
    var t := Deposit(s, at + 1, hi);
    var l1 := DepositVal(s, at + 1, hi);
    var l2 := DepositVal(t, at, lo);
    lost := l1 + l2;
    Distribute3(l1, l2, P(|s|));
  }

  lemma LeftShapes(s: seq<Limb>, at: nat, sh: nat, hi: nat, lo: nat)
    requires LeftShape(s, at, sh) && hi < Pow2(sh) && lo + Pow2(sh) <= BASE && Pow2(sh) <= BASE
    ensures LeftShape(LeftTurn(s, at, sh, hi, lo), at + 1, sh)
  {
  }

  lemma LostSum(a: int, b: int, c: int, m: int)
    ensures (a + b + c) * m == a * m + b * m + c * m
  {
  }

  /** What one turn of the loop makes of the limbs. */
  function LeftTurn(s: seq<Limb>, at: nat, sh: nat, hi: nat, lo: nat): (r: seq<Limb>)
    requires LeftShape(s, at, sh) && hi < Pow2(sh) && lo + Pow2(sh) <= BASE && Pow2(sh) <= BASE
    ensures |r| == |s|
  {
    Deposit(Deposit(s, at + 1, hi), at, lo)
  }

  lemma Factor(k: nat, sh: nat)
    ensures Pow2(sh) * P(k) == Pow2(32 * k + sh)
  {
    PIsPow2(k);
    Pow2Add(32 * k, sh);
  }

  lemma LeftEnds(s: seq<Limb>, a: seq<Limb>, k: nat, sh: nat, lost: int)
    requires |s| == |a| && sh < 32 && LeftVal(s, a, |a|, Pow2(sh) * P(k), lost)
    ensures Val(s) == (Val(a) * Pow2(32 * k + sh)) % P(|s|)
  {
    assert a[..|a|] == a;
    Factor(k, sh);
    ValBound(s);
    Modulo(Val(s), lost, P(|s|), Val(a) * Pow2(32 * k + sh));
  }

  // ----- Right -----

  predicate RightShape(s: seq<Limb>, at: int, sh: nat)
    requires sh < 32
  {
    (forall j | 0 <= j < |s| && j >= at :: s[j] == 0) && (0 <= at - 1 < |s| ==> s[at - 1] < Pow2(32 - sh))
  }

  predicate RightVal(s: seq<Limb>, a: seq<Limb>, i: nat, f: int, r: int)
    requires i <= |a|
  {
    Val(a[..i]) == Val(s) * f + r && 0 <= r < f
  }

  /** Below place k nothing is kept. */
  lemma RightSkips(s: seq<Limb>, a: seq<Limb>, i: nat, k: nat, sh: nat, r: int)
    requires |s| == |a| && i < |a| && i < k && sh < 32
    requires RightShape(s, i - k, sh) && RightVal(s, a, i, Pow2(sh) * P(k), r)
    ensures RightShape(s, i + 1 - k, sh)
    ensures RightVal(s, a, i + 1, Pow2(sh) * P(k), Val(a[..i + 1]))
  {
    ValZero(s);
    ValBound(a[..i + 1]);
    PAdd(i + 1, k - i - 1);
    MulMono(P(i + 1), 1, P(k - i - 1));
    MulMono(P(k), 1, Pow2(sh));
    assert P(k) * Pow2(sh) == Pow2(sh) * P(k);
  }

  /** Place k is the first to be kept, without its low bits. */
  lemma RightStarts(s: seq<Limb>, a: seq<Limb>, k: nat, sh: nat, hi: nat, lo: nat, r: int) returns (r': int)
    requires |s| == |a| && k < |a| && sh < 32 && a[k] == hi * Pow2(sh) + lo && lo < Pow2(sh) && hi < Pow2(32 - sh) <= BASE
    requires RightShape(s, 0, sh) && RightVal(s, a, k, Pow2(sh) * P(k), r)
    ensures RightShape(Deposit(s, 0, hi), 1, sh)
    ensures RightVal(Deposit(s, 0, hi), a, k + 1, Pow2(sh) * P(k), r')
  {
    ValZero(s);
    var l := DepositVal(s, 0, hi);
    ValBound(a[..k]);
    ValNext(a, k);
    assert P(0) == 1;
    ValUpdate(s, 0, hi);
    r' := r + lo * P(k);
    StartArith(Val(a[..k]), hi, lo, Pow2(sh), P(k));
  }

  lemma StartArith(v: nat, hi: nat, lo: nat, d: nat, p: nat)
    requires v < p && lo < d
    ensures v + (hi * d + lo) * p == hi * (d * p) + (v + lo * p)
    ensures 0 <= v + lo * p < d * p
  {
    Distribute3(hi * d, lo, p);
    assert (hi * d) * p == hi * (d * p);
    MulMono(p, lo + 1, d);
    assert p * (lo + 1) == lo * p + p;
    assert p * d == d * p;
  }

  /** From then on every limb is kept whole, in two parts. */
  lemma RightStep(s: seq<Limb>, a: seq<Limb>, i: nat, k: nat, sh: nat, hi: nat, lo: nat, low: nat, r: int)
    requires |s| == |a| && k < i < |a| && sh < 32 && a[i] == hi * Pow2(sh) + lo && low == lo * Pow2(32 - sh)
    requires hi < Pow2(32 - sh) <= BASE && low + Pow2(32 - sh) <= BASE
    requires RightShape(s, i - k, sh) && RightVal(s, a, i, Pow2(sh) * P(k), r)
    ensures RightVal(RightTurn(s, i - k, sh, hi, low), a, i + 1, Pow2(sh) * P(k), r)
  {
    var at := i - k;
    RightValue(s, at, sh, hi, low);
    ValNext(a, i);
    PAdd(at, k);
    Halves(sh);
    RightArith(Val(s), hi, lo, Pow2(32 - sh), Pow2(sh), P(at - 1), P(at), P(k), P(i), r);
  }

  lemma RightValue(s: seq<Limb>, at: nat, sh: nat, hi: nat, low: nat)
    requires 0 < at < |s| && sh < 32 && RightShape(s, at, sh)
    requires hi < Pow2(32 - sh) <= BASE && low + Pow2(32 - sh) <= BASE
    ensures Val(RightTurn(s, at, sh, hi, low)) == Val(s) + low * P(at - 1) + hi * P(at)
  {
    var t := Deposit(s, at - 1, low);
    ValUpdate(s, at - 1, s[at - 1] + low);
    ValUpdate(t, at, hi);
    Distribute3(s[at - 1], low, P(at - 1));
  }

  lemma RightShapes(s: seq<Limb>, at: nat, sh: nat, hi: nat, low: nat)
    requires 0 < at < |s| && sh < 32 && RightShape(s, at, sh)
    requires hi < Pow2(32 - sh) <= BASE && low + Pow2(32 - sh) <= BASE
    ensures RightShape(RightTurn(s, at, sh, hi, low), at + 1, sh)
  {
  }

  lemma RightArith(v: nat, hi: nat, lo: nat, e: nat, d: nat, pm: nat, pa: nat, pk: nat, pi: nat, r: int)
    requires d * e == BASE && pa == BASE * pm && pi == pa * pk
    ensures (v + (lo * e) * pm + hi * pa) * (d * pk) + r == v * (d * pk) + r + (hi * d + lo) * pi
  {
    var f := d * pk;
    LostSum(v, (lo * e) * pm, hi * pa, f);
    Shuffle(lo * e, pm, d, pk);
    assert (lo * e) * d == lo * (d * e);
    assert (lo * BASE) * (pm * pk) == lo * (BASE * (pm * pk));
    assert BASE * (pm * pk) == (BASE * pm) * pk;
    Shuffle(hi, pa, d, pk);
    Distribute3(hi * d, lo, pi);
  }

  function RightTurn(s: seq<Limb>, at: nat, sh: nat, hi: nat, low: nat): (r: seq<Limb>)
    requires 0 < at < |s| && sh < 32 && RightShape(s, at, sh)
    requires hi < Pow2(32 - sh) <= BASE && low + Pow2(32 - sh) <= BASE
    ensures |r| == |s|
  {
    Deposit(Deposit(s, at - 1, low), at, hi)
  }

  lemma RightEnds(s: seq<Limb>, a: seq<Limb>, k: nat, sh: nat, r: int)
    requires |s| == |a| && sh < 32 && RightVal(s, a, |a|, Pow2(sh) * P(k), r)
    ensures Val(s) == Val(a) / Pow2(32 * k + sh)
  {
    assert a[..|a|] == a;
    Factor(k, sh);
    var f := Pow2(32 * k + sh);
    assert Val(s) * f == f * Val(s);
    DivUnique(Val(a), f, Val(s), r);
  }
}
