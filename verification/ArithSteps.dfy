/** The arithmetic behind one turn of each loop over limbs. */
module ArithSteps {
  import opened Bits
  import opened Limbs

  lemma AddStep(s: seq<Limb>, a: seq<Limb>, b: seq<Limb>, c: nat, n: nat, i: nat)
    requires i == |s| < |a| == |b| && c <= 1 && n == c + a[i] + b[i]
    requires Holds(s, c, Val(a[..i]) + Val(b[..i]))
    ensures Holds(s + [n % BASE], n / BASE, Val(a[..i + 1]) + Val(b[..i + 1])) && n / BASE <= 1
  {
    CarryStep(s, c, Val(a[..i]) + Val(b[..i]), n);
    ValNext(a, i);
    ValNext(b, i);
    assert (a[i] + b[i]) * P(i) == a[i] * P(i) + b[i] * P(i);
  }

  /** A 32-bit product with a carry fits 64 bits, and its upper half fits 32. */
  lemma ProductFits(x: Limb, y: Limb, c: Limb, z: Limb)
    ensures c + z + x * y < 0x1_0000_0000_0000_0000
    ensures (c + z + x * y) / BASE < BASE
  {
    MulMono(x, y, BASE - 1);
    MulMono(BASE - 1, x, BASE - 1);
    assert (BASE - 1) * x == x * (BASE - 1);
  }

  lemma MulSmallStep(s: seq<Limb>, a: seq<Limb>, b: Limb, c: nat, n: nat, i: nat)
    requires i == |s| < |a| && n == c + b * a[i]
    requires Holds(s, c, b * Val(a[..i]))
    ensures Holds(s + [n % BASE], n / BASE, b * Val(a[..i + 1]))
  {
    Products(b, a[i]);
    CarryStep(s, c, b * Val(a[..i]), n);
    ValNext(a, i);
    Spread(b, Val(a[..i]), a[i], P(i));
  }

  lemma Products(x: nat, y: nat)
    ensures x * y >= 0
  {
  }

  lemma Spread(b: int, v: int, x: int, p: int)
    ensures b * (v + x * p) == b * v + (b * x) * p
  {
    assert b * (x * p) == (b * x) * p;
  }

  // ----- The inner loop of the full product -----

  /** Adding x times b into t from place j on: done up to place j + i. */
  lemma MulRowStep(s: seq<Limb>, t: seq<Limb>, b: seq<Limb>, x: Limb, j: nat, i: nat, c: nat, n: nat)
    requires |s| == i + j < |t| && i < |b| && n == c + t[i + j] + x * b[i]
    requires Holds(s, c, Val(t[..i + j]) + (x * Val(b[..i])) * P(j))
    ensures Holds(s + [n % BASE], n / BASE, Val(t[..i + j + 1]) + (x * Val(b[..i + 1])) * P(j))
  {
    var y := Val(t[..i + j]) + (x * Val(b[..i])) * P(j);
    Products(x, b[i]);
    CarryStep(s, c, y, n);
    ValNext(t, i + j);
    ValNext(b, i);
    PAdd(i, j);
    RowArith(x, b[i], Val(b[..i]), P(i), P(j), t[i + j], P(i + j));
  }

  lemma RowArith(x: nat, b: nat, v: nat, pi: nat, pj: nat, t: nat, pij: nat)
    requires pij == pi * pj
    ensures (x * (v + b * pi)) * pj == (x * v) * pj + (x * b) * pij
    ensures (t + x * b) * pij == t * pij + (x * b) * pij
  {
    Spread(x, v, b, pi);
    Distribute3(x * v, (x * b) * pi, pj);
    assert ((x * b) * pi) * pj == (x * b) * (pi * pj);
    Distribute3(t, x * b, pij);
  }

  /** A whole row: the product so far grows by x times all of b at place j, up to what is lost. */
  lemma MulRowEnds(s: seq<Limb>, t: seq<Limb>, a: seq<Limb>, b: seq<Limb>, j: nat, c: nat, lost: int) returns (lost': int)
    requires |s| == |t| == |a| == |b| && j < |a|
    requires Holds(s, c, Val(t) + (a[j] * Val(b[..|b| - j])) * P(j))
    requires Val(t) + lost * P(|t|) == Val(a[..j]) * Val(b)
    ensures Val(s) + lost' * P(|s|) == Val(a[..j + 1]) * Val(b)
  {
    var w, x := |a|, a[j];
    var low, high := Val(b[..w - j]), Val(b[w - j..]);
    ValSplit(b, w - j);
    ValNext(a, j);
    PAdd(w - j, j);
    lost' := c + lost + x * high;
    RowTotal(Val(s), c, Val(t), lost, Val(a[..j]), Val(b), x, low, high, P(w - j), P(j), P(w));
  }

  lemma RowTotal(s: nat, c: nat, t: nat, lost: int, a: nat, b: nat, x: nat, low: nat, high: nat, pk: nat, pj: nat, m: nat)
    requires m == pk * pj && b == low + pk * high
    requires s + c * m == t + (x * low) * pj
    requires t + lost * m == a * b
    ensures s + (c + lost + x * high) * m == (a + x * pj) * b
  {
    Distribute3(c + lost, x * high, m);
    Distribute3(c, lost, m);
    Distribute3(a, x * pj, b);
    calc {
      (x * pj) * b;
      (x * pj) * (low + pk * high);
      { Distribute3(low, pk * high, x * pj); assert (low + pk * high) * (x * pj) == (x * pj) * (low + pk * high); }
      low * (x * pj) + (pk * high) * (x * pj);
      { assert low * (x * pj) == (x * low) * pj; }
      (x * low) * pj + (pk * high) * (x * pj);
      { assert (pk * high) * (x * pj) == (x * high) * (pk * pj); }
      (x * low) * pj + (x * high) * m;
    }
  }

  // ----- Increment and decrement -----

  lemma CarryOn(p: nat)
    ensures (BASE - 1) * p + p == BASE * p
  {
  }

  /** Adding one at place i carries on exactly when the limb wraps round. */
  lemma UpStep(s: seq<Limb>, i: nat, x: Limb)
    requires i < |s| && x == (s[i] + 1) % BASE
    ensures Val(s[i := x]) + (if x == 0 then P(i + 1) else 0) == Val(s) + P(i)
  {
    ValUpdate(s, i, x);
    CarryOn(P(i));
    Distribute3(s[i], 1, P(i));
  }

  /** One limb of an increment: carry on, or be done. */
  lemma UpNext(s: seq<Limb>, i: nat, x: Limb, v: nat)
    requires i < |s| && x == (s[i] + 1) % BASE && Val(s) + P(i) == v + 1
    ensures x == 0 && i + 1 < |s| ==> Val(s[i := x]) + P(i + 1) == v + 1
    ensures !(x == 0 && i + 1 < |s|) ==> Val(s[i := x]) == (v + 1) % P(|s|)
  {
    UpStep(s, i, x);
    if !(x == 0 && i + 1 < |s|) {
      ValBound(s[i := x]);
      Modulo(Val(s[i := x]), if x == 0 then 1 else 0, P(|s|), v + 1);
    }
  }

  /** One limb of a decrement: borrow on, or be done. */
  lemma DownNext(s: seq<Limb>, i: nat, x: Limb, v: nat)
    requires i < |s| && x == (s[i] - 1) % BASE && Val(s) == v + P(i) - 1
    ensures x == BASE - 1 && i + 1 < |s| ==> Val(s[i := x]) == v + P(i + 1) - 1
    ensures !(x == BASE - 1 && i + 1 < |s|) ==> Val(s[i := x]) == (v - 1) % P(|s|)
  {
    DownStep(s, i, x);
    if !(x == BASE - 1 && i + 1 < |s|) {
      ValBound(s[i := x]);
      Modulo(Val(s[i := x]), if x == BASE - 1 then -1 else 0, P(|s|), v - 1);
    }
  }

  lemma DownStep(s: seq<Limb>, i: nat, x: Limb)
    requires i < |s| && x == (s[i] - 1) % BASE
    ensures Val(s[i := x]) == Val(s) - P(i) + if x == BASE - 1 then P(i + 1) else 0
  {
    ValUpdate(s, i, x);
    CarryOn(P(i));
    Distribute3(s[i], -1, P(i));
  }

  lemma NotStep(r: seq<Limb>, s: seq<Limb>, i: nat)
    requires |r| == i < |s| && Val(r) + Val(s[..i]) == P(i) - 1
    ensures Val(r + [BASE - 1 - s[i]]) + Val(s[..i + 1]) == P(i + 1) - 1
  {
    ValNext(s, i);
    ValSnoc(r, BASE - 1 - s[i]);
    Distribute3(BASE - 1 - s[i], s[i], P(i));
    CarryOn(P(i));
  }

  // ----- Differences modulo -----

  /** Adding the complement subtracts. */
  lemma Complement(v: nat, b: nat, m: nat)
    requires v < m && b < m
    ensures (v + (m - b) % m) % m == (v - b) % m
  {
    if b == 0 {
      DivUnique(m, m, 1, 0);
    } else {
      DivUnique(m - b, m, 0, m - b);
      if v < b {
        DivUnique(v + m - b, m, 0, v + m - b);
        DivUnique(v - b, m, -1, v - b + m);
      } else {
        DivUnique(v + m - b, m, 1, v - b);
        DivUnique(v - b, m, 0, v - b);
      }
    }
  }

  // ----- Bit counts and low limbs -----

  predicate IsBitCount(v: nat, n: nat) {
    if n == 0 then v == 0 else Pow2(n - 1) <= v < Pow2(n)
  }

  lemma TopLimb(s: seq<Limb>, pos: nat, b: nat)
    requires pos < |s| && b < 32 && Pow2(b) <= s[pos] < Pow2(b + 1)
    requires forall j | pos < j < |s| :: s[j] == 0
    ensures IsBitCount(Val(s), 32 * pos + b + 1)
  {
    ValSplit(s, pos + 1);
    ValZero(s[pos + 1..]);
    assert P(pos + 1) * Val(s[pos + 1..]) == 0;
    ValNext(s, pos);
    ValBound(s[..pos]);
    PIsPow2(pos);
    Pow2Add(32 * pos, b);
    Pow2Add(32 * pos, b + 1);
    Between(Val(s[..pos]), s[pos], P(pos), Pow2(b), Pow2(b + 1));
  }

  lemma Between(v: nat, x: nat, p: nat, lo: nat, hi: nat)
    requires v < p && lo <= x < hi
    ensures p * lo <= v + x * p < p * hi
  {
    MulMono(p, lo, x);
    MulMono(p, x + 1, hi);
    assert p * (x + 1) == x * p + p;
  }

  lemma TwoLimbs(s: seq<Limb>)
    requires |s| >= 2 && forall j | 2 <= j < |s| :: s[j] == 0
    ensures Val(s) == s[0] + BASE * s[1]
  {
    ValSplit(s, 2);
    ValZero(s[2..]);
    FirstTwo(s);
  }

  lemma FirstTwo(s: seq<Limb>)
    requires |s| >= 2
    ensures Val(s[..2]) == s[0] + BASE * s[1] && P(2) == 0x1_0000_0000_0000_0000
  {
    ValNext(s, 1);
    ValNext(s, 0);
    assert P(1) == BASE * P(0);
  }

  lemma LowLimbs(s: seq<Limb>)
    requires |s| >= 2
    ensures Or(s[0], s[1] * BASE) == Val(s) % 0x1_0000_0000_0000_0000
  {
    ValSplit(s, 2);
    FirstTwo(s);
    Pow32();
    ModZero(BASE, s[1]);
    OrIsSum(s[1] * BASE, s[0], 32);
    DivUnique(Val(s), 0x1_0000_0000_0000_0000, Val(s[2..]), Val(s[..2]));
  }
}
