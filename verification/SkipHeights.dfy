/** The heights that skip pointers lead to (src/chain.cpp), and how many steps it takes to walk
    back along them. */
module SkipHeights {
  import opened Bits

  /** Turns the lowest one bit of a number into a zero. */
  function InvertLowestOne(n: nat): nat {
    if n == 0 then 0 else And(n, n - 1)
  }

  /** The height to jump back to with the skip pointer. */
  function GetSkipHeight(height: int): nat {
    if height < 2 then 0
    else if height % 2 == 1 then InvertLowestOne(InvertLowestOne(height - 1)) + 1
    else InvertLowestOne(height)
  }

  lemma {:induction false} AndBelow(x: nat, y: nat)
    ensures And(x, y) <= x && And(x, y) <= y
  {
    if x > 0 && y > 0 { AndBelow(x / 2, y / 2); }
  }

  /** A jump always goes back. */
  lemma SkipsBack(height: int)
    requires height >= 1
    ensures GetSkipHeight(height) < height
  {
    if height >= 2 {
      AndBelow(height, height - 1);
      AndBelow(height - 1, height - 2);
      var x := InvertLowestOne(height - 1);
      if x > 0 { AndBelow(x, x - 1); }
    }
  }

  /** Clearing the lowest one bit of an odd multiple of a power of two. */
  lemma {:induction false} LowestOneCleared(m: nat, k: nat)
    ensures 0 < (2 * m + 1) * Pow2(k) && InvertLowestOne((2 * m + 1) * Pow2(k)) == 2 * m * Pow2(k)
  {
    if k == 0 {
      OddCleared(m);
    } else {
      LowestOneCleared(m, k - 1);
      var h := (2 * m + 1) * Pow2(k - 1);
      Twice(2 * m + 1, Pow2(k - 1));
      Twice(2 * m, Pow2(k - 1));
      EvenCleared(h);
    }
  }

  lemma OddCleared(m: nat)
    ensures InvertLowestOne(2 * m + 1) == 2 * m
  {
    AndSelf(m);
    assert (2 * m + 1) / 2 == m && (2 * m) / 2 == m;
  }

  lemma EvenCleared(h: nat)
    requires h >= 1
    ensures InvertLowestOne(2 * h) == 2 * InvertLowestOne(h)
  {
    assert (2 * h - 1) / 2 == h - 1 && (2 * h) / 2 == h;
  }

  lemma Twice(a: int, p: int)
    ensures a * (2 * p) == 2 * (a * p)
  {
  }

  lemma {:induction false} AndSelf(x: nat)
    ensures And(x, x) == x
  {
    if x > 0 { AndSelf(x / 2); }
  }

  // ----- Lowest one bits -----

  lemma ClearsSome(n: nat)
    requires n > 0
    ensures InvertLowestOne(n) < n
  {
    AndBelow(n, n - 1);
  }

  lemma ClearsOdd(b: nat, y: nat)
    ensures InvertLowestOne(2 * b + (2 * y + 1)) == 2 * b + InvertLowestOne(2 * y + 1)
  {
    OddCleared(b + y);
    OddCleared(y);
    assert 2 * b + (2 * y + 1) == 2 * (b + y) + 1;
  }

  lemma ClearsEven(b: nat, y: nat)
    requires y > 0 && InvertLowestOne(b + y) == b + InvertLowestOne(y)
    ensures InvertLowestOne(2 * b + 2 * y) == 2 * b + InvertLowestOne(2 * y)
  {
    EvenCleared(b + y);
    EvenCleared(y);
    assert 2 * b + 2 * y == 2 * (b + y);
  }

  /** Higher bits are left alone: c * 2^k + x with 0 < x < 2^k. */
  lemma {:induction false} ClearsBelow(c: nat, k: nat, x: nat)
    requires 0 < x < Pow2(k)
    ensures InvertLowestOne(c * Pow2(k) + x) == c * Pow2(k) + InvertLowestOne(x)
  {
    var p, y := Pow2(k - 1), x / 2;
    Twice(c, p);
    if x == 2 * y + 1 {
      ClearsOdd(c * p, y);
    } else {
      ClearsBelow(c, k - 1, y);
      ClearsEven(c * p, y);
    }
  }

  /** How many one bits a number has. */
  function Ones(n: nat): nat
    decreases n
  {
    if n == 0 then 0 else
      ClearsSome(n);
      1 + Ones(InvertLowestOne(n))
  }

  lemma {:induction false} OnesDouble(n: nat)
    ensures Ones(2 * n) == Ones(n)
    decreases n
  {
    if n > 0 {
      ClearsSome(n);
      EvenCleared(n);
      OnesDouble(InvertLowestOne(n));
    }
  }

  lemma {:induction false} OnesAtMost(n: nat, k: nat)
    requires n < Pow2(k)
    ensures Ones(n) <= k
    decreases k
  {
    if n > 0 {
      OnesAtMost(n / 2, k - 1);
      OnesDouble(n / 2);
      if n % 2 == 1 { OddCleared(n / 2); }
    }
  }

  /** What the lowest three bits of an even number become. */
  lemma LowBits(a: nat)
    ensures InvertLowestOne(4 * a + 2) == 4 * a
    ensures InvertLowestOne(8 * a + 4) == 8 * a
    ensures InvertLowestOne(8 * a + 6) == 8 * a + 4
    ensures a > 0 ==> InvertLowestOne(8 * a) <= 8 * a - 8
  {
    OddCleared(a);
    EvenCleared(2 * a + 1);
    OddCleared(2 * a + 1);
    EvenCleared(4 * a + 3);
    OddCleared(a);
    EvenCleared(4 * a + 2);
    if a > 0 {
      ClearsSome(a);
      EvenCleared(a);
      EvenCleared(2 * a);
      EvenCleared(4 * a);
    }
  }

  /** From an even number, the jump of the one before it either goes no further than its own
      or clears at least two bits. */
  lemma OddJump(x: nat)
    requires x % 2 == 0 && x > 2 && InvertLowestOne(x - 2) > 0
    ensures var y := InvertLowestOne(InvertLowestOne(x - 2)); y >= InvertLowestOne(x) || Ones(y) + 2 <= Ones(x)
  {
    var a := Residue(x);
    if x == 4 * a + 2 {
      OddJumpTwo(a, x);
    } else if x == 8 * a + 4 {
      OddJumpFour(a, x);
    } else {
      OddJumpEight(a, x);
    }
  }

  lemma Residue(x: nat) returns (a: nat)
    requires x % 2 == 0
    ensures x == 4 * a + 2 || x == 8 * a + 4 || x == 8 * a
  {
    if x % 4 == 2 { a := x / 4; } else { a := x / 8; }
  }

  lemma OddJumpTwo(a: nat, x: nat)
    requires x == 4 * a + 2 && InvertLowestOne(x - 2) > 0
    ensures Ones(InvertLowestOne(InvertLowestOne(x - 2))) + 2 <= Ones(x)
  {
    LowBits(a);
    var z := 4 * a;
    assert InvertLowestOne(x) == z && x - 2 == z;
    ClearsSome(z);
    OnesTwo(x, z);
  }

  lemma OddJumpFour(a: nat, x: nat)
    requires x == 8 * a + 4 && InvertLowestOne(x - 2) > 0
    ensures Ones(InvertLowestOne(InvertLowestOne(x - 2))) + 2 <= Ones(x)
  {
    LowBits(a);
    BelowFour(a);
    OnesTwo(x, 8 * a);
  }

  lemma OddJumpEight(a: nat, x: nat)
    requires x == 8 * a && a > 0
    ensures InvertLowestOne(InvertLowestOne(x - 2)) >= InvertLowestOne(x)
  {
    LowBits(a);
    LowBits(a - 1);
    assert x - 2 == 8 * (a - 1) + 6;
  }

  lemma BelowFour(a: nat)
    ensures InvertLowestOne(8 * a + 2) == 8 * a
  {
    LowBits(2 * a);
  }

  lemma OnesTwo(x: nat, z: nat)
    requires x > 0 && z == InvertLowestOne(x)
    ensures Ones(x) == 1 + Ones(z) && (z > 0 ==> Ones(x) == 2 + Ones(InvertLowestOne(z)))
    ensures z > 0 && InvertLowestOne(z) > 0 ==> Ones(x) == 3 + Ones(InvertLowestOne(InvertLowestOne(z)))
  {
  }

  // ----- Walking back -----

  /** The next height on the way from h to t, as GetAncestor chooses it. */
  function NextHeight(h: nat, t: nat): (r: nat)
    requires t < h
    ensures t <= r < h
  {
    var skip, skipPrev := GetSkipHeight(h), GetSkipHeight(h - 1);
    SkipsBack(h);
    if skip == t || (skip > t && !(skipPrev < skip - 2 && skipPrev >= t)) then skip else h - 1
  }

  /** How many steps it takes. */
  function Steps(h: nat, t: nat): nat
    requires t <= h
    decreases h
  {
    if h == t then 0 else 1 + Steps(NextHeight(h, t), t)
  }

  /** Odd heights jump as far as they can. */
  lemma OddNext(y: nat, t: nat)
    requires y % 2 == 0 && y >= 2 && t < y + 1
    ensures var s := InvertLowestOne(InvertLowestOne(y)) + 1; NextHeight(y + 1, t) == if s >= t then s else y
  {
    var z := InvertLowestOne(y);
    ClearsSome(y);
    if z > 0 { ClearsSome(z); }
    assert GetSkipHeight(y + 1) == InvertLowestOne(z) + 1 && GetSkipHeight(y) == z;
  }

  /** From an even height: its own jump, or one step back and the jump from there. */
  lemma EvenNext(h: nat, t: nat)
    requires h % 2 == 0 && h >= 4 && t < InvertLowestOne(h) && t < h - 1
    ensures var s, y := InvertLowestOne(h), InvertLowestOne(InvertLowestOne(h - 2));
      if y + 1 < s - 2 && y + 1 >= t then NextHeight(h, t) == h - 1 && NextHeight(h - 1, t) == y + 1
      else NextHeight(h, t) == s
  {
    var y := InvertLowestOne(InvertLowestOne(h - 2));
    assert GetSkipHeight(h - 1) == y + 1;
    ClearsSome(h);
    OddNext(h - 2, t);
  }

  // ----- One level down -----

  /** The multiple of 2^k that separates h from t: it lies between them, and clearing its lowest
      one bit leads to t or below. */
  predicate Between(h: nat, t: nat, c: nat, k: nat, base: nat) {
    base == (2 * c + 1) * Pow2(k) && base <= h < base + Pow2(k) && base - Pow2(k) <= t < base
  }

  lemma BaseClears(c: nat, k: nat, base: nat)
    requires base == (2 * c + 1) * Pow2(k)
    ensures 0 < base && InvertLowestOne(base) == base - Pow2(k)
  {
    LowestOneCleared(c, k);
    Distributes(2 * c, Pow2(k));
  }

  lemma Distributes(a: nat, p: nat)
    ensures (a + 1) * p == a * p + p
  {
  }

  lemma BaseEven(c: nat, k: nat, base: nat)
    requires base == (2 * c + 1) * Pow2(k) && k > 0
    ensures base % 2 == 0 && base >= 2
  {
    Twice(2 * c + 1, Pow2(k - 1));
    BaseClears(c, k - 1, (2 * c + 1) * Pow2(k - 1));
  }

  /** Above the base, with x left: the base keeps out of it. */
  lemma AboveBase(c: nat, k: nat, base: nat, x: nat)
    requires base == (2 * c + 1) * Pow2(k) && 0 < x < Pow2(k)
    ensures InvertLowestOne(base + x) == base + InvertLowestOne(x) && InvertLowestOne(x) < x
  {
    ClearsBelow(2 * c + 1, k, x);
    ClearsSome(x);
  }

  lemma EvenCleared2(x: nat)
    requires x % 2 == 0 && x > 0
    ensures InvertLowestOne(x) % 2 == 0
  {
    EvenCleared(x / 2);
  }

  lemma TwoCleared(c: nat, k: nat, base: nat, x: nat, x1: nat, x2: nat)
    requires base == (2 * c + 1) * Pow2(k) && x % 2 == 0 && 0 < x < Pow2(k) && x1 == InvertLowestOne(x) > 0 && x2 == InvertLowestOne(x1)
    ensures InvertLowestOne(base + x) == base + x1 && InvertLowestOne(base + x1) == base + x2 && x2 < x1 < x && x2 % 2 == 0
  {
    AboveBase(c, k, base, x);
    AboveBase(c, k, base, x1);
    EvenCleared2(x);
    EvenCleared2(x1);
  }

  lemma OddNextIs(y: nat, t: nat, z: nat, w: nat)
    requires y % 2 == 0 && y >= 2 && t < y + 1 && z == InvertLowestOne(y) && w == InvertLowestOne(z)
    ensures NextHeight(y + 1, t) == if w + 1 >= t then w + 1 else y
  {
    OddNext(y, t);
  }

  lemma EvenSum(a: nat, b: nat)
    requires a % 2 == 0
    ensures (a + b) % 2 == b % 2
  {
  }

  /** An odd height with two bits above the base clears both. */
  lemma OddAgain(y: nat, t: nat, c: nat, k: nat, base: nat, x: nat, x1: nat, x2: nat)
    requires Between(y, t, c, k, base) && k > 0 && y % 2 == 0 && y == base + x && x > 0 && x1 == InvertLowestOne(x) > 0 && x2 == InvertLowestOne(x1)
    ensures NextHeight(y + 1, t) == base + x2 + 1
  {
    BaseEven(c, k, base);
    EvenSum(base, x);
    TwoCleared(c, k, base, x, x1, x2);
    OddNextIs(y, t, base + x1, base + x2);
  }

  lemma OddAgainBelow(y: nat, t: nat, c: nat, k: nat, base: nat, x: nat, x1: nat, x2: nat)
    requires Between(y, t, c, k, base) && k > 0 && y % 2 == 0 && y == base + x && x > 0 && x1 == InvertLowestOne(x) > 0 && x2 == InvertLowestOne(x1)
    ensures x2 < x && (base + x2) % 2 == 0
  {
    BaseEven(c, k, base);
    EvenSum(base, x);
    TwoCleared(c, k, base, x, x1, x2);
    EvenSum(base, x2);
  }

  /** With one bit or none it ends up at the base or below, or goes one back. */
  lemma OddLast(y: nat, t: nat, c: nat, k: nat, base: nat, x: nat)
    requires Between(y, t, c, k, base) && k > 0 && y % 2 == 0 && y == base + x && (x > 0 ==> InvertLowestOne(x) == 0)
    ensures NextHeight(y + 1, t) <= base || (x > 0 && NextHeight(y + 1, t) == y && InvertLowestOne(y) == base)
  {
    BaseEven(c, k, base);
    BaseClears(c, k, base);
    OddNext(y, t);
    if x > 0 {
      AboveBase(c, k, base, x);
    } else if base > Pow2(k) {
      ClearsSome(base - Pow2(k));
    }
  }

  /** From an odd height above the base. */
  lemma {:induction false} OddDescent(y: nat, t: nat, c: nat, k: nat, base: nat, x: nat) returns (r: nat, n: nat)
    requires Between(y, t, c, k, base) && k > 0 && y % 2 == 0 && y == base + x
    ensures t <= r <= base && n <= Ones(x) + 2 && Steps(y + 1, t) == n + Steps(r, t)
    decreases x
  {
    var x1 := if x > 0 then InvertLowestOne(x) else 0;
    if x1 > 0 {
      var x2 := InvertLowestOne(x1);
      OddAgain(y, t, c, k, base, x, x1, x2);
      OddAgainBelow(y, t, c, k, base, x, x1, x2);
      OnesTwo(x, x1);
      r, n := OddDescent(base + x2, t, c, k, base, x2);
      n := n + 1;
    } else {
      OddLast(y, t, c, k, base, x);
      r, n := NextHeight(y + 1, t), 1;
      if r > base {
        r, n := LastBit(y, t, c, k, base);
        n := n + 1;
        OnesTwo(x, 0);
      }
    }
  }

  /** From an even height with one bit above the base. */
  lemma LastBit(y: nat, t: nat, c: nat, k: nat, base: nat) returns (r: nat, n: nat)
    requires Between(y, t, c, k, base) && k > 0 && y % 2 == 0 && y > base && InvertLowestOne(y) == base
    ensures t <= r <= base && n <= 2 && Steps(y, t) == n + Steps(r, t)
  {
    BaseEven(c, k, base);
    EvenNext(y, t);
    var w := InvertLowestOne(InvertLowestOne(y - 2)) + 1;
    if w < base - 2 && w >= t { r, n := w, 2; } else { r, n := base, 1; }
  }

  /** From an even height above the base. */
  lemma {:induction false} EvenDescent(h: nat, t: nat, c: nat, k: nat, base: nat, x: nat) returns (r: nat, n: nat)
    requires Between(h, t, c, k, base) && k > 0 && h % 2 == 0 && h == base + x
    ensures t <= r <= base && n <= Ones(x) + 2 && Steps(h, t) == n + Steps(r, t)
    decreases x
  {
    if x == 0 {
      r, n := h, 0;
    } else {
      var x1 := InvertLowestOne(x);
      var w := InvertLowestOne(InvertLowestOne(h - 2));
      EvenChoice(h, t, c, k, base, x, x1, w);
      OnesTwo(x, x1);
      if w + 1 < base + x1 - 2 && w + 1 >= t {
        assert Steps(h, t) == 2 + Steps(w + 1, t);
        r, n := Detour(h, t, c, k, base, x, x1, w);
        n := n + 2;
      } else {
        EvenJump(h, t, c, k, base, x, x1);
        r, n := EvenDescent(base + x1, t, c, k, base, x1);
        n := n + 1;
      }
    }
  }

  /** The rest of the way after a detour. */
  lemma Detour(h: nat, t: nat, c: nat, k: nat, base: nat, x: nat, x1: nat, w: nat) returns (r: nat, n: nat)
    requires Between(h, t, c, k, base) && k > 0 && h % 2 == 0 && h == base + x && x > 0 && x1 == InvertLowestOne(x)
    requires w == InvertLowestOne(InvertLowestOne(h - 2)) && t <= w + 1 < base + x1
    ensures t <= r <= base && n <= Ones(x) && Steps(w + 1, t) == n + Steps(r, t)
  {
    if w < base {
      r, n := w + 1, 0;
    } else {
      EvenDetour(h, t, c, k, base, x, x1, w);
      r, n := OddDescent(w, t, c, k, base, w - base);
    }
  }

  lemma EvenChoice(h: nat, t: nat, c: nat, k: nat, base: nat, x: nat, x1: nat, w: nat)
    requires Between(h, t, c, k, base) && k > 0 && h % 2 == 0 && h == base + x && x > 0
    requires x1 == InvertLowestOne(x) && w == InvertLowestOne(InvertLowestOne(h - 2))
    ensures if w + 1 < base + x1 - 2 && w + 1 >= t then NextHeight(h, t) == h - 1 && NextHeight(h - 1, t) == w + 1
      else NextHeight(h, t) == base + x1
  {
    BaseEven(c, k, base);
    AboveBase(c, k, base, x);
    EvenSum(base, x);
    EvenNext(h, t);
  }

  lemma EvenJump(h: nat, t: nat, c: nat, k: nat, base: nat, x: nat, x1: nat)
    requires Between(h, t, c, k, base) && k > 0 && h % 2 == 0 && h == base + x && x > 0 && x1 == InvertLowestOne(x)
    ensures x1 < x && (base + x1) % 2 == 0
  {
    BaseEven(c, k, base);
    EvenSum(base, x);
    ClearsSome(x);
    EvenCleared2(x);
    EvenSum(base, x1);
  }

  /** The way round by the odd height clears two bits. */
  lemma EvenDetour(h: nat, t: nat, c: nat, k: nat, base: nat, x: nat, x1: nat, w: nat)
    requires Between(h, t, c, k, base) && k > 0 && h % 2 == 0 && h == base + x && x > 0 && x1 == InvertLowestOne(x)
    requires w == InvertLowestOne(InvertLowestOne(h - 2)) && base <= w < base + x1
    ensures w < h && w % 2 == 0 && Ones(w - base) + 2 <= Ones(x)
  {
    BaseEven(c, k, base);
    BaseClears(c, k, base);
    EvenSum(base, x);
    ClearsSome(x);
    assert x > 2 by { DetourFar(c, k, base, x, w); }
    AboveBase(c, k, base, x - 2);
    var v := InvertLowestOne(x - 2);
    DetourTwo(c, k, base, x, v, w);
    OddJump(x);
  }

  lemma DetourFar(c: nat, k: nat, base: nat, x: nat, w: nat)
    requires base == (2 * c + 1) * Pow2(k) && k > 0 && x % 2 == 0 && x > 0 && w == InvertLowestOne(InvertLowestOne(base + x - 2)) && base <= w
    ensures x > 2
  {
    BaseClears(c, k, base);
    if x == 2 && base - Pow2(k) > 0 { ClearsSome(base - Pow2(k)); }
  }

  lemma DetourTwo(c: nat, k: nat, base: nat, x: nat, v: nat, w: nat)
    requires base == (2 * c + 1) * Pow2(k) && k > 0 && x % 2 == 0 && 2 < x < Pow2(k) && v == InvertLowestOne(x - 2)
    requires InvertLowestOne(base + x - 2) == base + v && w == InvertLowestOne(base + v) && base <= w
    ensures v > 0 && w == base + InvertLowestOne(v) && w % 2 == 0
  {
    BaseClears(c, k, base);
    BaseEven(c, k, base);
    EvenCleared2(x - 2);
    ClearsSome(x - 2);
    if v > 0 {
      AboveBase(c, k, base, v);
      EvenCleared2(v);
      EvenSum(base, InvertLowestOne(v));
    }
  }

  /** From any height above the base the walk gets down to it, or past it, in a number of steps
      that grows with the number of bits. */
  lemma Descent(h: nat, t: nat, c: nat, k: nat, base: nat) returns (r: nat, n: nat)
    requires Between(h, t, c, k, base)
    ensures t <= r <= base && n <= k + 2 && Steps(h, t) == n + Steps(r, t)
  {
    if k == 0 {
      r, n := h, 0;
    } else if h % 2 == 0 {
      OnesAtMost(h - base, k);
      r, n := EvenDescent(h, t, c, k, base, h - base);
    } else {
      OddBetween(h, t, c, k, base);
      OnesAtMost(h - 1 - base, k);
      r, n := OddDescent(h - 1, t, c, k, base, h - 1 - base);
    }
  }

  lemma OddBetween(h: nat, t: nat, c: nat, k: nat, base: nat)
    requires Between(h, t, c, k, base) && k > 0 && h % 2 == 1
    ensures Between(h - 1, t, c, k, base) && (h - 1) % 2 == 0
  {
    BaseEven(c, k, base);
    OddAbove(h, base);
  }

  lemma OddAbove(h: nat, base: nat)
    requires base <= h && base % 2 == 0 && h % 2 == 1
    ensures base <= h - 1 && (h - 1) % 2 == 0
  {
  }

  // ----- All levels -----

  /** Within a block of 2^k heights no walk takes more than k * (k + 5) / 2 steps. */
  lemma {:induction false} StepsInBlock(h: nat, t: nat, c: nat, k: nat)
    requires c * Pow2(k) <= t <= h < (c + 1) * Pow2(k)
    ensures 2 * Steps(h, t) <= k * (k + 5)
    decreases k
  {
    Distributes(c, Pow2(k));
    if k > 0 {
      var p, base := Pow2(k - 1), (2 * c + 1) * Pow2(k - 1);
      Halves(c, p);
      if h < base {
        StepsInBlock(h, t, 2 * c, k - 1);
        Grows(k);
      } else if t >= base {
        StepsInBlock(h, t, 2 * c + 1, k - 1);
        Grows(k);
      } else {
        var r, n := Descent(h, t, c, k - 1, base);
        if r == base { r, n := NextHeight(base, t), n + 1; }
        StepsInBlock(r, t, 2 * c, k - 1);
        Grows(k);
      }
    }
  }

  lemma Halves(c: nat, p: nat)
    ensures c * (2 * p) == (2 * c) * p && (2 * c + 1) * p == (2 * c) * p + p
    ensures (c + 1) * (2 * p) == (2 * c + 1) * p + p && (2 * c + 1 + 1) * p == (2 * c + 1) * p + p
  {
  }

  lemma Grows(k: nat)
    requires k > 0
    ensures (k - 1) * (k + 4) + 2 * (k + 2) == k * (k + 5)
  {
  }

  /** Walking back from a height below 2^k takes at most k * (k + 5) / 2 steps. */
  lemma StepsAtMost(h: nat, t: nat, k: nat)
    requires t <= h < Pow2(k)
    ensures 2 * Steps(h, t) <= k * (k + 5)
  {
    StepsInBlock(h, t, 0, k);
  }
}
