/** Fixed-width big integers (src/arith_uint256.h, src/arith_uint256.cpp): loops over an array
    of 32-bit limbs, against integers. The width is the length of the array, as the source is
    generic in it; 64-bit intermediate values are shown to fit where they are formed. */
module ArithUint {
  import opened Bits
  import opened Limbs
  import opened ArithSteps
  import opened ArithShifts
  import opened ArithDivision

  class BaseUint {
    const pn: array<Limb>

    ghost function Value(): nat
      reads pn
    {
      Val(pn[..])
    }

    /** One more than the largest value. */
    ghost function Modulus(): nat {
      P(pn.Length)
    }

    constructor (width: nat)
      ensures pn.Length == width && fresh(pn) && Value() == 0
    {
      pn := new Limb[width](_ => 0);
      new;
      ValZero(pn[..]);
    }

    constructor Copy(b: BaseUint)
      ensures pn.Length == b.pn.Length && fresh(pn) && pn[..] == b.pn[..]
    {
      pn := new Limb[b.pn.Length](i requires 0 <= i < b.pn.Length reads b.pn => b.pn[i]);
    }

    /** Sets every limb to zero. */
    method Clear()
      modifies pn
      ensures Value() == 0 && Zero(pn[..])
    {
      var i := 0;
      while i < pn.Length
        invariant 0 <= i <= pn.Length && forall j | 0 <= j < i :: pn[j] == 0
      {
        pn[i] := 0;
        i := i + 1;
      }
      ValZero(pn[..]);
    }

    /** *this += b */
    method Add(b: BaseUint)
      requires b.pn.Length == pn.Length
      modifies pn
      ensures Value() == (old(Value()) + old(b.Value())) % Modulus()
    {
      ghost var was, bs := pn[..], b.pn[..];
      var carry, i := 0, 0;
      while i < pn.Length
        invariant 0 <= i <= pn.Length && 0 <= carry <= 1
        invariant forall j | i <= j < pn.Length :: pn[j] == was[j] && b.pn[j] == bs[j]
        invariant Holds(pn[..i], carry, Val(was[..i]) + Val(bs[..i]))
      {
        var n := carry + pn[i] + b.pn[i];
        AddStep(pn[..i], was, bs, carry, n, i);
        PutNext(pn, i, n % BASE);
        carry := n / BASE;
        i := i + 1;
      }
      assert pn[..i] == pn[..] && was[..i] == was && bs[..i] == bs;
      CarryEnds(pn[..], carry, Val(was) + Val(bs));
    }

    /** ++*this */
    method Increment()
      requires pn.Length > 0
      modifies pn
      ensures Value() == (old(Value()) + 1) % Modulus()
    {
      ghost var v := Value();
      ValBound(pn[..]);
      var i := 0;
      var more := true;
      while more
        invariant 0 <= i < pn.Length
        invariant more ==> Value() + P(i) == v + 1
        invariant !more ==> Value() == (v + 1) % Modulus()
        decreases pn.Length - i, more
      {
        UpNext(pn[..], i, (pn[i] + 1) % BASE, v);
        ghost var s := pn[..];
        pn[i] := (pn[i] + 1) % BASE;
        assert pn[..] == s[i := pn[i]];
        if pn[i] == 0 && i < pn.Length - 1 {
          i := i + 1;
        } else {
          more := false;
        }
      }
    }

    /** --*this */
    method Decrement()
      requires pn.Length > 0
      modifies pn
      ensures Value() == (old(Value()) - 1) % Modulus()
    {
      ghost var v := Value();
      ValBound(pn[..]);
      var i := 0;
      var more := true;
      while more
        invariant 0 <= i < pn.Length
        invariant more ==> Value() == v + P(i) - 1
        invariant !more ==> Value() == (v - 1) % Modulus()
        decreases pn.Length - i, more
      {
        DownNext(pn[..], i, (pn[i] - 1) % BASE, v);
        ghost var s := pn[..];
        pn[i] := (pn[i] - 1) % BASE;
        assert pn[..] == s[i := pn[i]];
        if pn[i] == BASE - 1 && i < pn.Length - 1 {
          i := i + 1;
        } else {
          more := false;
        }
      }
    }

    /** ~*this */
    method Complemented() returns (ret: BaseUint)
      ensures fresh(ret) && fresh(ret.pn) && ret.pn.Length == pn.Length
      ensures ret.Value() == Modulus() - 1 - Value()
    {
      ret := new BaseUint(pn.Length);
      var i := 0;
      while i < pn.Length
        invariant 0 <= i <= pn.Length
        invariant Val(ret.pn[..i]) + Val(pn[..][..i]) == P(i) - 1
      {
        NotStep(ret.pn[..i], pn[..], i);
        PutNext(ret.pn, i, BASE - 1 - pn[i]);
        i := i + 1;
      }
      assert pn[..][..i] == pn[..] && ret.pn[..i] == ret.pn[..];
    }

    /** -*this */
    method Negated() returns (ret: BaseUint)
      requires pn.Length > 0
      ensures fresh(ret) && fresh(ret.pn) && ret.pn.Length == pn.Length
      ensures ret.Value() == (Modulus() - Value()) % Modulus()
    {
      ret := Complemented();
      ret.Increment();
    }

    /** *this -= b */
    method Subtract(b: BaseUint)
      requires b.pn.Length == pn.Length > 0
      modifies pn
      ensures Value() == (old(Value()) - old(b.Value())) % Modulus()
    {
      ValBound(pn[..]);
      ValBound(b.pn[..]);
      Complement(Value(), b.Value(), Modulus());
      var neg := b.Negated();
      Add(neg);
    }

    /** *this *= b32 */
    method MultiplySmall(b32: Limb)
      modifies pn
      ensures Value() == (b32 * old(Value())) % Modulus()
    {
      ghost var was := pn[..];
      var carry: Limb, i := 0, 0;
      assert b32 * Val(was[..0]) == 0;
      while i < pn.Length
        invariant 0 <= i <= pn.Length
        invariant forall j | i <= j < pn.Length :: pn[j] == was[j]
        invariant Holds(pn[..i], carry, b32 * Val(was[..i]))
      {
        ProductFits(b32, pn[i], carry, 0);
        Products(b32, pn[i]);
        var n := carry + b32 * pn[i];
        assert n < 0x1_0000_0000_0000_0000;
        MulSmallStep(pn[..i], was, b32, carry, n, i);
        PutNext(pn, i, n % BASE);
        carry := n / BASE;
        i := i + 1;
      }
      assert pn[..i] == pn[..] && was[..i] == was;
      CarryEnds(pn[..], carry, b32 * Val(was));
    }

    /** One limb of the product, added at place k. */
    method MultiplyLimb(b: BaseUint, x: Limb, i: nat, k: nat, carry: Limb) returns (carry': Limb)
      requires i < b.pn.Length && k < pn.Length
      modifies pn
      ensures var n := Cell(carry, old(pn[k]), x, old(b.pn[i]));
        pn[..k + 1] == old(pn[..k]) + [n % BASE] && carry' == n / BASE
      ensures forall h | 0 <= h < pn.Length && h != k :: pn[h] == old(pn[h])
    {
      ProductFits(x, b.pn[i], carry, pn[k]);
      Products(x, b.pn[i]);
      var n := carry + pn[k] + x * b.pn[i];
      assert n < 0x1_0000_0000_0000_0000;
      PutNext(pn, k, n % BASE);
      carry' := n / BASE;
    }

    /** The inner loop of *=: adds x times b from place j on. When b is this object, which has
        been cleared, there is nothing to add. */
    method AddRow(b: BaseUint, x: Limb, j: nat) returns (carry: Limb)
      requires b.pn.Length == pn.Length && j < pn.Length
      requires b.pn == pn ==> Zero(pn[..])
      modifies pn
      ensures b.pn != pn ==> Holds(pn[..], carry, old(Value()) + (x * Val(b.pn[..pn.Length - j])) * P(j))
      ensures b.pn == pn ==> Zero(pn[..])
    {
      ghost var t, bs := pn[..], b.pn[..];
      carry := 0;
      var i, k := 0, j;
      RowStarts(t, bs, x, j);
      while k < pn.Length
        invariant 0 <= i && k == i + j <= pn.Length
        invariant forall h | k <= h < pn.Length :: pn[h] == t[h]
        invariant b.pn != pn ==> b.pn[..] == bs && Row(pn[..k], carry, t, bs, x, j, i)
        invariant b.pn == pn ==> carry == 0 && Zero(pn[..])
      {
        if b.pn != pn { RowTurn(pn[..k], t, bs, x, j, i, carry); }
        carry := MultiplyLimb(b, x, i, k, carry);
        i, k := i + 1, k + 1;
      }
      assert pn[..k] == pn[..] && t[..k] == t && (b.pn != pn ==> bs[..i] == b.pn[..i]);
    }

    /** *this *= b, exact unless b is this very object: then it is cleared before it is read. */
    method Multiply(b: BaseUint)
      requires b.pn.Length == pn.Length
      modifies pn
      ensures b.pn != pn ==> Value() == (old(Value()) * old(b.Value())) % Modulus()
      ensures b.pn == pn ==> Value() == 0
    {
      var a := pn[..];
      Clear();
      ghost var bs := b.pn[..];
      ghost var lost: int := 0;
      assert Val(a[..0]) * Val(bs) == 0;
      var j := 0;
      while j < pn.Length
        invariant 0 <= j <= pn.Length
        invariant b.pn != pn ==> b.pn[..] == bs && Value() + lost * P(pn.Length) == Val(a[..j]) * Val(bs)
        invariant b.pn == pn ==> Zero(pn[..])
      {
        ghost var t := pn[..];
        var carry := AddRow(b, a[j], j);
        if b.pn != pn {
          assert b.pn[..pn.Length - j] == bs[..pn.Length - j];
          lost := MulRowEnds(pn[..], t, a, bs, j, carry, lost);
        }
        j := j + 1;
      }
      assert a[..j] == a;
      if b.pn != pn {
        ValBound(pn[..]);
        Modulo(Value(), lost, Modulus(), Val(a) * Val(bs));
      } else {
        ValZero(pn[..]);
      }
    }

    /** pn[j] |= x, for bits that are not yet set. */
    method OrAt(j: nat, x: nat)
      requires j < pn.Length && Or(pn[j], x) == pn[j] + x < BASE
      modifies pn
      ensures pn[..] == old(pn[..])[j := old(pn[j]) + x]
    {
      pn[j] := Or(pn[j], x);
    }

    /** One turn of <<=: hi and lo are the limb's parts, shifted. */
    method ShiftLimbLeft(at: nat, s: nat, hi: nat, lo: nat)
      requires s < 32 && hi < Pow2(s) <= BASE && lo % Pow2(s) == 0 && lo + Pow2(s) <= BASE
      requires LeftShape(pn[..], at, s)
      modifies pn
      ensures pn[..] == LeftTurn(old(pn[..]), at, s, hi, lo)
    {
      if at + 1 < pn.Length && s != 0 {
        OrZero(hi);
        OrAt(at + 1, hi);
      }
      if at < pn.Length {
        OrIsSum(lo, pn[at], s);
        OrAt(at, lo);
      }
    }

    /** *this <<= shift */
    method ShiftLeft(shift: nat)
      modifies pn
      ensures Value() == (old(Value()) * Pow2(shift)) % Modulus()
    {
      var a := pn[..];
      Clear();
      var k, s := shift / 32, shift % 32;
      ghost var lost: int := 0;
      LeftStarts(pn[..], a, k, s);
      var i := 0;
      while i < pn.Length
        invariant 0 <= i <= pn.Length
        invariant LeftShape(pn[..], i + k, s) && LeftVal(pn[..], a, i, Pow2(s) * P(k), lost)
      {
        ghost var h, l := SplitLeft(a[i], s);
        ghost var t := pn[..];
        Halves(s);
        var hi, lo := a[i] / Pow2(32 - s), (a[i] * Pow2(s)) % BASE;
        ShiftLimbLeft(i + k, s, hi, lo);
        lost := LeftStep(t, a, i, k, s, hi, lo, lost);
        LeftShapes(t, i + k, s, hi, lo);
        i := i + 1;
      }
      LeftEnds(pn[..], a, k, s, lost);
    }

    /** One turn of >>= at or above the first limb kept. */
    method ShiftLimbRight(at: nat, s: nat, hi: nat, low: nat)
      requires s < 32 && hi < Pow2(32 - s) <= BASE && low % Pow2(32 - s) == 0 && low + Pow2(32 - s) <= BASE
      requires at < pn.Length && RightShape(pn[..], at, s) && (s == 0 ==> low == 0)
      modifies pn
      ensures at == 0 ==> pn[..] == Deposit(old(pn[..]), 0, hi)
      ensures at > 0 ==> pn[..] == RightTurn(old(pn[..]), at, s, hi, low)
    {
      if at >= 1 && s != 0 {
        OrIsSum(low, pn[at - 1], 32 - s);
        OrAt(at - 1, low);
      }
      OrZero(hi);
      OrAt(at, hi);
    }

    /** *this >>= shift */
    method ShiftRight(shift: nat)
      modifies pn
      ensures Value() == old(Value()) / Pow2(shift)
    {
      var a := pn[..];
      Clear();
      var k, s := shift / 32, shift % 32;
      ghost var r: int := 0;
      RightStart(pn[..], a, k, s);
      var i := 0;
      while i < pn.Length
        invariant 0 <= i <= pn.Length
        invariant RightShape(pn[..], i - k, s) && RightVal(pn[..], a, i, Pow2(s) * P(k), r)
      {
        r := MoveRight(a, i, k, s, r);
        i := i + 1;
      }
      RightEnds(pn[..], a, k, s, r);
    }

    /** Moves one limb to its place, or drops it. */
    method MoveRight(a: seq<Limb>, i: nat, k: nat, s: nat, ghost r: int) returns (ghost r': int)
      requires i < pn.Length == |a| && s < 32
      requires RightShape(pn[..], i - k, s) && RightVal(pn[..], a, i, Pow2(s) * P(k), r)
      modifies pn
      ensures RightShape(pn[..], i + 1 - k, s) && RightVal(pn[..], a, i + 1, Pow2(s) * P(k), r')
    {
      ghost var h, lo := SplitRight(a[i], s);
      ghost var t := pn[..];
      r' := r;
      Halves(32 - s);
      if i - k >= 0 {
        var hi, low := a[i] / Pow2(s), (a[i] * Pow2(32 - s)) % BASE;
        ShiftLimbRight(i - k, s, hi, low);
        if i == k {
          r' := RightStarts(t, a, k, s, hi, lo, r);
        } else {
          RightStep(t, a, i, k, s, hi, lo, low, r);
          RightShapes(t, i - k, s, hi, low);
        }
      } else {
        RightSkips(t, a, i, k, s, r);
        r' := Val(a[..i + 1]);
      }
    }

    /** -1, 0 or 1 as this is less than, equal to or greater than b. */
    method CompareTo(b: BaseUint) returns (r: int)
      requires b.pn.Length == pn.Length
      ensures r == if Value() < b.Value() then -1 else if Value() == b.Value() then 0 else 1
    {
      var i := pn.Length - 1;
      while i >= 0
        invariant -1 <= i < pn.Length && forall j | i < j < pn.Length :: pn[j] == b.pn[j]
      {
        if pn[i] < b.pn[i] {
          ValLess(pn[..], b.pn[..], i);
          return -1;
        }
        if pn[i] > b.pn[i] {
          ValLess(b.pn[..], pn[..], i);
          return 1;
        }
        i := i - 1;
      }
      assert pn[..] == b.pn[..];
      return 0;
    }

    /** The position of the highest bit set in a limb that is not zero. */
    static method TopBitOf(x: Limb) returns (r: nat)
      requires x != 0
      ensures r < 32 && Pow2(r) <= x < Pow2(r + 1)
    {
      Pow32();
      var bits := 31;
      while bits > 0
        invariant 0 <= bits <= 31 && x < Pow2(bits + 1)
      {
        AndPow2(x, bits);
        TopBit(x, bits);
        if And(x, Pow2(bits)) != 0 { return bits; }
        bits := bits - 1;
      }
      return 0;
    }

    /** The position of the highest bit set plus one, or zero if the value is zero. */
    method BitCount() returns (n: nat)
      ensures IsBitCount(Value(), n) && n <= 32 * pn.Length
    {
      var pos := pn.Length - 1;
      while pos >= 0
        invariant -1 <= pos < pn.Length && forall j | pos < j < pn.Length :: pn[j] == 0
      {
        if pn[pos] != 0 {
          var bits := TopBitOf(pn[pos]);
          TopLimb(pn[..], pos, bits);
          return 32 * pos + bits + 1;
        }
        pos := pos - 1;
      }
      ValZero(pn[..]);
      return 0;
    }

    /** The low 64 bits. */
    method GetLow64() returns (r: nat)
      requires pn.Length >= 2
      ensures r == Value() % 0x1_0000_0000_0000_0000
    {
      LowLimbs(pn[..]);
      r := Or(pn[0], pn[1] * BASE);
    }

    /** *this = b, for a 64-bit b. */
    method Assign(b: nat)
      requires b < 0x1_0000_0000_0000_0000 && pn.Length >= 2
      modifies pn
      ensures Value() == b
    {
      pn[0] := b % BASE;
      pn[1] := b / BASE;
      var i := 2;
      while i < pn.Length
        invariant 2 <= i <= pn.Length && pn[0] == b % BASE && pn[1] == b / BASE
        invariant forall j | 2 <= j < i :: pn[j] == 0
      {
        pn[i] := 0;
        i := i + 1;
      }
      TwoLimbs(pn[..]);
    }

    /** The shift and subtract step of /=. */
    method DivideBit(num: BaseUint, div: BaseUint, shift: nat, ghost d: nat, ghost v: nat)
      requires pn.Length == num.pn.Length == div.pn.Length > 0 && shift < 32 * pn.Length
      requires num.pn != pn && div.pn != pn && num.pn != div.pn
      requires Pending(pn[..], num.Value(), div.Value(), shift, d, v)
      modifies pn, num.pn
      ensures Settled(pn[..], num.Value(), div.Value(), shift, d, v)
    {
      ghost var s := pn[..];
      ghost var n := num.Value();
      var c := num.CompareTo(div);
      if c >= 0 {
        ValBound(num.pn[..]);
        DivUnique(num.Value() - div.Value(), num.Modulus(), 0, num.Value() - div.Value());
        num.Subtract(div);
        BitFree(pn[shift / 32], shift % 32);
        OrAt(shift / 32, Pow2(shift % 32));
        BitSet(s, shift, n, div.Value(), d, v);
      } else {
        BitClear(s, shift, n, div.Value(), d, v);
      }
    }

    /** *this /= b. Division by zero is refused, after this has been cleared; otherwise this
        becomes the floor quotient and num keeps the remainder. */
    method Divide(b: BaseUint) returns (ok: bool, num: BaseUint)
      requires b.pn.Length == pn.Length > 0
      modifies pn
      ensures fresh(num) && fresh(num.pn)
      ensures ok <==> old(b.Value()) != 0
      ensures ok ==> old(b.Value()) != 0 && Value() == old(Value()) / old(b.Value()) && num.Value() == old(Value()) % old(b.Value())
      ensures !ok ==> Value() == 0
    {
      ghost var v, d := Value(), b.Value();
      var div := new BaseUint.Copy(b);
      num := new BaseUint.Copy(this);
      Clear();
      var numBits := num.BitCount();
      var divBits := div.BitCount();
      if divBits == 0 { return false, num; }
      ok := true;
      if divBits > numBits {
        Pow2Mono(numBits, divBits - 1);
        DivUnique(v, d, 0, v);
        return;
      }
      var shift := numBits - divBits;
      Aligned(v, d, numBits, divBits, pn.Length);
      div.ShiftLeft(shift);
      DivideStarts(pn[..], v, d, div.Value(), shift);
      LongDivide(num, div, shift, d, v);
    }

    /** The loop of /=, one bit of the quotient after the other. */
    method LongDivide(num: BaseUint, div: BaseUint, from: nat, ghost d: nat, ghost v: nat)
      requires pn.Length == num.pn.Length == div.pn.Length > 0 && from < 32 * pn.Length
      requires num.pn != pn && div.pn != pn && num.pn != div.pn
      requires d > 0 && Pending(pn[..], num.Value(), div.Value(), from, d, v)
      modifies pn, num.pn, div.pn
      ensures Value() == v / d && num.Value() == v % d
    {
      var shift: int := from;
      while shift >= 0
        invariant -1 <= shift < 32 * pn.Length
        invariant shift >= 0 ==> Pending(pn[..], num.Value(), div.Value(), shift, d, v)
        invariant shift < 0 ==> Finished(pn[..], num.Value(), d, v)
      {
        ghost var dv := div.Value();
        DivideBit(num, div, shift, d, v);
        div.ShiftRight(1);
        NextBit(pn[..], num.Value(), dv, div.Value(), shift, d, v);
        shift := shift - 1;
      }
      FloorFound(pn[..], num.Value(), d, v);
    }
  }

  /** Writes the limb after those already done. */
  method PutNext(pn: array<Limb>, i: nat, x: Limb)
    requires i < pn.Length
    modifies pn
    ensures forall j | 0 <= j < pn.Length && j != i :: pn[j] == old(pn[j])
    ensures pn[..i + 1] == old(pn[..i]) + [x]
  {
    pn[i] := x;
  }

  predicate Zero(s: seq<Limb>) {
    forall h | 0 <= h < |s| :: s[h] == 0
  }

  lemma LeftStarts(t: seq<Limb>, a: seq<Limb>, k: nat, s: nat)
    requires Zero(t)
    ensures LeftShape(t, k, s) && LeftVal(t, a, 0, Pow2(s) * P(k), 0)
  {
    ValZero(t);
    assert Val(a[..0]) * (Pow2(s) * P(k)) == 0;
  }

  lemma RightStart(t: seq<Limb>, a: seq<Limb>, k: nat, s: nat)
    requires Zero(t) && s < 32
    ensures RightShape(t, 0 - k, s) && RightVal(t, a, 0, Pow2(s) * P(k), 0)
  {
    ValZero(t);
    assert Val(t) * (Pow2(s) * P(k)) == 0;
    MulMono(Pow2(s), 1, P(k));
  }

  function Cell(carry: Limb, y: Limb, x: Limb, b: Limb): (n: nat)
    ensures x == 0 || b == 0 ==> n == carry + y
  {
    Products(x, b);
    carry + y + x * b
  }

  /** The row is done up to place i + j. */
  predicate Row(s: seq<Limb>, carry: nat, t: seq<Limb>, b: seq<Limb>, x: Limb, j: nat, i: nat)
    requires |s| <= |t| && i <= |b|
  {
    Holds(s, carry, Val(t[..|s|]) + (x * Val(b[..i])) * P(j))
  }

  lemma RowStarts(t: seq<Limb>, b: seq<Limb>, x: Limb, j: nat)
    requires j <= |t|
    ensures Row(t[..j], 0, t, b, x, j, 0)
  {
    assert x * Val(b[..0]) == 0;
  }

  lemma RowTurn(s: seq<Limb>, t: seq<Limb>, b: seq<Limb>, x: Limb, j: nat, i: nat, c: Limb)
    requires |s| == i + j < |t| && i < |b| && Row(s, c, t, b, x, j, i)
    ensures var n := Cell(c, t[|s|], x, b[i]); Row(s + [n % BASE], n / BASE, t, b, x, j, i + 1)
  {
    MulRowStep(s, t, b, x, j, i, c, Cell(c, t[i + j], x, b[i]));
  }
}
