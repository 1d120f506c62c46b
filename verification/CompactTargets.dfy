/** The compact format of difficulty targets (src/arith_uint256.h, src/arith_uint256.cpp): an
    8-bit exponent of base 256, a sign bit and a 23-bit mantissa. */
module CompactTargets {
  import opened Bits
  import opened Limbs
  import opened ArithSteps
  import opened ArithUint

  const SIGN: nat := 0x80_0000       // also one more than the largest mantissa
  const SIZE_UNIT: nat := 0x100_0000

  /** How many bits v takes. */
  function BitLength(v: nat): nat {
    if v == 0 then 0 else 1 + BitLength(v / 2)
  }

  function Bytes(v: nat): nat { (BitLength(v) + 7) / 8 }

  function Product(a: nat, b: nat): nat {
    Products(a, b);
    a * b
  }

  function Quotient(a: nat, b: nat): nat
    requires b > 0
  {
    DivNat(a, b);
    a / b
  }

  /** v over 256 to the e - 3, rounded down. */
  function Scale(v: nat, e: nat): nat {
    if e <= 3 then Product(v, Pow2(8 * (3 - e))) else Quotient(v, Pow2(8 * (e - 3)))
  }

  /** m times 256 to the e - 3, rounded down. */
  function Unscale(m: nat, e: nat): nat {
    if e <= 3 then Quotient(m, Pow2(8 * (3 - e))) else Product(m, Pow2(8 * (e - 3)))
  }

  /** The bytes of v, or one more if its leading bit would be taken for the sign. */
  function Exponent(v: nat): nat {
    if Scale(v, Bytes(v)) >= SIGN then Bytes(v) + 1 else Bytes(v)
  }

  function Compact(v: nat, neg: bool): nat {
    var e := Exponent(v);
    var m := Scale(v, e);
    m + e * SIZE_UNIT + if neg && m != 0 then SIGN else 0
  }

  // ----- Fields of a compact number -----

  function SizeOf(c: nat): nat { c / SIZE_UNIT }
  function MantissaOf(c: nat): nat { c % SIGN }
  predicate SignOf(c: nat) { c / SIGN % 2 == 1 }

  /** The mantissa once it has been scaled down, for small exponents. */
  function WordOf(c: nat): nat {
    if SizeOf(c) <= 3 then Unscale(MantissaOf(c), SizeOf(c)) else MantissaOf(c)
  }

  predicate Overflows(c: nat) {
    var w, size := WordOf(c), SizeOf(c);
    w != 0 && (size > 34 || (w > 0xff && size > 33) || (w > 0xffff && size > 32))
  }

  lemma Powers()
    ensures Pow2(8) == 256 && Pow2(16) == 0x1_0000 && Pow2(23) == SIGN && Pow2(24) == SIZE_UNIT && Pow2(32) == BASE
  {
    assert Pow2(8) == 256;
    Pow2Add(8, 8);
    assert Pow2(7) == 128;
    Pow2Add(16, 7);
    Pow2Add(16, 8);
    Pow32();
  }

  // ----- Overflow -----

  /** m < 256^a means that m * 256^b stays below 256^(a + b). */
  lemma Fits(m: nat, a: nat, b: nat)
    requires m < Pow2(a)
    ensures m * Pow2(b) < Pow2(a + b)
  {
    Pow2Add(a, b);
    MulMono(Pow2(b), m + 1, Pow2(a));
    assert Pow2(b) * (m + 1) == m * Pow2(b) + Pow2(b);
  }

  lemma TooBig(m: nat, a: nat, b: nat)
    requires m >= Pow2(a)
    ensures m * Pow2(b) >= Pow2(a + b)
  {
    Pow2Add(a, b);
    MulMono(Pow2(b), Pow2(a), m);
  }

  /** The overflow flag is exact: it is set exactly when mantissa * 256^(exponent - 3) does
      not fit 256 bits. */
  lemma OverflowExact(c: nat)
    requires c < BASE
    ensures Overflows(c) <==> SizeOf(c) > 3 && MantissaOf(c) * Pow2(8 * (SizeOf(c) - 3)) >= Pow2(256)
  {
    var m, size := MantissaOf(c), SizeOf(c);
    Powers();
    if size > 3 { OverflowAbove(m, size); } else { SmallWord(m, size); }
  }

  predicate TooLarge(m: nat, size: nat) {
    m != 0 && (size > 34 || (m > 0xff && size > 33) || (m > 0xffff && size > 32))
  }

  lemma OverflowAbove(m: nat, size: nat)
    requires size > 3 && m < SIGN
    ensures TooLarge(m, size) <==> m * Pow2(8 * (size - 3)) >= Pow2(256)
  {
    if TooLarge(m, size) { OverflowReached(m, size, 8 * (size - 3)); } else if m > 0 { SmallEnough(m, size); }
  }

  lemma OverflowReached(m: nat, size: nat, b: nat)
    requires TooLarge(m, size) && b == 8 * (size - 3)
    ensures m * Pow2(b) >= Pow2(256)
  {
    Powers();
    if size > 34 {
      TooBig(m, 0, b);
      Pow2Mono(256, b);
    } else if size > 33 {
      TooBig(m, 8, b);
      Pow2Mono(256, 8 + b);
    } else {
      TooBig(m, 16, b);
      Pow2Mono(256, 16 + b);
    }
  }

  lemma SmallEnough(m: nat, size: nat)
    requires 3 < size <= 34 && m < SIGN && (m > 0xff ==> size <= 33) && (m > 0xffff ==> size <= 32)
    ensures m * Pow2(8 * (size - 3)) < Pow2(256)
  {
    var b := 8 * (size - 3);
    Powers();
    var a := if m <= 0xff then 8 else if m <= 0xffff then 16 else 24;
    Fits(m, a, b);
    Pow2Mono(a + b, 256);
  }

  lemma SmallWord(m: nat, size: nat)
    requires size <= 3 && m < SIGN
    ensures Unscale(m, size) <= m
  {
    var p := Pow2(8 * (3 - size));
    DivNat(m, p);
    MulMono(m / p, 1, p);
    assert (m / p) * p == p * (m / p);
  }

  // ----- The round trip -----

  lemma {:induction false} BitLengthIs(v: nat)
    ensures IsBitCount(v, BitLength(v))
  {
    if v > 0 { BitLengthIs(v / 2); }
  }

  lemma BitLengthUnique(v: nat, n: nat)
    requires IsBitCount(v, n)
    ensures n == BitLength(v)
  {
    BitLengthIs(v);
    CountOrder(v, n, BitLength(v));
    CountOrder(v, BitLength(v), n);
  }

  lemma CountOrder(v: nat, n: nat, b: nat)
    requires IsBitCount(v, n) && IsBitCount(v, b)
    ensures n <= b
  {
    if b < n { Pow2Mono(b, n - 1); }
  }

  /** v without its low e - 3 bytes. */
  function Truncated(v: nat, e: nat): nat {
    if e <= 3 then v else var p := Pow2(8 * (e - 3)); DivNat(v, p); v - v % p
  }

  lemma UnscaleScale(v: nat, e: nat)
    ensures Unscale(Scale(v, e), e) == Truncated(v, e)
  {
    if e <= 3 {
      var p := Pow2(8 * (3 - e));
      assert v * p == p * v;
      DivUnique(v * p, p, v, 0);
    }
  }

  /** Dropping low bytes never goes below a multiple of the same power. */
  lemma FloorMultiple(v: nat, p: nat, k: nat)
    requires p > 0 && v >= p * k
    ensures v - v % p >= p * k
  {
    DivNat(v, p);
    DivBounds(v, p, k);
    MulMono(p, k, v / p);
  }

  lemma ByteBounds(v: nat)
    requires v > 0
    ensures Bytes(v) > 0 && 8 * (Bytes(v) - 1) < BitLength(v) <= 8 * Bytes(v)
  {
  }

  /** A number lies between the powers of its bytes. */
  lemma Leading(v: nat)
    requires v > 0
    ensures Bytes(v) > 0 && Pow2(8 * (Bytes(v) - 1)) <= v < Pow2(8 * Bytes(v))
  {
    ByteBounds(v);
    BitLengthIs(v);
    Pow2Mono(8 * (Bytes(v) - 1), BitLength(v) - 1);
    Pow2Mono(BitLength(v), 8 * Bytes(v));
  }

  /** Scaled to its own number of bytes a number has three bytes. */
  lemma ThreeBytes(v: nat)
    ensures Scale(v, Bytes(v)) < SIZE_UNIT
    ensures v > 0 ==> Scale(v, Bytes(v)) >= 0x1_0000
  {
    Powers();
    if v > 0 {
      var k := Bytes(v);
      Leading(v);
      if k <= 3 {
        Fits(v, 8 * k, 8 * (3 - k));
        TooBig(v, 8 * (k - 1), 8 * (3 - k));
      } else {
        Pow2Add(8 * (k - 3), 24);
        Pow2Add(8 * (k - 3), 16);
        DivBounds(v, Pow2(8 * (k - 3)), 0x1_0000);
        DivBounds(v, Pow2(8 * (k - 3)), SIZE_UNIT);
      }
    }
  }

  /** One more byte of exponent is one byte less of mantissa. */
  lemma NextScale(v: nat, e: nat)
    ensures Scale(v, e + 1) == Scale(v, e) / 256
  {
    Powers();
    if e < 3 {
      var p := Pow2(8 * (2 - e));
      Pow2Add(8, 8 * (2 - e));
      assert v * (256 * p) == 256 * (v * p);
    } else {
      Pow2Add(8 * (e - 3), 8);
      DivDiv(v, Pow2(8 * (e - 3)), 256);
    }
  }

  lemma DivDiv(v: nat, p: nat, q: nat)
    requires p > 0 && q > 0
    ensures p * q > 0 && v / (p * q) == (v / p) / q
  {
    var a, b := v / p, v / p / q;
    var r := p * (a % q) + v % p;
    assert v == p * a + v % p && a == q * b + a % q;
    assert p * (q * b + a % q) == (p * q) * b + p * (a % q);
    MulMono(p, a % q + 1, q);
    assert p * (a % q + 1) == p * (a % q) + p;
    assert p * (a % q) >= 0;
    DivUnique(v, p * q, b, r);
  }

  /** The mantissa fits its 23 bits, and is zero only for zero. */
  lemma MantissaFits(v: nat)
    ensures Scale(v, Exponent(v)) < SIGN
    ensures Scale(v, Exponent(v)) == 0 <==> v == 0
  {
    ThreeBytes(v);
    NextScale(v, Bytes(v));
  }

  lemma ExponentBound(v: nat)
    requires v < Pow2(256)
    ensures Exponent(v) <= 33
  {
    if v > 0 {
      BitLengthIs(v);
      if BitLength(v) > 256 { Pow2Mono(256, BitLength(v) - 1); }
    }
  }

  /** The three fields can be read back. */
  lemma Fields(v: nat, neg: bool)
    requires v < Pow2(256)
    ensures Compact(v, neg) < BASE
    ensures SizeOf(Compact(v, neg)) == Exponent(v) && MantissaOf(Compact(v, neg)) == Scale(v, Exponent(v))
    ensures SignOf(Compact(v, neg)) <==> neg && v != 0
  {
    MantissaFits(v);
    ExponentBound(v);
    FieldsOf(Scale(v, Exponent(v)), Exponent(v), neg, Compact(v, neg));
  }

  lemma FieldsOf(m: nat, e: nat, neg: bool, c: nat)
    requires m < SIGN && e < 256 && c == m + e * SIZE_UNIT + if neg && m != 0 then SIGN else 0
    ensures c < BASE && SizeOf(c) == e && MantissaOf(c) == m && (SignOf(c) <==> neg && m != 0)
  {
    Packed(m, e, neg && m != 0);
  }

  lemma Packed(m: nat, e: nat, sign: bool)
    requires m < SIGN && e < 256
    ensures var c := m + e * SIZE_UNIT + if sign then SIGN else 0;
      c < BASE && SizeOf(c) == e && MantissaOf(c) == m && (SignOf(c) <==> sign)
  {
  }

  /** Truncating to the mantissa changes neither the length nor the exponent nor the mantissa. */
  lemma TruncatedAgain(v: nat)
    ensures var t := Truncated(v, Exponent(v));
      t <= v && Exponent(t) == Exponent(v) && Scale(t, Exponent(t)) == Scale(v, Exponent(v))
  {
    var e, k := Exponent(v), Bytes(v);
    if v > 0 && e > 3 {
      TruncatedLength(v, e);
      TruncatedScale(v, e);
      if e == k + 1 { SignStays(v, k); }
    }
  }

  lemma TruncatedLength(v: nat, e: nat)
    requires v > 0 && 3 < e <= Bytes(v) + 1
    ensures Truncated(v, e) <= v && BitLength(Truncated(v, e)) == BitLength(v)
  {
    var n, b := BitLength(v), 8 * (e - 3);
    ByteBounds(v);
    BitLengthIs(v);
    Pow2Add(b, n - 1 - b);
    FloorMultiple(v, Pow2(b), Pow2(n - 1 - b));
    DivNat(v, Pow2(b));
    BitLengthUnique(Truncated(v, e), n);
  }

  lemma TruncatedScale(v: nat, e: nat)
    requires e > 3
    ensures Scale(Truncated(v, e), e) == Scale(v, e)
  {
    var p := Pow2(8 * (e - 3));
    DivUnique(v - v % p, p, v / p, 0);
  }

  lemma SignStays(v: nat, k: nat)
    requires k >= 3 && Scale(v, k) >= SIGN
    ensures Scale(Truncated(v, k + 1), k) >= SIGN
  {
    Powers();
    var p, q := Pow2(8 * (k - 3)), Pow2(8 * (k - 2));
    Pow2Add(8 * (k - 3), 8);
    AtLeast(v, p, SIGN);
    assert p * SIGN == q * 0x8000;
    FloorMultiple(v, q, 0x8000);
    AtLeast(Truncated(v, k + 1), p, SIGN);
  }

  lemma AtLeast(v: nat, p: nat, n: nat)
    requires p > 0
    ensures v / p >= n <==> v >= p * n
  {
    DivNat(v, p);
    if v / p >= n { MulMono(p, n, v / p); } else { MulMono(p, v / p + 1, n); }
  }

  /** Encoding and decoding a 256-bit value truncates it to its leading bytes, with the sign
      it was given and no overflow; encoding the result gives the same compact number. */
  lemma RoundTrip(v: nat, neg: bool)
    requires v < Pow2(256)
    ensures var c := Compact(v, neg);
      && Unscale(MantissaOf(c), SizeOf(c)) == Truncated(v, Exponent(v)) <= v
      && !Overflows(c)
      && (SignOf(c) && WordOf(c) != 0 <==> neg && v != 0)
      && Compact(Truncated(v, Exponent(v)), neg) == c
  {
    var c, e := Compact(v, neg), Exponent(v);
    Fields(v, neg);
    UnscaleScale(v, e);
    TruncatedAgain(v);
    OverflowExact(c);
    MantissaFits(v);
  }

  // ----- The methods -----

  /** Reads a compact number; the value is exact modulo 2^256. */
  method SetCompact(x: BaseUint, nCompact: nat) returns (negative: bool, overflow: bool)
    requires nCompact < BASE && x.pn.Length == 8
    modifies x.pn
    ensures x.Value() == Unscale(MantissaOf(nCompact), SizeOf(nCompact)) % Pow2(256)
    ensures negative <==> SignOf(nCompact) && WordOf(nCompact) != 0
    ensures overflow <==> Overflows(nCompact)
  {
    Powers();
    PIsPow2(8);
    ReadFields(nCompact);
    var nSize := nCompact / Pow2(24);
    var nWord := And(nCompact, 0x007f_ffff);
    if nSize <= 3 {
      SmallWord(nWord, nSize);
      nWord := nWord / Pow2(8 * (3 - nSize));
      x.Assign(nWord);
      Pow2Mono(32, 256);
      DivUnique(nWord, Pow2(256), 0, nWord);
    } else {
      x.Assign(nWord);
      x.ShiftLeft(8 * (nSize - 3));
    }
    negative := nWord != 0 && And(nCompact, 0x0080_0000) != 0;
    overflow := nWord != 0 && ((nSize > 34) || (nWord > 0xff && nSize > 33) || (nWord > 0xffff && nSize > 32));
  }

  lemma ReadFields(c: nat)
    requires c < BASE
    ensures And(c, 0x007f_ffff) == MantissaOf(c) && (And(c, 0x0080_0000) != 0 <==> SignOf(c))
  {
    Powers();
    AndMask(c, 23);
    AndPow2(c, 23);
    BitIs(c, 23);
  }

  /** The leading three bytes of the value, shifted up if there are fewer. */
  method LeadingBytes(x: BaseUint, nSize: nat) returns (r: nat)
    requires x.pn.Length == 8 && nSize == Bytes(x.Value())
    ensures r == Scale(x.Value(), nSize)
  {
    ThreeBytes(x.Value());
    if nSize <= 3 {
      var low := x.GetLow64();
      LowIsAll(x.Value());
      SmallMod(x.Value());
      r := low * Pow2(8 * (3 - nSize));
      SmallMod(r);
      r := r % BASE;
    } else {
      var bn := new BaseUint.Copy(x);
      bn.ShiftRight(8 * (nSize - 3));
      SmallMod(bn.Value());
      r := bn.GetLow64();
      r := r % BASE;
    }
  }

  /** Writes a 256-bit value as a compact number; both assertions of the source hold. */
  method GetCompact(x: BaseUint, fNegative: bool) returns (nCompact: nat)
    requires x.pn.Length == 8
    ensures nCompact == Compact(x.Value(), fNegative) < BASE
  {
    PIsPow2(8);
    ValBound(x.pn[..]);
    var bits := x.BitCount();
    BitLengthUnique(x.Value(), bits);
    var nSize := (bits + 7) / 8;
    var scaled := LeadingBytes(x, nSize);
    nCompact := Assemble(x.Value(), scaled, nSize, fNegative);
  }

  lemma SmallMod(w: nat)
    requires w < SIZE_UNIT
    ensures w % BASE == w && w % 0x1_0000_0000_0000_0000 == w
  {
  }

  lemma LowIsAll(v: nat)
    requires Bytes(v) <= 3
    ensures v < SIZE_UNIT
  {
    Powers();
    if v > 0 {
      Leading(v);
      Pow2Mono(8 * Bytes(v), 24);
    }
  }

  /** The sign test and the final assembly of the fields. */
  method Assemble(ghost v: nat, scaled: nat, size: nat, fNegative: bool) returns (nCompact: nat)
    requires v < Pow2(256) && scaled == Scale(v, Bytes(v)) && size == Bytes(v)
    ensures nCompact == Compact(v, fNegative) < BASE
  {
    var nSize := size;
    nCompact := scaled;
    ThreeBytes(v);
    SignTest(nCompact);
    NextScale(v, nSize);
    if And(nCompact, 0x0080_0000) != 0 {
      nCompact := nCompact / 256;
      nSize := nSize + 1;
    }
    MantissaFits(v);
    ExponentBound(v);
    assert nSize == Exponent(v) && nCompact == Scale(v, Exponent(v));
    nCompact := Join(nCompact, nSize, fNegative);
  }

  method Join(mantissa: nat, nSize: nat, fNegative: bool) returns (nCompact: nat)
    requires mantissa < SIGN && nSize < 256
    ensures nCompact == mantissa + nSize * SIZE_UNIT + (if fNegative && mantissa != 0 then SIGN else 0) < BASE
  {
    var shifted := nSize * Pow2(24);
    Joined(mantissa, nSize, shifted);
    nCompact := WithSign(mantissa, nSize, Or(mantissa, shifted), fNegative);
  }

  method WithSign(ghost m: nat, ghost size: nat, c: nat, fNegative: bool) returns (nCompact: nat)
    requires m < SIGN && size < 256 && c == m + size * SIZE_UNIT
    ensures nCompact == c + (if fNegative && m != 0 then SIGN else 0) < BASE
  {
    Signed(m, size, c);
    Packed(m, size, fNegative && m != 0);
    var sign := fNegative && And(c, 0x007f_ffff) != 0;
    nCompact := Or(c, if sign then 0x0080_0000 else 0);
  }

  lemma SignTest(n: nat)
    requires n < SIZE_UNIT
    ensures And(n, 0x0080_0000) != 0 <==> n >= SIGN
  {
    Powers();
    AndPow2(n, 23);
    TopBit(n, 23);
  }

  lemma Joined(m: nat, size: nat, shifted: nat)
    requires m < SIGN && size < 256 && shifted == size * Pow2(24)
    ensures Or(m, shifted) == m + size * SIZE_UNIT
  {
    Powers();
    ModZero(Pow2(24), size);
    OrIsSum(shifted, m, 24);
  }

  lemma Signed(m: nat, size: nat, c: nat)
    requires m < SIGN && size < 256 && c == m + size * SIZE_UNIT
    ensures And(c, 0x007f_ffff) == m && Or(c, 0x0080_0000) == c + SIGN && Or(c, 0) == c
  {
    Powers();
    Packed(m, size, false);
    AndMask(c, 23);
    BitIs(c, 23);
    OrFreeBit(c, 23);
    OrZero(c);
  }
}
