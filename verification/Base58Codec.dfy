/** The loops of Base58 (src/base58.cpp): radix conversion in a buffer of fixed size, whose
    size is a rational approximation of a ratio of logarithms. */
module Base58Codec {
  import opened Common
  import opened Bits
  import opened Radix
  import opened Base58

  // ----- The buffers are large enough -----

  lemma EightBytes()
    ensures Pow(256, 8) <= Pow(58, 11)
  {
    assert Pow(256, 8) == 0x1_0000_0000_0000_0000;
    assert Pow(58, 11) == 24986644000165537792;
  }

  /** 138 / 100 is above log 256 / log 58. */
  lemma EncodeRoom(m: nat)
    ensures Pow(256, m) <= Pow(58, m * 138 / 100 + 1)
  {
    EightBytes();
    RationalLog(256, 58, 8, 11, m, m * 138 / 100 + 1);
  }

  lemma Product58(a: nat, b: nat, x: nat, y: nat)
    requires Pow(58, a) == x && Pow(58, b) == y
    ensures Pow(58, a + b) == x * y
  {
    PowAdd(58, a, b);
  }

  lemma Product256(a: nat, b: nat, x: nat, y: nat)
    requires Pow(256, a) == x && Pow(256, b) == y
    ensures Pow(256, a + b) == x * y
  {
    PowAdd(256, a, b);
  }

  lemma SeventyOneDigits()
    ensures Pow(58, 71) <= Pow(256, 52)
  {
    assert Pow(58, 1) == 58 && Pow(256, 1) == 256;
    Product58(1, 1, 58, 58);
    Product58(2, 1, 3364, 58);
    Product58(2, 2, 3364, 3364);
    Product58(4, 3, 11316496, 195112);
    Product58(4, 4, 11316496, 11316496);
    Product58(8, 8, 128063081718016, 128063081718016);
    Product58(16, 16, 16400152899115243850138976256, 16400152899115243850138976256);
    Product58(32, 32, 268965015114358137726910587140455987105619365599731777536, 268965015114358137726910587140455987105619365599731777536);
    Product58(64, 7, 72342179355466901471258927612150153907721848234316445933056526044582001260898145151856420451025374266490194231296, 2207984167552);
    Product256(1, 1, 256, 256);
    Product256(2, 2, 65536, 65536);
    Product256(4, 4, 4294967296, 4294967296);
    Product256(8, 4, 18446744073709551616, 4294967296);
    Product256(12, 1, 79228162514264337593543950336, 256);
    Product256(13, 13, 20282409603651670423947251286016, 20282409603651670423947251286016);
    Product256(26, 26, 411376139330301510538742295639337626245683966408394965837152256, 411376139330301510538742295639337626245683966408394965837152256);
  }

  /** 733 / 1000 is above log 58 / log 256. */
  lemma DecodeRoom(m: nat)
    ensures Pow(58, m) <= Pow(256, m * 733 / 1000 + 1)
  {
    var n := m * 733 / 1000 + 1;
    assert 52 * m <= n * 71;
    SeventyOneDigits();
    RationalLog(58, 256, 71, 52, m, n);
  }

  // ----- One digit in -----

  /** The last i digits have been multiplied by f, with c added: carry is still to come. */
  predicate Carrying(now: seq<nat>, was: seq<nat>, r: nat, f: nat, c: nat, carry: nat)
    requires |now| == |was|
  {
    Num(now, r) + Times(carry, Pow(r, |now|)) == Times(f, Num(was, r)) + c
  }

  lemma CarryTurn(now: seq<nat>, was: seq<nat>, d: nat, r: nat, f: nat, c: nat, carry: nat, x: nat)
    requires |now| == |was| && r > 1 && Carrying(now, was, r, f, c, carry) && x == carry + Times(f, d)
    ensures x / r >= 0 && Carrying([x % r] + now, [d] + was, r, f, c, x / r)
  {
    DivNat(x, r);
    NumCons(x % r, now, r);
    NumCons(d, was, r);
    TurnArith(Num(now, r), Num(was, r), Pow(r, |now|), r, f, c, carry, d, x, x / r, x % r);
  }

  lemma TurnArith(a: nat, b: nat, p: nat, r: nat, f: nat, c: nat, carry: nat, d: nat, x: nat, q: nat, m: nat)
    requires a + carry * p == f * b + c && x == carry + f * d && x == r * q + m
    ensures (m * p + a) + q * (r * p) == f * (d * p + b) + c
  {
    assert x * p == carry * p + (f * d) * p;
    assert x * p == (r * q) * p + m * p;
    assert (r * q) * p == q * (r * p);
    assert f * (d * p + b) == f * (d * p) + f * b;
    assert f * (d * p) == (f * d) * p;
  }

  /** Multiplies the number in the buffer by f and adds c, from the right; digits to the left of
      the last length ones are zero. The carry out is zero if the result fits the buffer. */
  method MulAdd(buf: array<nat>, r: nat, f: nat, c: nat, length: nat) returns (i: nat)
    requires r > 1 && length <= buf.Length && Digits(buf[..], r)
    requires forall k | 0 <= k < buf.Length - length :: buf[k] == 0
    requires Times(f, Num(buf[..], r)) + c < Pow(r, buf.Length)
    modifies buf
    ensures i <= buf.Length && Digits(buf[..], r)
    ensures forall k | 0 <= k < buf.Length - i :: buf[k] == 0
    ensures Num(buf[..], r) == Times(f, old(Num(buf[..], r))) + c
  {
    ghost var was := buf[..];
    var carry: nat, at := c, buf.Length;
    i := 0;
    while (carry != 0 || i < length) && at > 0
      invariant 0 <= at == buf.Length - i && Digits(buf[..], r)
      invariant forall k | 0 <= k < at :: buf[k] == was[k]
      invariant Carrying(buf[at..], was[at..], r, f, c, carry)
    {
      at := at - 1;
      carry := Turn(buf, at, r, f, carry, was, c);
      i := i + 1;
    }
    CarryOut(buf[..], was, i, length, r, f, c, carry);
    assert carry == 0;
  }

  /** One turn of the loop. */
  method Turn(buf: array<nat>, at: nat, r: nat, f: nat, carry: nat, ghost was: seq<nat>, ghost c: nat) returns (carry': nat)
    requires at < buf.Length == |was| && r > 1 && Digits(buf[..], r) && buf[at] == was[at]
    requires Carrying(buf[at + 1..], was[at + 1..], r, f, c, carry)
    modifies buf
    ensures Digits(buf[..], r) && forall k | 0 <= k < at :: buf[k] == old(buf[k])
    ensures Carrying(buf[at..], was[at..], r, f, c, carry')
  {
    CarryTurn(buf[at + 1..], was[at + 1..], was[at], r, f, c, carry, carry + Times(f, was[at]));
    assert was[at..] == [was[at]] + was[at + 1..];
    carry' := PutDigit(buf, at, r, f, carry);
  }

  /** One digit of the product, with the carry. */
  method PutDigit(buf: array<nat>, at: nat, r: nat, f: nat, carry: nat) returns (carry': nat)
    requires at < buf.Length && r > 1 && Digits(buf[..], r)
    modifies buf
    ensures Digits(buf[..], r) && forall k | 0 <= k < buf.Length && k != at :: buf[k] == old(buf[k])
    ensures var x := carry + Times(f, old(buf[at])); carry' == x / r && buf[at..] == [x % r] + old(buf[at + 1..])
  {
    var x := carry + Times(f, buf[at]);
    DivNat(x, r);
    buf[at] := x % r;
    carry' := x / r;
  }

  lemma CarryOut(now: seq<nat>, was: seq<nat>, i: nat, length: nat, r: nat, f: nat, c: nat, carry: nat)
    requires r > 1 && |now| == |was| && i <= |now| && length <= |now|
    requires forall k | 0 <= k < |now| - i :: now[k] == was[k]
    requires forall k | 0 <= k < |now| - length :: was[k] == 0
    requires Carrying(now[|now| - i..], was[|now| - i..], r, f, c, carry)
    requires (carry == 0 && i >= length) || i == |now|
    requires Times(f, Num(was, r)) + c < Pow(r, |now|)
    ensures carry == 0 && Num(now, r) == Times(f, Num(was, r)) + c
    ensures forall k | 0 <= k < |now| - i :: now[k] == 0
  {
    if i == |now| {
      FullOut(now, was, r, f, c, carry);
    } else {
      ShortOut(now, was, i, r, f, c);
    }
  }

  lemma FullOut(now: seq<nat>, was: seq<nat>, r: nat, f: nat, c: nat, carry: nat)
    requires |now| == |was| && Carrying(now[0..], was[0..], r, f, c, carry)
    requires Times(f, Num(was, r)) + c < Pow(r, |now|)
    ensures carry == 0 && Num(now, r) == Times(f, Num(was, r)) + c
  {
    assert now[0..] == now && was[0..] == was;
    NoCarry(Num(now, r), carry, Pow(r, |now|), Times(f, Num(was, r)) + c);
  }

  lemma ShortOut(now: seq<nat>, was: seq<nat>, i: nat, r: nat, f: nat, c: nat)
    requires |now| == |was| && i <= |now| && forall k | 0 <= k < |now| - i :: now[k] == was[k] == 0
    requires Carrying(now[|now| - i..], was[|now| - i..], r, f, c, 0)
    ensures Num(now, r) == Times(f, Num(was, r)) + c
  {
    var k := |now| - i;
    LeadingZeros(now, k, r);
    LeadingZeros(was, k, r);
    assert Num(now, r) == Num(now[k..], r) && Num(was, r) == Num(was[k..], r);
    NothingCarried(now[k..], was[k..], r, f, c);
  }

  lemma NothingCarried(now: seq<nat>, was: seq<nat>, r: nat, f: nat, c: nat)
    requires |now| == |was| && Carrying(now, was, r, f, c, 0)
    ensures Num(now, r) == Times(f, Num(was, r)) + c
  {
  }

  lemma NoCarry(v: nat, carry: nat, p: nat, y: nat)
    requires v + Times(carry, p) == y && y < p
    ensures carry == 0 && v == y
  {
    if carry > 0 { MulMono(p, 1, carry); }
  }

  /** Skips leading zeros from a known start: what is left is canonical. */
  method SkipZeros(buf: array<nat>, from: nat, r: nat) returns (it: nat)
    requires r > 1 && from <= buf.Length && Digits(buf[..], r)
    requires forall k | 0 <= k < from :: buf[k] == 0
    ensures it <= buf.Length && buf[it..] == ToDigits(Num(buf[..], r), r)
  {
    it := from;
    while it < buf.Length && buf[it] == 0
      invariant from <= it <= buf.Length
      invariant forall k | 0 <= k < it :: buf[k] == 0
    {
      it := it + 1;
    }
    LeadingZeros(buf[..], it, r);
    assert buf[..][it..] == buf[it..];
    CanonicalUnique(buf[it..], r);
  }

  // ----- Encoding -----

  lemma NumNext(s: seq<nat>, i: nat, j: nat, r: nat)
    requires i <= j < |s|
    ensures Num(s[i..j + 1], r) == Times(r, Num(s[i..j], r)) + s[j]
  {
    assert s[i..j + 1] == s[i..j] + [s[j]];
    NumSnoc(s[i..j], s[j], r);
  }

  lemma Fits(s: seq<nat>, i: nat, j: nat, r: nat, room: nat)
    requires r > 0 && i <= j <= |s| && Digits(s, r) && Pow(r, |s| - i) <= room
    ensures Num(s[i..j], r) < room
  {
    NumBound(s[i..j], r);
    PowMono(r, j - i, |s| - i);
  }

  method EncodeBase58(b: seq<nat>) returns (str: string)
    requires Digits(b, 256)
    ensures str == Encode(b)
  {
    var zeroes := 0;
    while zeroes < |b| && b[zeroes] == 0
      invariant 0 <= zeroes <= |b| && forall k | 0 <= k < zeroes :: b[k] == 0
    {
      zeroes := zeroes + 1;
    }
    ZerosAre(b, zeroes);
    LeadingZeros(b, zeroes, 256);
    var b58, length := ToBase58(b, zeroes);
    var it := SkipZeros(b58, b58.Length - length, 58);
    assert Repeat(0, zeroes) + b58[it..] == Convert(b, 256, 58);
    str := Spell(zeroes, b58, it);
  }

  /** The bytes after the leading zeros, in a buffer of base 58 digits. */
  method ToBase58(b: seq<nat>, zeroes: nat) returns (b58: array<nat>, length: nat)
    requires Digits(b, 256) && zeroes <= |b|
    ensures length <= b58.Length && Digits(b58[..], 58)
    ensures forall k | 0 <= k < b58.Length - length :: b58[k] == 0
    ensures Num(b58[..], 58) == Num(b[zeroes..], 256)
  {
    var size := (|b| - zeroes) * 138 / 100 + 1;
    EncodeRoom(|b| - zeroes);
    b58 := new nat[size](_ => 0);
    LeadingZeros(b58[..], size, 58);
    length := 0;
    var p := zeroes;
    while p < |b|
      invariant zeroes <= p <= |b| && length <= size && Digits(b58[..], 58)
      invariant forall k | 0 <= k < size - length :: b58[k] == 0
      invariant Num(b58[..], 58) == Num(b[zeroes..p], 256)
    {
      NumNext(b, zeroes, p, 256);
      Fits(b, zeroes, p + 1, 256, Pow(58, size));
      length := MulAdd(b58, 58, 256, b[p], length);
      p := p + 1;
    }
    assert b[zeroes..p] == b[zeroes..];
  }

  /** The leading ones and the digits as characters. */
  method Spell(zeroes: nat, b58: array<nat>, it: nat) returns (str: string)
    requires it <= b58.Length && Digits(b58[..], 58)
    ensures Digits(Repeat(0, zeroes) + b58[it..], 58) && str == CharsOf(Repeat(0, zeroes) + b58[it..])
  {
    str := seq(zeroes, _ => '1');
    var k := it;
    while k < b58.Length
      invariant it <= k <= b58.Length
      invariant str == CharsOf(Repeat(0, zeroes) + b58[it..k])
    {
      AlphabetIs(b58[k]);
      str := str + [PSZ_BASE58[b58[k]]];
      k := k + 1;
    }
    assert b58[it..k] == b58[it..];
  }

  // ----- Decoding -----

  lemma {:induction false} TrimLeftAt(s: string, i: nat)
    requires i <= |s| && (forall k | 0 <= k < i :: IsSpace(s[k])) && (i < |s| ==> !IsSpace(s[i]))
    ensures TrimLeft(s) == s[i..]
  {
    if i > 0 {
      TrimLeftAt(s[1..], i - 1);
      assert s[1..][i - 1..] == s[i..];
    }
  }

  lemma {:induction false} TrimRightAt(s: string, e: nat)
    requires e <= |s| && (forall k | e <= k < |s| :: IsSpace(s[k])) && (e > 0 ==> !IsSpace(s[e - 1]))
    ensures TrimRight(s) == s[..e]
  {
    if e < |s| {
      TrimRightAt(s[..|s| - 1], e);
      assert s[..|s| - 1][..e] == s[..e];
    } else {
      assert s[..e] == s;
    }
  }

  /** Trimming keeps everything up to a character that is not a space. */
  lemma {:induction false} TrimRightKeeps(s: string, k: nat)
    requires k < |s| && !IsSpace(s[k])
    ensures k < |TrimRight(s)| <= |s| && TrimRight(s) == s[..|TrimRight(s)|]
  {
    if IsSpace(s[|s| - 1]) {
      TrimRightKeeps(s[..|s| - 1], k);
      var n := |TrimRight(s)|;
      assert s[..|s| - 1][..n] == s[..n];
    } else {
      assert s[..|s|] == s;
    }
  }

  method CStr(str: string) returns (s: string)
    ensures s == CString(str)
  {
    var i := 0;
    while i < |str| && str[i] != '\0'
      invariant 0 <= i <= |str| && forall k | 0 <= k < i :: str[k] != '\0'
    {
      i := i + 1;
    }
    CStringAt(str, i);
    s := str[..i];
  }

  lemma {:induction false} CStringAt(s: string, i: nat)
    requires i <= |s| && (forall k | 0 <= k < i :: s[k] != '\0') && (i < |s| ==> s[i] == '\0')
    ensures CString(s) == s[..i]
  {
    if i > 0 {
      CStringAt(s[1..], i - 1);
      assert s[..i] == [s[0]] + s[1..][..i - 1];
    }
  }

  /** A character that is neither a space nor in the alphabet spoils the whole. */
  lemma Rejects(s: string, u: string, j: nat, k: nat)
    requires u == TrimLeft(s) && j <= k < |u| && !IsSpace(u[k]) && DigitOf(u[j]) < 0
    ensures !InAlphabet(Trim(s))
  {
    TrimRightKeeps(u, k);
    assert TrimRight(u)[j] == u[j];
  }

  method DecodeBase58(str: string) returns (ok: bool, vch: seq<nat>)
    ensures Decode(str) == if ok then Some(vch) else None
  {
    vch := [];
    var s := CStr(str);
    var i := SkipSpaces(s, 0);
    TrimLeftAt(s, i);
    ok, vch := DecodeRest(s, s[i..]);
  }

  /** The part after the leading spaces. */
  method DecodeRest(ghost s: string, u: string) returns (ok: bool, vch: seq<nat>)
    requires u == TrimLeft(s)
    ensures ok <==> InAlphabet(Trim(s))
    ensures ok ==> vch == Convert(DigitsOf(Trim(s)), 58, 256)
  {
    var zeroes := SkipOnes(u);
    var b256 := Allocate(|u| - zeroes);
    var good, e, length := ReadDigits(u, zeroes, b256);
    if !good {
      Rejects(s, u, e, e);
      return false, [];
    }
    var psz := SkipSpaces(u, e);
    if psz < |u| {
      Rejects(s, u, e, psz);
      return false, [];
    }
    TrimRightAt(u, e);
    Accepted(u, zeroes, e, u[..e]);
    var it := SkipZeros(b256, b256.Length - length, 256);
    vch := Repeat(0, zeroes) + b256[it..];
    ok := true;
  }

  /** The leading digits that stand for zero. */
  method SkipOnes(u: string) returns (zeroes: nat)
    ensures zeroes <= |u| && (forall k | 0 <= k < zeroes :: u[k] == '1') && (zeroes < |u| ==> u[zeroes] != '1')
  {
    zeroes := 0;
    while zeroes < |u| && u[zeroes] == '1'
      invariant zeroes <= |u| && forall k | 0 <= k < zeroes :: u[k] == '1'
    {
      zeroes := zeroes + 1;
    }
  }

  /** Enough zeros for the bytes of any number of so many base 58 digits. */
  method Allocate(digits: nat) returns (b256: array<nat>)
    ensures fresh(b256) && Pow(58, digits) <= Pow(256, b256.Length)
    ensures Buffer(b256[..], 0) && Num(b256[..], 256) == 0
  {
    var size := digits * 733 / 1000 + 1;
    DecodeRoom(digits);
    b256 := new nat[size](_ => 0);
    LeadingZeros(b256[..], size, 256);
  }

  method SkipSpaces(u: string, from: nat) returns (psz: nat)
    requires from <= |u|
    ensures from <= psz <= |u| && (forall k | from <= k < psz :: IsSpace(u[k])) && (psz < |u| ==> !IsSpace(u[psz]))
  {
    psz := from;
    while psz < |u| && IsSpace(u[psz])
      invariant from <= psz <= |u| && forall k | from <= k < psz :: IsSpace(u[k])
    {
      psz := psz + 1;
    }
  }

  /** The characters of u from z to e are in the alphabet and make up the number num. */
  predicate Reading(u: string, z: nat, e: nat, num: nat) {
    z <= e <= |u| && InAlphabet(u[..e]) && InAlphabet(u[z..e]) && num == Num(DigitsOf(u[z..e]), 58)
  }

  predicate Buffer(s: seq<nat>, length: nat) {
    length <= |s| && Digits(s, 256) && forall k | 0 <= k < |s| - length :: s[k] == 0
  }

  /** Reads digits up to a space or the end; good means that all of them were in the alphabet. */
  method ReadDigits(u: string, zeroes: nat, b256: array<nat>) returns (good: bool, e: nat, length: nat)
    requires zeroes <= |u| && (forall k | 0 <= k < zeroes :: u[k] == '1')
    requires Pow(58, |u| - zeroes) <= Pow(256, b256.Length)
    requires Buffer(b256[..], 0) && Num(b256[..], 256) == 0
    modifies b256
    ensures e <= |u| && Buffer(b256[..], length)
    ensures !good ==> e < |u| && !IsSpace(u[e]) && DigitOf(u[e]) < 0
    ensures good ==> (e < |u| ==> IsSpace(u[e])) && Reading(u, zeroes, e, Num(b256[..], 256))
  {
    StartReading(u, zeroes);
    e, length := zeroes, 0;
    while e < |u| && !IsSpace(u[e])
      invariant e <= |u| && Buffer(b256[..], length) && Reading(u, zeroes, e, Num(b256[..], 256))
    {
      var ch := Strchr(u[e]);
      if ch < 0 { return false, e, length; }
      ReadNext(u, zeroes, e, Num(b256[..], 256), Pow(256, b256.Length));
      length := MulAdd(b256, 256, 58, ch, length);
      e := e + 1;
    }
    good := true;
  }

  lemma StartReading(u: string, z: nat)
    requires z <= |u| && forall k | 0 <= k < z :: u[k] == '1'
    ensures Reading(u, z, z, 0)
  {
    assert DigitOf('1') == 0 && DigitsOf(u[z..z]) == [];
  }

  lemma ReadNext(u: string, z: nat, e: nat, num: nat, room: nat)
    requires e < |u| && Reading(u, z, e, num) && DigitOf(u[e]) >= 0 && Pow(58, |u| - z) <= room
    ensures Reading(u, z, e + 1, Times(58, num) + DigitOf(u[e])) && Times(58, num) + DigitOf(u[e]) < room
  {
    var s, c := u[z..e], u[e];
    SliceSnoc(u, z, e);
    SliceSnoc(u, 0, e);
    AlphabetSnoc(u[..e], c);
    ReadSnoc(s, c, |u| - z);
  }

  lemma SliceSnoc(u: string, z: nat, e: nat)
    requires z <= e < |u|
    ensures u[z..e + 1] == u[z..e] + [u[e]] && u[..e + 1] == u[..e] + [u[e]]
  {
  }

  lemma AlphabetSnoc(s: string, c: char)
    requires InAlphabet(s) && DigitOf(c) >= 0
    ensures InAlphabet(s + [c])
  {
  }

  lemma ReadSnoc(s: string, c: char, n: nat)
    requires InAlphabet(s) && DigitOf(c) >= 0 && |s| < n
    ensures InAlphabet(s + [c])
    ensures Num(DigitsOf(s + [c]), 58) == Times(58, Num(DigitsOf(s), 58)) + DigitOf(c) < Pow(58, n)
  {
    DigitsSnoc(s, c);
    NumSnoc(DigitsOf(s), DigitOf(c), 58);
    NumBelow(s + [c], n);
  }

  lemma DigitsSnoc(s: string, c: char)
    requires InAlphabet(s) && DigitOf(c) >= 0
    ensures InAlphabet(s + [c]) && DigitsOf(s + [c]) == DigitsOf(s) + [DigitOf(c)]
  {
  }

  lemma NumBelow(s: string, n: nat)
    requires InAlphabet(s) && |s| <= n
    ensures Num(DigitsOf(s), 58) < Pow(58, n)
  {
    DigitsRoundTrip(s);
    NumBound(DigitsOf(s), 58);
    PowMono(58, |s|, n);
  }

  lemma Accepted(u: string, z: nat, e: nat, t: string)
    requires z <= e <= |u| && t == u[..e] && InAlphabet(t)
    requires (forall k | 0 <= k < z :: u[k] == '1') && (z < |u| ==> u[z] != '1')
    ensures InAlphabet(u[z..e]) && Zeros(DigitsOf(t)) == z
    ensures Num(DigitsOf(t), 58) == Num(DigitsOf(u[z..e]), 58)
  {
    var d := DigitsOf(t);
    forall k | 0 <= k < |t| ensures d[k] == 0 <==> t[k] == '1' { DigitOfChar(t[k]); }
    ZerosAre(d, z);
    LeadingZeros(d, z, 58);
    assert d[z..] == DigitsOf(u[z..e]);
  }

  // ----- With a checksum -----

  method EncodeBase58Check(b: seq<nat>, sum: Checksum) returns (str: string)
    requires Digits(b, 256)
    ensures str == EncodeCheck(b, sum)
  {
    str := EncodeBase58(b + sum(b));
  }

  /** On failure the output is left empty. */
  method DecodeBase58Check(str: string, sum: Checksum) returns (ok: bool, vch: seq<nat>)
    ensures DecodeCheck(str, sum) == if ok then Some(vch) else None
    ensures !ok ==> vch == []
  {
    ok, vch := DecodeBase58(str);
    if !ok || |vch| < 4 { return false, []; }
    var n := |vch| - 4;
    if sum(vch[..n]) != vch[n..] { return false, []; }
    vch := vch[..n];
  }
}
