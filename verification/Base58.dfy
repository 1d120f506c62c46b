/** Base58 (src/base58.cpp): what encoding and decoding mean, and that they undo each other. */
module Base58 {
  import opened Common
  import opened Radix

  /** All alphanumeric characters but "0", "I", "O" and "l", in runs of consecutive ones. */
  const PSZ_BASE58: string := "123456789" + "ABCDEFGH" + "JKLMN" + "PQRSTUVWXYZ" + "abcdefghijk" + "mnopqrstuvwxyz"

  // ----- The alphabet -----

  /** The six runs of consecutive characters that make up the alphabet. */
  function CharOf(d: nat): char
    requires d < 58
  {
    if d < 9 then ('1' as int + d) as char
    else if d < 17 then ('A' as int + d - 9) as char
    else if d < 22 then ('J' as int + d - 17) as char
    else if d < 33 then ('P' as int + d - 22) as char
    else if d < 44 then ('a' as int + d - 33) as char
    else ('m' as int + d - 44) as char
  }

  /** Where a character stands in the alphabet, or -1. */
  function DigitOf(c: char): int {
    var x := c as int;
    if '1' <= c <= '9' then x - '1' as int
    else if 'A' <= c <= 'H' then x - 'A' as int + 9
    else if 'J' <= c <= 'N' then x - 'J' as int + 17
    else if 'P' <= c <= 'Z' then x - 'P' as int + 22
    else if 'a' <= c <= 'k' then x - 'a' as int + 33
    else if 'm' <= c <= 'z' then x - 'm' as int + 44
    else -1
  }

  /** Every character of a run follows from its first. */
  predicate IsRun(s: string, first: char) {
    forall i | 0 <= i < |s| :: s[i] as int == first as int + i
  }

  lemma Runs()
    ensures IsRun("123456789", '1') && IsRun("ABCDEFGH", 'A') && IsRun("JKLMN", 'J')
    ensures IsRun("PQRSTUVWXYZ", 'P') && IsRun("abcdefghijk", 'a') && IsRun("mnopqrstuvwxyz", 'm')
  {
  }

  lemma AlphabetIs(d: nat)
    requires d < 58
    ensures |PSZ_BASE58| == 58 && PSZ_BASE58[d] == CharOf(d)
  {
    Runs();
  }

  lemma DigitOfChar(c: char)
    ensures -1 <= DigitOf(c) < 58 && (DigitOf(c) >= 0 ==> CharOf(DigitOf(c)) == c)
  {
  }

  lemma CharOfDigit(d: nat)
    requires d < 58
    ensures DigitOf(CharOf(d)) == d
  {
  }

  /** The search through the alphabet finds the digit, or nothing. */
  method Strchr(c: char) returns (d: int)
    ensures d == DigitOf(c)
  {
    DigitOfChar(c);
    AlphabetIs(0);
    var i := 0;
    while i < 58
      invariant 0 <= i <= 58 && forall j | 0 <= j < i :: CharOf(j) != c
    {
      AlphabetIs(i);
      if PSZ_BASE58[i] == c {
        CharOfDigit(i);
        return i;
      }
      i := i + 1;
    }
    d := -1;
  }

  // ----- Strings -----

  predicate IsSpace(c: char) { c == ' ' || 9 <= c as int <= 13 }

  /** The characters up to the first null. */
  function CString(s: string): string {
    if s == [] || s[0] == '\0' then [] else [s[0]] + CString(s[1..])
  }

  function TrimLeft(s: string): string {
    if s != [] && IsSpace(s[0]) then TrimLeft(s[1..]) else s
  }

  function TrimRight(s: string): string {
    if s != [] && IsSpace(s[|s| - 1]) then TrimRight(s[..|s| - 1]) else s
  }

  function Trim(s: string): string { TrimRight(TrimLeft(s)) }

  predicate InAlphabet(s: string) {
    forall i | 0 <= i < |s| :: DigitOf(s[i]) >= 0
  }

  function DigitsOf(s: string): (r: seq<nat>)
    requires InAlphabet(s)
    ensures |r| == |s| && forall i | 0 <= i < |s| :: r[i] == DigitOf(s[i])
  {
    seq(|s|, i requires 0 <= i < |s| => DigitOf(s[i]))
  }

  function CharsOf(s: seq<nat>): (r: string)
    requires Digits(s, 58)
    ensures |r| == |s| && forall i | 0 <= i < |s| :: r[i] == CharOf(s[i])
  {
    seq(|s|, i requires 0 <= i < |s| => CharOf(s[i]))
  }

  lemma CharsRoundTrip(s: seq<nat>)
    requires Digits(s, 58)
    ensures InAlphabet(CharsOf(s)) && DigitsOf(CharsOf(s)) == s
  {
    forall i | 0 <= i < |s| ensures DigitOf(CharsOf(s)[i]) == s[i] { CharOfDigit(s[i]); }
  }

  lemma DigitsRoundTrip(s: string)
    requires InAlphabet(s)
    ensures Digits(DigitsOf(s), 58) && CharsOf(DigitsOf(s)) == s
  {
    forall i | 0 <= i < |s| ensures 0 <= DigitOf(s[i]) < 58 && CharOf(DigitOf(s[i])) == s[i] { DigitOfChar(s[i]); }
  }

  // ----- Encoding and decoding -----

  function Zeros(s: seq<nat>): (z: nat)
    ensures z <= |s| && (forall i | 0 <= i < z :: s[i] == 0) && (z < |s| ==> s[z] != 0)
  {
    if s != [] && s[0] == 0 then 1 + Zeros(s[1..]) else 0
  }

  function Repeat(x: nat, n: nat): (r: seq<nat>)
    ensures |r| == n && forall i | 0 <= i < n :: r[i] == x
  {
    seq(n, i => x)
  }

  /** Rewrites digits from one radix to another, one leading zero for each leading zero. */
  function Convert(s: seq<nat>, from: nat, to: nat): seq<nat>
    requires to > 1
  {
    Repeat(0, Zeros(s)) + ToDigits(Num(s, from), to)
  }

  lemma ConvertDigits(s: seq<nat>, from: nat, to: nat)
    requires to > 1
    ensures Digits(Convert(s, from, to), to)
  {
    ToDigitsCanonical(Num(s, from), to);
  }

  /** A converted number has the zeros and the value it had. */
  lemma Converted(s: seq<nat>, from: nat, to: nat)
    requires to > 1
    ensures Zeros(Convert(s, from, to)) == Zeros(s) && Num(Convert(s, from, to), to) == Num(s, from)
  {
    var z, v := Zeros(s), Num(s, from);
    var c := Convert(s, from, to);
    ToDigitsCanonical(v, to);
    ZerosAre(c, z);
    LeadingZeros(c, z, to);
    assert c[z..] == ToDigits(v, to);
  }

  /** A number is its leading zeros and its canonical digits. */
  lemma ZerosAndDigits(s: seq<nat>, r: nat)
    requires r > 1 && Digits(s, r)
    ensures s == Repeat(0, Zeros(s)) + ToDigits(Num(s, r), r)
  {
    var z := Zeros(s);
    LeadingZeros(s, z, r);
    CanonicalUnique(s[z..], r);
    assert s == Repeat(0, z) + s[z..];
  }

  /** Converting back gives the digits one started from. */
  lemma ConvertBack(s: seq<nat>, from: nat, to: nat)
    requires from > 1 && to > 1 && Digits(s, from)
    ensures Convert(Convert(s, from, to), to, from) == s
  {
    Converted(s, from, to);
    ZerosAndDigits(s, from);
  }

  lemma {:induction false} ZerosAre(s: seq<nat>, z: nat)
    requires z <= |s| && (forall i | 0 <= i < z :: s[i] == 0) && (z < |s| ==> s[z] != 0)
    ensures Zeros(s) == z
  {
    if z > 0 { ZerosAre(s[1..], z - 1); }
  }

  function Encode(b: seq<nat>): string {
    ConvertDigits(b, 256, 58);
    CharsOf(Convert(b, 256, 58))
  }

  /** Surrounding spaces are ignored; anything after a null is not seen. */
  function Decode(s: string): Option<seq<nat>> {
    var t := Trim(CString(s));
    if InAlphabet(t) then Some(Convert(DigitsOf(t), 58, 256)) else None
  }

  lemma {:induction false} PlainString(s: string)
    requires InAlphabet(s)
    ensures CString(s) == s && Trim(s) == s
  {
    if s != [] {
      DigitOfChar(s[0]);
      DigitOfChar(s[|s| - 1]);
      assert DigitOf(s[0]) >= 0;
      PlainString(s[1..]);
    }
  }

  /** Decoding what was encoded gives the same bytes, for every byte string. */
  lemma EncodeDecode(b: seq<nat>)
    requires Digits(b, 256)
    ensures Decode(Encode(b)) == Some(b)
  {
    var c := Convert(b, 256, 58);
    ConvertDigits(b, 256, 58);
    CharsRoundTrip(c);
    PlainString(CharsOf(c));
    ConvertBack(b, 256, 58);
  }

  /** Whatever decodes re-encodes to itself, but for the spaces around it. */
  lemma DecodeEncode(s: string)
    requires Decode(s).Some?
    ensures Digits(Decode(s).value, 256) && Encode(Decode(s).value) == Trim(CString(s))
  {
    var t := Trim(CString(s));
    DigitsRoundTrip(t);
    ConvertDigits(DigitsOf(t), 58, 256);
    ConvertBack(DigitsOf(t), 58, 256);
  }

  /** No two byte strings share an encoding. */
  lemma EncodeInjective(a: seq<nat>, b: seq<nat>)
    requires Digits(a, 256) && Digits(b, 256) && Encode(a) == Encode(b)
    ensures a == b
  {
    EncodeDecode(a);
    EncodeDecode(b);
  }

  // ----- With a checksum -----

  /** The first four bytes of some hash. */
  type Checksum = f: seq<nat> -> seq<nat> | forall b :: |f(b)| == 4 && Digits(f(b), 256)
    witness (b => [0, 0, 0, 0])

  function EncodeCheck(b: seq<nat>, sum: Checksum): string {
    Encode(b + sum(b))
  }

  function DecodeCheck(s: string, sum: Checksum): Option<seq<nat>> {
    var d := Decode(s);
    if d.None? || |d.value| < 4 then None
    else
      var n := |d.value| - 4;
      if sum(d.value[..n]) != d.value[n..] then None else Some(d.value[..n])
  }

  lemma CheckRoundTrip(b: seq<nat>, sum: Checksum)
    requires Digits(b, 256)
    ensures DecodeCheck(EncodeCheck(b, sum), sum) == Some(b)
  {
    EncodeDecode(b + sum(b));
    assert (b + sum(b))[..|b|] == b && (b + sum(b))[|b|..] == sum(b);
  }

  /** Exactly the encodings are accepted, up to spaces. */
  lemma CheckAccepts(s: string, sum: Checksum, b: seq<nat>)
    ensures DecodeCheck(s, sum) == Some(b) <==> Digits(b, 256) && EncodeCheck(b, sum) == Trim(CString(s))
  {
    if DecodeCheck(s, sum) == Some(b) {
      DecodeEncode(s);
      var v := Decode(s).value;
      assert v == v[..|v| - 4] + v[|v| - 4..];
    }
    if Digits(b, 256) && EncodeCheck(b, sum) == Trim(CString(s)) {
      CheckRoundTrip(b, sum);
      EncodePlain(b + sum(b));
    }
  }

  lemma EncodePlain(b: seq<nat>)
    ensures InAlphabet(Encode(b)) && Trim(CString(Encode(b))) == Encode(b)
  {
    var c := Convert(b, 256, 58);
    ConvertDigits(b, 256, 58);
    CharsRoundTrip(c);
    PlainString(CharsOf(c));
  }
}
