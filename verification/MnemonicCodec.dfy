/** The loops that print and check mnemonics (src/bip39.cpp). */
module MnemonicCodec {
  import opened Bits
  import opened Radix
  import opened BitStreams
  import opened Mnemonic

  // ----- Printing -----

  /** Bit number k of a stream of bytes. */
  lemma StreamBit(b: seq<nat>, k: nat)
    requires k / 8 < |b|
    ensures k < |Flatten(b, 8)| && Flatten(b, 8)[k] == Bit(b[k / 8], 7 - k % 8)
  {
    FieldOfFlatten(b, 8, k / 8);
    AtIs(8, k / 8);
    assert Field(Flatten(b, 8), 8, k / 8)[k % 8] == Flatten(b, 8)[k];
  }

  method ReadBit(bits: seq<nat>, k: nat) returns (bit: nat)
    requires k / 8 < |bits|
    ensures k < |Flatten(bits, 8)| && bit == Flatten(bits, 8)[k]
  {
    StreamBit(bits, k);
    AndPow2(bits[k / 8], 7 - k % 8);
    BitRange(bits[k / 8], 7 - k % 8);
    bit := if And(bits[k / 8], Pow2(7 - k % 8)) > 0 then 1 else 0;
  }

  /** Collects the eleven bits of word number i. */
  method WordIndex(bits: seq<nat>, i: nat) returns (idx: nat)
    requires 11 * i + 11 <= 8 * |bits|
    ensures At(11, i) + 11 <= |Flatten(bits, 8)| && idx == Num(Field(Flatten(bits, 8), 11, i), 2)
  {
    ghost var s := Flatten(bits, 8);
    AtIs(11, i);
    FlattenLength(bits, 8);
    AtIs(8, |bits|);
    var from := 11 * i;
    idx := 0;
    var j := 0;
    while j < 11
      invariant 0 <= j <= 11 && idx == Num(s[from..from + j], 2)
    {
      var bit := ReadBit(bits, from + j);
      assert s[from..from + (j + 1)] == s[from..from + j] + [bit];
      NumSnoc(s[from..from + j], bit, 2);
      idx := 2 * idx + bit;
      j := j + 1;
    }
  }

  /** A sentence under construction: a space follows every word but the last. */
  ghost function Begun(ws: seq<string>, n: nat): string {
    Join(ws) + if 0 < |ws| < n then " " else ""
  }

  lemma BegunNext(ws: seq<string>, x: string, n: nat)
    requires |ws| < n
    ensures Begun(ws + [x], n) == Begun(ws, n) + x + if |ws| < n - 1 then " " else ""
  {
    if ws != [] {
      JoinSnoc(ws, x);
    } else {
      assert ws + [x] == [x];
    }
  }

  method FromData(w: seq<string>, hash: Hash, data: seq<nat>, len: int) returns (mnemonic: string)
    requires |w| == 2048 && (ValidLen(len) ==> len <= |data|)
    ensures mnemonic == Mnemonic.FromData(w, hash, data, len)
  {
    if len % 4 != 0 || len < 16 || len > 32 { return ""; }
    var checksum := hash(data[..len]);
    mnemonic := Print(w, data[..len], checksum[0]);
  }

  method Print(w: seq<string>, d: seq<nat>, h: nat) returns (mnemonic: string)
    requires |w| == 2048 && ValidLen(|d|)
    ensures mnemonic == Sentence(w, d, h)
  {
    var bits, mlen := d + [h], |d| * 3 / 4;
    Room(d, h);
    IndicesBelow(d, h);
    ghost var idxs := Indices(d, h);
    ghost var ws := WordsAt(w, idxs);
    mnemonic := "";
    var i := 0;
    while i < mlen
      invariant 0 <= i <= mlen && mnemonic == Begun(ws[..i], mlen)
    {
      AtIs(11, mlen);
      var idx := WordIndex(bits, i);
      GroupAt(Flatten(bits, 8), 11, mlen, i);
      assert idx == idxs[i];
      mnemonic := AppendWord(mnemonic, w[idx], i, mlen, ws);
      i := i + 1;
    }
    assert ws[..i] == ws;
  }

  method AppendWord(m: string, x: string, i: nat, n: nat, ghost ws: seq<string>) returns (r: string)
    requires i < |ws| == n && x == ws[i] && m == Begun(ws[..i], n)
    ensures r == Begun(ws[..i + 1], n)
  {
    assert ws[..i + 1] == ws[..i] + [ws[i]];
    BegunNext(ws[..i], x, n);
    r := m + x;
    if i < n - 1 { r := r + " "; }
  }

  // ----- Checking -----

  function Spaces(m: string): nat {
    if m == "" then 0 else Spaces(m[1..]) + if m[0] == ' ' then 1 else 0
  }

  lemma {:induction false} SpacesSkip(m: string, n: nat)
    requires n <= |m| && forall i | 0 <= i < n :: m[i] != ' '
    ensures Spaces(m) == Spaces(m[n..])
  {
    if n > 0 {
      SpacesSkip(m[1..], n - 1);
      assert m[1..][n - 1..] == m[n..];
    }
  }

  lemma {:induction false} SplitCount(m: string)
    ensures |Split(m)| == Spaces(m) + 1
    decreases |m|
  {
    var n := WordLen(m);
    SpacesSkip(m, n);
    if n < |m| {
      SplitCount(m[n + 1..]);
      assert m[n..][1..] == m[n + 1..];
    } else {
      assert m[n..] == "";
    }
  }

  method CountWords(m: string) returns (n: nat)
    ensures n == |Split(m)|
  {
    SplitCount(m);
    n := 0;
    var i := 0;
    while i < |m|
      invariant 0 <= i <= |m| && n + Spaces(m[i..]) == Spaces(m)
    {
      assert m[i..][1..] == m[i + 1..];
      if m[i] == ' ' { n := n + 1; }
      i := i + 1;
    }
    n := n + 1;
  }

  /** The word at a position, unless it has more than nine characters. */
  method ReadWord(m: string, i: nat) returns (word: string, tooLong: bool)
    requires i <= |m|
    ensures tooLong <==> WordLen(m[i..]) > 9
    ensures !tooLong ==> word == m[i..][..WordLen(m[i..])]
  {
    ghost var t := m[i..];
    word := "";
    while i + |word| < |m| && m[i + |word|] != ' '
      invariant |word| <= |t| && |word| <= 9 && word == t[..|word|]
      invariant forall k | 0 <= k < |word| :: t[k] != ' '
      decreases |m| - |word|
    {
      assert m[i + |word|] == t[|word|];
      if |word| >= 9 {
        LongWord(t);
        return word, true;
      }
      word := word + [m[i + |word|]];
    }
    WordLenIs(t, |word|);
    tooLong := false;
  }

  lemma LongWord(t: string)
    requires |t| > 9 && forall k | 0 <= k < 10 :: t[k] != ' '
    ensures WordLen(t) > 9
  {
    if WordLen(t) < 10 { assert t[WordLen(t)] == ' '; }
  }

  method FindWord(w: seq<string>, x: string) returns (r: int)
    ensures r == Find(w, x)
  {
    var i := 0;
    while i < |w|
      invariant 0 <= i <= |w| && Find(w, x) == FindFrom(w, x, i)
    {
      if x == w[i] { return i; }
      i := i + 1;
    }
    r := -1;
  }

  // The buffer of bits

  predicate BufferBit(b: seq<nat>, f: seq<nat>, k: nat)
    requires |b| == 33 && k < BUFFER_BITS
  {
    Bit(b[k / 8], 7 - k % 8) == if k < |f| then f[k] else 0
  }

  /** The buffer starts with the bits f and is clear after them. */
  predicate Holds(b: seq<nat>, f: seq<nat>) {
    |b| == 33 && Digits(b, 256) && |f| <= BUFFER_BITS
    && forall k {:trigger BufferBit(b, f, k)} | 0 <= k < BUFFER_BITS :: BufferBit(b, f, k)
  }

  lemma ByteOr(x: nat, j: nat)
    requires x < 256 && j < 8 && Bit(x, j) == 0
    ensures Or(x, Pow2(j)) < 256
    ensures forall i | 0 <= i < 8 :: Bit(Or(x, Pow2(j)), i) == if i == j then 1 else Bit(x, i)
  {
    forall i | 0 <= i < 8 ensures Bit(Or(x, Pow2(j)), i) == if i == j then 1 else Bit(x, i) {
      BitOr(x, Pow2(j), i);
      BitPow2(j, i);
      BitRange(x, i);
    }
    OrBelow(x, Pow2(j), 8);
    Pow2Mono(j + 1, 8);
    assert Pow2(8) == 256;
  }

  lemma {:induction false} OrBelow(x: nat, y: nat, k: nat)
    requires x < Pow2(k) && y < Pow2(k)
    ensures Or(x, y) < Pow2(k)
  {
    if k > 0 { OrBelow(x / 2, y / 2, k - 1); }
  }

  lemma HoldsNext(b: seq<nat>, f: seq<nat>, x: nat, c: seq<nat>)
    requires Holds(b, f) && |f| < BUFFER_BITS && x <= 1
    requires var k := |f|; c == if x == 1 then b[k / 8 := Or(b[k / 8], Pow2(7 - k % 8))] else b
    ensures Holds(c, f + [x])
  {
    var n := |f|;
    assert BufferBit(b, f, n);
    ByteOr(b[n / 8], 7 - n % 8);
    forall k | 0 <= k < BUFFER_BITS ensures BufferBit(c, f + [x], k) {
      assert BufferBit(b, f, k);
    }
  }

  lemma PackedByte(b: seq<nat>, f: seq<nat>, p: seq<nat>, j: nat)
    requires Holds(b, f) && |p| == BUFFER_BITS && j < 33
    requires forall k | 0 <= k < BUFFER_BITS :: p[k] == if k < |f| then f[k] else 0
    ensures At(8, j) + 8 <= |p| && Num(Field(p, 8, j), 2) == b[j]
  {
    AtIs(8, j);
    forall i | 0 <= i < 8 ensures Field(p, 8, j)[i] == BitsOf(b[j], 8)[i] {
      assert BufferBit(b, f, 8 * j + i);
    }
    assert Field(p, 8, j) == BitsOf(b[j], 8);
    assert Pow2(8) == 256;
    NumBitsOf(b[j], 8);
  }

  lemma PackedAt(b: seq<nat>, idx: seq<nat>, j: nat)
    requires |idx| <= 24 && Holds(b, Flatten(idx, 11)) && j < 33
    ensures b[j] == Pack(idx)[j]
  {
    var p := Padded(idx);
    AtIs(8, 33);
    GroupAt(p, 8, 33, j);
    PackedByte(b, Flatten(idx, 11), p, j);
  }

  /** What is left in the buffer at the end is the packed form. */
  lemma HoldsPacked(b: seq<nat>, idx: seq<nat>)
    requires |idx| <= 24 && Holds(b, Flatten(idx, 11))
    ensures b == Pack(idx)
  {
    var c := Pack(idx);
    forall j | 0 <= j < 33 ensures b[j] == c[j] { PackedAt(b, idx, j); }
  }

  /** Appends the eleven bits of a word number. */
  method StoreWord(bits: array<nat>, nBitsCount: nat, nWordIndex: nat, ghost f: seq<nat>)
    requires bits.Length == 33 && Holds(bits[..], f) && |f| == nBitsCount <= BUFFER_BITS - 11
    modifies bits
    ensures Holds(bits[..], f + BitsOf(nWordIndex, 11))
  {
    ghost var x := BitsOf(nWordIndex, 11);
    var ki := 0;
    assert f + x[..0] == f;
    while ki < 11
      invariant 0 <= ki <= 11 && Holds(bits[..], f + x[..ki])
    {
      var k := nBitsCount + ki;
      AndPow2(nWordIndex, 10 - ki);
      BitRange(nWordIndex, 10 - ki);
      ghost var b := bits[..];
      if And(nWordIndex, Pow2(10 - ki)) != 0 {
        bits[k / 8] := Or(bits[k / 8], Pow2(7 - k % 8));
      }
      HoldsNext(b, f + x[..ki], x[ki], bits[..]);
      assert f + x[..ki + 1] == (f + x[..ki]) + [x[ki]];
      ki := ki + 1;
    }
    assert x[..11] == x;
  }

  lemma {:induction false} HoldsNothing(b: seq<nat>)
    requires |b| == 33 && forall j | 0 <= j < 33 :: b[j] == 0
    ensures Holds(b, [])
  {
    forall k | 0 <= k < BUFFER_BITS ensures BufferBit(b, [], k) { BitZero(7 - k % 8); }
  }

  /** The words read so far are known, and done are their numbers. */
  predicate Read(w: seq<string>, ws: seq<string>, done: seq<nat>) {
    |done| <= |ws| && forall j | 0 <= j < |done| :: |ws[j]| <= 9 && Find(w, ws[j]) == done[j]
  }

  /** The words of ws from number c on begin at position i of m. */
  predicate Ahead(m: string, ws: seq<string>, i: nat, c: nat) {
    && i <= |m| + 1 && c <= |ws|
    && (i <= |m| ==> c < |ws| && Split(m[i..]) == ws[c..])
    && (i == |m| + 1 ==> 0 < c == |ws| && ws[c - 1] != "")
  }

  lemma SplitHead(t: string)
    ensures Split(t)[0] == t[..WordLen(t)]
    ensures WordLen(t) < |t| ==> Split(t)[1..] == Split(t[WordLen(t) + 1..])
    ensures WordLen(t) == |t| ==> |Split(t)| == 1
  {
    assert t[..|t|] == t;
  }

  /** The next word is the one at position i. */
  lemma NextWord(m: string, ws: seq<string>, i: nat, c: nat, n: nat)
    requires Ahead(m, ws, i, c) && i < |m| && n == WordLen(m[i..])
    ensures ws[c] == m[i..][..n] && Ahead(m, ws, i + n + 1, c + 1)
  {
    var t := m[i..];
    SplitHead(t);
    assert ws[c..][0] == ws[c] && ws[c..][1..] == ws[c + 1..];
    if n < |t| { assert m[i + n + 1..] == t[n + 1..]; }
  }

  /** What has been read is in the buffer. */
  predicate Stored(w: seq<string>, ws: seq<string>, done: seq<nat>, b: seq<nat>, count: nat) {
    Read(w, ws, done) && count == 11 * |done| && Holds(b, Flatten(done, 11))
  }

  /** Reads every word into the buffer; bad means that one was too long or unknown. */
  method ReadWords(w: seq<string>, m: string, bits: array<nat>, ghost ws: seq<string>)
    returns (bad: bool, nBitsCount: nat, ghost done: seq<nat>)
    requires bits.Length == 33 && Stored(w, ws, [], bits[..], 0) && Ahead(m, ws, 0, 0) && |ws| <= 24
    modifies bits
    ensures bad ==> !Known(w, ws)
    ensures !bad ==> Stored(w, ws, done, bits[..], nBitsCount) && (|done| == |ws| <==> ws[|ws| - 1] != "")
  {
    done := [];
    nBitsCount := 0;
    var i := 0;
    while i < |m|
      invariant Stored(w, ws, done, bits[..], nBitsCount) && Ahead(m, ws, i, |done|)
      decreases |m| + 1 - i
    {
      ghost var n := WordLen(m[i..]);
      NextWord(m, ws, i, |done|, n);
      var size;
      bad, size, done := ReadOne(w, m, i, bits, nBitsCount, done, ws);
      if bad { return; }
      nBitsCount := nBitsCount + 11;
      i := i + size + 1;
    }
    bad := false;
    LastWord(m, ws, i, |done|);
  }

  /** One word. */
  method ReadOne(w: seq<string>, m: string, i: nat, bits: array<nat>, nBitsCount: nat, ghost done: seq<nat>, ghost ws: seq<string>)
    returns (bad: bool, size: nat, ghost done': seq<nat>)
    requires bits.Length == 33 && i < |m| && |done| < |ws| <= 24 && ws[|done|] == m[i..][..WordLen(m[i..])]
    requires Stored(w, ws, done, bits[..], nBitsCount)
    modifies bits
    ensures bad ==> !Known(w, ws)
    ensures !bad ==> size == WordLen(m[i..]) && |done'| == |done| + 1 && Stored(w, ws, done', bits[..], nBitsCount + 11)
  {
    var word, tooLong := ReadWord(m, i);
    size, done' := |word|, done;
    if tooLong { return true, 0, done; }
    var nWordIndex := FindWord(w, word);
    if nWordIndex < 0 { return true, 0, done; }
    StoreNext(bits, nBitsCount, nWordIndex, done);
    done' := done + [nWordIndex];
    bad := false;
  }

  method StoreNext(bits: array<nat>, nBitsCount: nat, nWordIndex: nat, ghost done: seq<nat>)
    requires bits.Length == 33 && nBitsCount == 11 * |done| && |done| < 24 && Holds(bits[..], Flatten(done, 11))
    modifies bits
    ensures Holds(bits[..], Flatten(done + [nWordIndex], 11))
  {
    FlattenLength(done, 11);
    AtIs(11, |done|);
    FlattenSnoc(done, nWordIndex, 11);
    StoreWord(bits, nBitsCount, nWordIndex, Flatten(done, 11));
  }

  lemma LastWord(m: string, ws: seq<string>, i: nat, c: nat)
    requires Ahead(m, ws, i, c) && i >= |m|
    ensures c == |ws| <==> ws[|ws| - 1] != ""
  {
    if i == |m| {
      assert m[i..] == "" && Split("") == [""];
      assert |ws[c..]| == 1 && ws[c..][0] == ws[c];
    }
  }

  /** The leading q bits of a byte. */
  predicate IsMask(mask: nat, q: nat) {
    q <= 8 && mask == Times(Pow2(q) - 1, Pow2(8 - q))
  }

  lemma {:induction false} AndShift(x: nat, m: nat, k: nat)
    ensures x / Pow2(k) >= 0 && And(x, Times(m, Pow2(k))) == Times(And(x / Pow2(k), m), Pow2(k))
  {
    DivNat(x, Pow2(k));
    if k > 0 {
      AndShift(x / 2, m, k - 1);
      DivHalf(x, Pow2(k - 1));
      AndTwice(x, Times(m, Pow2(k - 1)));
      Doubled(m, Pow2(k - 1));
      Doubled(And(x / Pow2(k), m), Pow2(k - 1));
    }
  }

  lemma Doubled(a: nat, b: nat)
    ensures Times(a, 2 * b) == 2 * Times(a, b)
  {
  }

  lemma AndTwice(x: nat, y: nat)
    ensures And(x, 2 * y) == 2 * And(x / 2, y)
  {
    assert (2 * y) / 2 == y;
  }

  lemma MaskKeeps(x: nat, q: nat, mask: nat)
    requires x < 256 && IsMask(mask, q)
    ensures x / Pow2(8 - q) >= 0 && And(x, mask) == Times(x / Pow2(8 - q), Pow2(8 - q))
  {
    var p := Pow2(8 - q);
    AndShift(x, Pow2(q) - 1, 8 - q);
    AndMask(x / p, q);
    HighBelow(x, q);
    DivUnique(x / p, Pow2(q), 0, x / p);
  }

  lemma HighBelow(x: nat, q: nat)
    requires x < 256 && q <= 8
    ensures 0 <= x / Pow2(8 - q) < Pow2(q)
  {
    DivNat(x, Pow2(8 - q));
    Pow2Add(8 - q, q);
    assert Pow2(8) == 256;
    DivBounds(x, Pow2(8 - q), Pow2(q));
  }

  /** Leading bits are the bits of the high part. */
  lemma TopIs(x: nat, q: nat)
    requires x < 256 && q <= 8
    ensures x / Pow2(8 - q) >= 0 && Num(Top(x, q), 2) == x / Pow2(8 - q) && Top(x, q) == BitsOf(x / Pow2(8 - q), q)
  {
    HighBelow(x, q);
    var t, b := Top(x, q), BitsOf(x / Pow2(8 - q), q);
    forall j | 0 <= j < q ensures t[j] == b[j] {
      BitShift(x, 8 - q, q - 1 - j);
    }
    assert t == b;
    NumBitsOf(x / Pow2(8 - q), q);
  }

  /** Comparing masked bytes compares their leading bits. */
  lemma MaskedTop(x: nat, y: nat, q: nat, mask: nat)
    requires x < 256 && y < 256 && IsMask(mask, q)
    ensures And(x, mask) == And(y, mask) <==> Top(x, q) == Top(y, q)
  {
    MaskKeeps(x, q, mask);
    MaskKeeps(y, q, mask);
    TopIs(x, q);
    TopIs(y, q);
    TimesEqual(x / Pow2(8 - q), y / Pow2(8 - q), Pow2(8 - q));
  }

  lemma TimesEqual(a: nat, b: nat, p: nat)
    requires p > 0
    ensures Times(a, p) == Times(b, p) <==> a == b
  {
    if a < b { MulMono(p, a + 1, b); }
    if b < a { MulMono(p, b + 1, a); }
  }

  lemma {:induction false} BitShift(x: nat, k: nat, j: nat)
    ensures x / Pow2(k) >= 0 && Bit(x / Pow2(k), j) == Bit(x, j + k)
  {
    DivNat(x, Pow2(k));
    if k > 0 {
      BitShift(x / 2, k - 1, j);
      DivHalf(x, Pow2(k - 1));
    }
  }

  /** All eight bits. */
  lemma WholeTop(x: nat, y: nat)
    requires x < 256 && y < 256
    ensures x == y <==> Top(x, 8) == Top(y, 8)
  {
    assert Pow2(8) == 256;
    NumBitsOf(x, 8);
    NumBitsOf(y, 8);
    assert Top(x, 8) == BitsOf(x, 8) && Top(y, 8) == BitsOf(y, 8);
  }

  method SameMasked(x: nat, y: nat, mask: nat, ghost q: nat) returns (same: bool)
    requires x < 256 && y < 256 && IsMask(mask, q)
    ensures same <==> Top(x, q) == Top(y, q)
  {
    MaskedTop(x, y, q, mask);
    same := And(x, mask) == And(y, mask);
  }

  /** Compares the leading bits that a sentence of n words carries. */
  method SameTop(x: nat, y: nat, n: nat) returns (same: bool)
    requires x < 256 && y < 256 && GoodCount(n)
    ensures same <==> Top(x, n / 3) == Top(y, n / 3)
  {
    assert Pow2(2) == 4 && Pow2(4) == 16 && Pow2(6) == 64;
    if n == 12 {
      same := SameMasked(x, y, 0xF0, 4);
    } else if n == 18 {
      same := SameMasked(x, y, 0xFC, 6);
    } else {
      WholeTop(x, y);
      same := x == y;
    }
  }

  method CompareChecksum(bits: array<nat>, n: nat, hash: Hash) returns (ok: bool)
    requires bits.Length == 33 && Digits(bits[..], 256) && GoodCount(n)
    modifies bits
    ensures var b, len := old(bits[..]), n * 4 / 3;
      ok <==> Top(hash(b[..len])[0], len / 4) == Top(b[len], len / 4)
  {
    var len := n * 4 / 3;
    assert len / 4 == n / 3;
    ghost var b := bits[..];
    bits[32] := bits[len];
    var digest := hash(bits[..len]);
    assert bits[..len] == b[..len];
    ok := SameTop(digest[0], bits[32], n);
  }

  /** True exactly for the sentences accepted. */
  method Check(w: seq<string>, hash: Hash, mnemonic: string) returns (ok: bool)
    ensures ok <==> Accepts(w, hash, mnemonic)
  {
    if mnemonic == "" { return false; }
    var nWordCount := CountWords(mnemonic);
    if nWordCount != 12 && nWordCount != 18 && nWordCount != 24 { return false; }
    ok := CheckWordsOf(w, hash, mnemonic, nWordCount, Split(mnemonic));
  }

  /** Once the words have been counted. */
  method CheckWordsOf(w: seq<string>, hash: Hash, mnemonic: string, nWordCount: nat, ghost ws: seq<string>) returns (ok: bool)
    requires ws == Split(mnemonic) && nWordCount == |ws| && GoodCount(|ws|)
    ensures ok <==> Known(w, ws) && ws[|ws| - 1] != "" && ChecksumOk(Numbers(w, ws), hash)
  {
    var bits := new nat[33](_ => 0);
    HoldsNothing(bits[..]);
    Starts(w, mnemonic, ws, bits[..]);
    ghost var done;
    var bad, nBitsCount;
    bad, nBitsCount, done := ReadWords(w, mnemonic, bits, ws);
    if bad { return false; }
    if nBitsCount != nWordCount * 11 { return false; }
    ReadAll(w, ws, done, bits[..], nBitsCount);
    ok := CompareChecksum(bits, nWordCount, hash);
  }

  lemma Starts(w: seq<string>, m: string, ws: seq<string>, b: seq<nat>)
    requires ws == Split(m) && Holds(b, [])
    ensures Stored(w, ws, [], b, 0) && Ahead(m, ws, 0, 0)
  {
    assert m[0..] == m && ws[0..] == ws;
  }

  /** A full count of bits means that every word was read. */
  lemma ReadAll(w: seq<string>, ws: seq<string>, done: seq<nat>, b: seq<nat>, count: nat)
    requires |ws| <= 24 && Stored(w, ws, done, b, count) && count == |ws| * 11
    ensures Known(w, ws) && done == Numbers(w, ws) && b == Pack(done) && Digits(b, 256)
  {
    HoldsPacked(b, done);
    assert done == Numbers(w, ws);
  }
}
