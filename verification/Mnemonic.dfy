/** Mnemonics (src/bip39.cpp): what a sentence of words stands for, what the checker accepts,
    and when it accepts what the printer wrote. */
module Mnemonic {
  import opened Bits
  import opened Radix
  import opened BitStreams

  type Hash = f: seq<nat> -> seq<nat> | forall b :: |f(b)| == 32 && Digits(f(b), 256)
    witness (b => seq(32, i => 0))

  // ----- Sentences -----

  /** Words with single spaces between them. */
  function Join(ws: seq<string>): string {
    if |ws| == 0 then "" else if |ws| == 1 then ws[0] else ws[0] + " " + Join(ws[1..])
  }

  /** The length of the first word. */
  function WordLen(m: string): (n: nat)
    ensures n <= |m| && (forall i | 0 <= i < n :: m[i] != ' ') && (n < |m| ==> m[n] == ' ')
  {
    if m == "" || m[0] == ' ' then 0 else 1 + WordLen(m[1..])
  }

  function Split(m: string): (ws: seq<string>)
    ensures |ws| > 0
    decreases |m|
  {
    var n := WordLen(m);
    if n == |m| then [m] else [m[..n]] + Split(m[n + 1..])
  }

  lemma {:induction false} WordLenIs(m: string, n: nat)
    requires n <= |m| && (forall i | 0 <= i < n :: m[i] != ' ') && (n < |m| ==> m[n] == ' ')
    ensures WordLen(m) == n
  {
    if n > 0 { WordLenIs(m[1..], n - 1); }
  }

  lemma {:induction false} SplitJoin(ws: seq<string>)
    requires ws != [] && forall i | 0 <= i < |ws| :: ' ' !in ws[i]
    ensures Split(Join(ws)) == ws
  {
    var m := Join(ws);
    if |ws| == 1 {
      WordLenIs(m, |m|);
    } else {
      WordLenIs(m, |ws[0]|);
      assert m[..|ws[0]|] == ws[0] && m[|ws[0]| + 1..] == Join(ws[1..]);
      SplitJoin(ws[1..]);
    }
  }

  lemma {:induction false} JoinSnoc(ws: seq<string>, x: string)
    requires ws != []
    ensures Join(ws + [x]) == Join(ws) + " " + x
  {
    if |ws| > 1 {
      JoinSnoc(ws[1..], x);
      assert (ws + [x])[1..] == ws[1..] + [x];
    }
  }

  // ----- The word list -----

  predicate Differ(w: seq<string>, i: nat, j: nat)
    requires i < |w| && j < |w|
  {
    w[i] != w[j]
  }

  predicate Solid(w: seq<string>, i: nat)
    requires i < |w|
  {
    ' ' !in w[i]
  }

  predicate WordList(w: seq<string>) {
    && |w| == 2048
    && (forall i, j {:trigger Differ(w, i, j)} | 0 <= i < j < |w| :: Differ(w, i, j))
    && (forall i {:trigger Solid(w, i)} | 0 <= i < |w| :: Solid(w, i))
  }

  /** The first place of a word from number i on, or -1. */
  function FindFrom(w: seq<string>, x: string, i: nat): (r: int)
    requires i <= |w|
    ensures r < |w| && (r >= 0 ==> i <= r && w[r] == x)
    decreases |w| - i
  {
    if i == |w| then -1 else if w[i] == x then i else FindFrom(w, x, i + 1)
  }

  function Find(w: seq<string>, x: string): int { FindFrom(w, x, 0) }

  lemma {:induction false} FindsFrom(w: seq<string>, k: nat, i: nat)
    requires WordList(w) && i <= k < |w|
    ensures FindFrom(w, w[k], i) == k
    decreases k - i
  {
    if i < k {
      assert Differ(w, i, k);
      FindsFrom(w, k, i + 1);
    }
  }

  function WordsAt(w: seq<string>, idx: seq<nat>): (ws: seq<string>)
    requires forall i | 0 <= i < |idx| :: idx[i] < |w|
    ensures |ws| == |idx| && forall i | 0 <= i < |idx| :: ws[i] == w[idx[i]]
  {
    seq(|idx|, i requires 0 <= i < |idx| => w[idx[i]])
  }

  // ----- Printing -----

  predicate ValidLen(len: int) { len % 4 == 0 && 16 <= len <= 32 }

  lemma Room(d: seq<nat>, h: nat)
    requires ValidLen(|d|)
    ensures |Flatten(d + [h], 8)| == 8 * |d| + 8
    ensures At(11, |d| * 3 / 4) == 8 * |d| + |d| / 4 <= 8 * |d| + 8
  {
    FlattenLength(d + [h], 8);
    AtIs(8, |d| + 1);
    AtIs(11, |d| * 3 / 4);
    Quarters(|d|);
  }

  lemma Quarters(len: nat)
    requires len % 4 == 0
    ensures 11 * (len * 3 / 4) == 8 * len + len / 4
  {
    var q := len / 4;
    assert len == 4 * q;
  }

  /** Data followed by a byte of checksum, as numbers of eleven bits. */
  function Indices(d: seq<nat>, h: nat): (idx: seq<nat>)
    requires ValidLen(|d|)
    ensures |idx| == |d| * 3 / 4
  {
    Room(d, h);
    Group(Flatten(d + [h], 8), 11, |d| * 3 / 4)
  }

  lemma IndicesBelow(d: seq<nat>, h: nat)
    requires ValidLen(|d|)
    ensures forall i | 0 <= i < |Indices(d, h)| :: Indices(d, h)[i] < 2048
  {
    Room(d, h);
    FlattenDigits(d + [h], 8);
    GroupsBelow(Flatten(d + [h], 8), |d| * 3 / 4);
  }

  lemma GroupsBelow(s: seq<nat>, n: nat)
    requires At(11, n) <= |s| && Digits(s, 2)
    ensures forall i | 0 <= i < n :: Group(s, 11, n)[i] < 2048
  {
    assert Pow2(11) == 2048;
    forall i | 0 <= i < n ensures Group(s, 11, n)[i] < 2048 {
      GroupAt(s, 11, n, i);
      BitsOfNum(Field(s, 11, i));
    }
  }

  /** The sentence for some data and its hash. */
  function Sentence(w: seq<string>, d: seq<nat>, h: nat): string
    requires |w| == 2048 && ValidLen(|d|)
  {
    IndicesBelow(d, h);
    Join(WordsAt(w, Indices(d, h)))
  }

  function FromData(w: seq<string>, hash: Hash, data: seq<nat>, len: int): string
    requires |w| == 2048 && (ValidLen(len) ==> len <= |data|)
  {
    if ValidLen(len) then Sentence(w, data[..len], hash(data[..len])[0]) else ""
  }

  // ----- Checking -----

  const BUFFER_BITS: nat := 264

  /** The fields of eleven bits, filled up with zeros. */
  function Padded(idx: seq<nat>): (s: seq<nat>)
    requires |idx| <= 24
    ensures |s| == BUFFER_BITS
  {
    FlattenLength(idx, 11);
    AtIs(11, |idx|);
    Flatten(idx, 11) + seq(BUFFER_BITS - 11 * |idx|, i => 0)
  }

  /** The 33 bytes that the words spell. */
  function Pack(idx: seq<nat>): (b: seq<nat>)
    requires |idx| <= 24
    ensures |b| == 33
  {
    AtIs(8, 33);
    Group(Padded(idx), 8, 33)
  }

  /** The leading bits of a byte. */
  function Top(x: nat, q: nat): seq<nat>
    requires q <= 8
  {
    BitsOf(x, 8)[..q]
  }

  function Numbers(w: seq<string>, ws: seq<string>): (idx: seq<nat>)
    requires forall i | 0 <= i < |ws| :: Find(w, ws[i]) >= 0
    ensures |idx| == |ws| && forall i | 0 <= i < |ws| :: idx[i] == Find(w, ws[i])
  {
    seq(|ws|, i requires 0 <= i < |ws| => Find(w, ws[i]))
  }

  predicate GoodCount(n: nat) { n == 12 || n == 18 || n == 24 }

  predicate Known(w: seq<string>, ws: seq<string>) {
    forall i | 0 <= i < |ws| :: |ws[i]| <= 9 && Find(w, ws[i]) >= 0
  }

  /** The checksum bits at the end are those of the hash of the data before them. */
  predicate ChecksumOk(idx: seq<nat>, hash: Hash)
    requires GoodCount(|idx|)
  {
    var b, len := Pack(idx), |idx| * 4 / 3;
    Top(hash(b[..len])[0], len / 4) == Top(b[len], len / 4)
  }

  /** What the checker accepts. */
  predicate Accepts(w: seq<string>, hash: Hash, m: string) {
    var ws := Split(m);
    m != "" && GoodCount(|ws|) && Known(w, ws) && ws[|ws| - 1] != "" && ChecksumOk(Numbers(w, ws), hash)
  }

  // ----- The two together -----

  lemma {:induction false} GroupPrefix(s: seq<nat>, width: nat, n: nat, k: nat)
    requires At(width, n) <= |s| && k <= n && At(width, k) <= |s|
    ensures Group(s, width, n)[..k] == Group(s, width, k)
  {
    if k < n {
      assert At(width, n - 1) <= At(width, n);
      GroupPrefix(s, width, n - 1, k);
    } else {
      assert Group(s, width, n)[..n] == Group(s, width, n);
    }
  }

  /** Packing the words of a sentence gives back the data, then the leading checksum bits. */
  lemma Rebuilt(d: seq<nat>, h: nat)
    requires ValidLen(|d|) && Digits(d, 256)
    ensures var b := Pack(Indices(d, h));
      b[..|d|] == d && Top(b[|d|], |d| / 4) == Top(h, |d| / 4)
  {
    var s, idx := Flatten(d + [h], 8), Indices(d, h);
    var p, t := Padded(idx), 8 * |d| + |d| / 4;
    Room(d, h);
    FlattenDigits(d + [h], 8);
    FlattenGroup(s, 11, |d| * 3 / 4);
    assert p[..t] == s[..t];
    FlattenDigits(idx, 11);
    PackBack(p, s, d, h, t);
  }

  lemma PackBack(p: seq<nat>, s: seq<nat>, d: seq<nat>, h: nat, t: nat)
    requires s == Flatten(d + [h], 8) && Digits(d, 256) && |d| < 33 && |p| == BUFFER_BITS && Digits(p, 2)
    requires t == 8 * |d| + |d| / 4 <= |s| && p[..t] == s[..t]
    ensures At(8, 33) <= |p| && Group(p, 8, 33)[..|d|] == d && Top(Group(p, 8, 33)[|d|], |d| / 4) == Top(h, |d| / 4)
  {
    DataBack(p, s, d, h, t);
    ChecksumBack(p, s, d + [h], |d|, t);
    GroupPrefix(p, 8, 33, |d|);
  }

  lemma DataBack(p: seq<nat>, s: seq<nat>, d: seq<nat>, h: nat, t: nat)
    requires s == Flatten(d + [h], 8) && Digits(d, 256) && 8 * |d| <= t <= |p| && t <= |s| && p[..t] == s[..t]
    ensures At(8, |d|) <= |p| && Group(p, 8, |d|) == d
  {
    FlattenSnoc(d, h, 8);
    FlattenLength(d, 8);
    AtIs(8, |d|);
    assert p[..8 * |d|] == p[..t][..8 * |d|] == Flatten(d, 8);
    assert Pow2(8) == 256;
    GroupFlatten(p, d, 8);
  }

  lemma ChecksumBack(p: seq<nat>, s: seq<nat>, e: seq<nat>, len: nat, t: nat)
    requires |e| == len + 1 && s == Flatten(e, 8) && len < 33 && |p| == BUFFER_BITS && Digits(p, 2)
    requires t == 8 * len + len / 4 <= |s| && p[..t] == s[..t]
    ensures At(8, 33) <= |p| && Top(Group(p, 8, 33)[len], len / 4) == Top(e[len], len / 4)
  {
    AtIs(8, 33);
    AtIs(8, len);
    GroupAt(p, 8, 33, len);
    BitsOfNum(Field(p, 8, len));
    FieldOfFlatten(e, 8, len);
    var q := len / 4;
    assert Field(p, 8, len)[..q] == p[..t][8 * len..];
    assert Field(s, 8, len)[..q] == s[..t][8 * len..];
  }

  /** The checker accepts a printed sentence exactly when the data has 16, 24 or 32 bytes, no
      word used is longer than nine characters, and the last word used is not empty. */
  lemma CheckFromData(w: seq<string>, hash: Hash, data: seq<nat>, len: int)
    requires WordList(w) && Digits(data, 256) && (ValidLen(len) ==> len <= |data|)
    ensures Accepts(w, hash, FromData(w, hash, data, len)) <==>
      (len == 16 || len == 24 || len == 32) && AllShort(w, Indices(data[..len], hash(data[..len])[0]))
  {
    if ValidLen(len) {
      CheckSentence(w, hash, data[..len], hash(data[..len])[0]);
      CountOf(len);
    }
  }

  lemma CountOf(len: int)
    requires ValidLen(len)
    ensures GoodCount(len * 3 / 4) <==> len == 16 || len == 24 || len == 32
    ensures GoodCount(len * 3 / 4) ==> len * 3 / 4 * 4 / 3 == len
  {
  }

  lemma CheckSentence(w: seq<string>, hash: Hash, d: seq<nat>, h: nat)
    requires WordList(w) && Digits(d, 256) && ValidLen(|d|) && h == hash(d)[0]
    ensures Accepts(w, hash, Sentence(w, d, h)) <==> GoodCount(|d| * 3 / 4) && AllShort(w, Indices(d, h))
  {
    var idx := Indices(d, h);
    IndicesBelow(d, h);
    if GoodCount(|idx|) { RightChecksum(d, h, hash, idx); }
    CheckWords(w, hash, idx);
  }

  lemma CheckWords(w: seq<string>, hash: Hash, idx: seq<nat>)
    requires WordList(w) && |idx| > 1 && (forall i | 0 <= i < |idx| :: idx[i] < 2048)
    requires GoodCount(|idx|) ==> ChecksumOk(idx, hash)
    ensures Accepts(w, hash, Join(WordsAt(w, idx))) <==> GoodCount(|idx|) && AllShort(w, idx)
  {
    Reread(w, idx);
    AcceptsIff(w, hash, Join(WordsAt(w, idx)), WordsAt(w, idx), idx, AllShort(w, idx));
  }

  lemma RightChecksum(d: seq<nat>, h: nat, hash: Hash, idx: seq<nat>)
    requires Digits(d, 256) && ValidLen(|d|) && h == hash(d)[0] && idx == Indices(d, h) && GoodCount(|idx|)
    ensures ChecksumOk(idx, hash)
  {
    Rebuilt(d, h);
    CountOf(|d|);
  }

  lemma AcceptsIff(w: seq<string>, hash: Hash, m: string, ws: seq<string>, idx: seq<nat>, short: bool)
    requires m != "" && Split(m) == ws && |ws| == |idx| && (Known(w, ws) ==> Numbers(w, ws) == idx)
    requires Known(w, ws) && ws[|ws| - 1] != "" <==> short
    requires GoodCount(|idx|) ==> ChecksumOk(idx, hash)
    ensures Accepts(w, hash, m) <==> GoodCount(|idx|) && short
  {
  }

  predicate AllShort(w: seq<string>, idx: seq<nat>) {
    && idx != [] && (forall i | 0 <= i < |idx| :: idx[i] < |w|)
    && (forall i | 0 <= i < |idx| :: |w[idx[i]]| <= 9)
    && w[idx[|idx| - 1]] != ""
  }

  /** Reading the words of a sentence gives back their numbers. */
  lemma Reread(w: seq<string>, idx: seq<nat>)
    requires WordList(w) && |idx| > 1 && forall i | 0 <= i < |idx| :: idx[i] < 2048
    ensures var ws := WordsAt(w, idx);
      Join(ws) != "" && Split(Join(ws)) == ws && (forall i | 0 <= i < |ws| :: Find(w, ws[i]) == idx[i])
    ensures var ws := WordsAt(w, idx); Known(w, ws) && ws[|ws| - 1] != "" <==> AllShort(w, idx)
    ensures var ws := WordsAt(w, idx); Known(w, ws) ==> Numbers(w, ws) == idx
  {
    var ws := WordsAt(w, idx);
    forall i | 0 <= i < |ws| ensures ' ' !in ws[i] { assert Solid(w, idx[i]); }
    SplitJoin(ws);
    forall i | 0 <= i < |ws| ensures Find(w, ws[i]) == idx[i] { FindsFrom(w, idx[i], 0); }
    if Known(w, ws) { assert Numbers(w, ws) == idx; }
  }

  /** With the words of the list one to nine characters long, as in the standard list, every
      sentence printed for 16, 24 or 32 bytes is accepted, and no other. */
  lemma CheckPlain(w: seq<string>, hash: Hash, data: seq<nat>, len: int)
    requires WordList(w) && (forall i | 0 <= i < |w| :: 1 <= |w[i]| <= 9)
    requires Digits(data, 256) && (ValidLen(len) ==> len <= |data|)
    ensures Accepts(w, hash, FromData(w, hash, data, len)) <==> len == 16 || len == 24 || len == 32
  {
    CheckFromData(w, hash, data, len);
    if ValidLen(len) { IndicesBelow(data[..len], hash(data[..len])[0]); }
  }

  // ----- What is accepted has been printed -----

  lemma {:induction false} JoinSplit(m: string)
    ensures Join(Split(m)) == m
    decreases |m|
  {
    var n := WordLen(m);
    if n < |m| {
      JoinSplit(m[n + 1..]);
      var ws := Split(m);
      assert ws[0] == m[..n] && ws[1..] == Split(m[n + 1..]);
      assert m == m[..n] + " " + m[n + 1..];
    }
  }

  lemma SpellBits(idx: seq<nat>, p: seq<nat>, width: nat, n: nat, d: seq<nat>, x: nat, h: nat, q: nat)
    requires |idx| <= 24 && (forall i | 0 <= i < |idx| :: idx[i] < 2048) && p == Padded(idx)
    requires |d| < n && At(width, n) <= |p| && d == Group(p, width, n)[..|d|] && x == Group(p, width, n)[|d|]
    requires q <= width && BitsOf(h, width)[..q] == BitsOf(x, width)[..q] && At(11, |idx|) == At(width, |d|) + q
    ensures At(11, |idx|) <= |Flatten(d + [h], width)| && Group(Flatten(d + [h], width), 11, |idx|) == idx
  {
    FlattenDigits(idx, 11);
    BitsBack(p, width, n, d, x, h, q);
    IndicesBack(Flatten(d + [h], width), p, idx);
  }

  /** The data that words spell, and their checksum, make the same words again. */
  lemma SpellBack(idx: seq<nat>, d: seq<nat>, h: nat)
    requires |idx| <= 24 && ValidLen(|d|) && |d| * 3 == |idx| * 4 && (forall i | 0 <= i < |idx| :: idx[i] < 2048)
    requires d == Pack(idx)[..|d|] && Top(h, |d| / 4) == Top(Pack(idx)[|d|], |d| / 4)
    ensures Indices(d, h) == idx && Digits(d, 256)
  {
    Lengths(|idx|, |d|);
    AtIs(8, 33);
    BytesOfPack(idx, d);
    SpellBits(idx, Padded(idx), 8, 33, d, Pack(idx)[|d|], h, |d| / 4);
  }

  lemma Lengths(k: nat, len: nat)
    requires len % 4 == 0 && len * 3 == k * 4
    ensures At(11, k) == At(8, len) + len / 4
  {
    AtIs(11, k);
    AtIs(8, len);
    Quarters(len);
  }

  lemma DataLength(k: nat)
    requires GoodCount(k)
    ensures var len := k * 4 / 3; ValidLen(len) && len * 3 == k * 4 && len * 3 / 4 == k
  {
  }

  lemma IndicesBack(s: seq<nat>, p: seq<nat>, idx: seq<nat>)
    requires |idx| <= 24 && (forall i | 0 <= i < |idx| :: idx[i] < 2048) && p == Padded(idx)
    requires At(11, |idx|) <= |s| && At(11, |idx|) <= |p| && s[..At(11, |idx|)] == p[..At(11, |idx|)]
    ensures Group(s, 11, |idx|) == idx
  {
    FlattenLength(idx, 11);
    assert p[..At(11, |idx|)] == Flatten(idx, 11);
    assert Pow2(11) == 2048;
    GroupFlatten(s, idx, 11);
  }

  lemma BytesOfPack(idx: seq<nat>, d: seq<nat>)
    requires |idx| <= 24 && |d| <= 33 && d == Pack(idx)[..|d|]
    ensures Digits(d, 256)
  {
    FlattenDigits(idx, 11);
    AtIs(8, 33);
    assert Pow2(8) == 256;
    forall i | 0 <= i < |d| ensures d[i] < 256 { GroupBelow(Padded(idx), 8, 33, i); }
  }

  lemma GroupBelow(p: seq<nat>, width: nat, n: nat, i: nat)
    requires Digits(p, 2) && At(width, n) <= |p| && i < n
    ensures Group(p, width, n)[i] < Pow2(width)
  {
    GroupAt(p, width, n, i);
    BitsOfNum(Field(p, width, i));
  }

  lemma DataBits(p: seq<nat>, width: nat, n: nat, d: seq<nat>)
    requires Digits(p, 2) && |d| <= n && At(width, n) <= |p| && d == Group(p, width, n)[..|d|]
    ensures At(width, |d|) <= |p| && Flatten(d, width) == p[..At(width, |d|)]
  {
    if |d| < n { AtMono(width, |d|, n); }
    GroupPrefix(p, width, n, |d|);
    FlattenGroup(p, width, |d|);
  }

  lemma ChecksumBits(p: seq<nat>, width: nat, n: nat, len: nat, x: nat)
    requires Digits(p, 2) && len < n && At(width, n) <= |p| && x == Group(p, width, n)[len]
    ensures At(width, len) + width <= |p| && Field(p, width, len) == BitsOf(x, width)
  {
    GroupAt(p, width, n, len);
    BitsOfNum(Field(p, width, len));
  }

  lemma Glued(p: seq<nat>, a: seq<nat>, b: seq<nat>, c: seq<nat>, q: nat)
    requires |a| + |b| <= |p| && q <= |b| && q <= |c| && p[..|a|] == a && p[|a|..|a| + |b|] == b && b[..q] == c[..q]
    ensures (a + c)[..|a| + q] == p[..|a| + q]
  {
    assert p[..|a| + q] == p[..|a|] + p[|a|..|a| + |b|][..q];
  }

  /** The bits of the data and of the checksum byte, as far as they were compared. */
  lemma BitsBack(p: seq<nat>, width: nat, n: nat, d: seq<nat>, x: nat, h: nat, q: nat)
    requires Digits(p, 2) && |d| < n && At(width, n) <= |p| && d == Group(p, width, n)[..|d|] && x == Group(p, width, n)[|d|]
    requires q <= width && BitsOf(h, width)[..q] == BitsOf(x, width)[..q]
    ensures var s, t := Flatten(d + [h], width), At(width, |d|) + q; t <= |s| && t <= |p| && s[..t] == p[..t]
  {
    DataBits(p, width, n, d);
    ChecksumBits(p, width, n, |d|, x);
    FlattenSnoc(d, h, width);
    FlattenLength(d, width);
    Glued(p, Flatten(d, width), BitsOf(x, width), BitsOf(h, width), q);
  }

  /** The sentence printed for this data. */
  predicate Spells(w: seq<string>, hash: Hash, d: seq<nat>, m: string)
    requires |w| == 2048
  {
    && (|d| == 16 || |d| == 24 || |d| == 32) && Digits(d, 256)
    && AllShort(w, Indices(d, hash(d)[0])) && m == FromData(w, hash, d, |d|)
  }

  lemma SameWords(w: seq<string>, m: string, ws: seq<string>, idx: seq<nat>)
    requires |w| == 2048 && ws == Split(m) && Known(w, ws) && idx == Numbers(w, ws) && ws[|ws| - 1] != ""
    ensures (forall i | 0 <= i < |idx| :: idx[i] < 2048) && m == Join(WordsAt(w, idx)) && AllShort(w, idx)
  {
    assert WordsAt(w, idx) == ws;
    JoinSplit(m);
  }

  lemma SameSentence(w: seq<string>, hash: Hash, d: seq<nat>, idx: seq<nat>)
    requires |w| == 2048 && ValidLen(|d|) && Indices(d, hash(d)[0]) == idx && forall i | 0 <= i < |idx| :: idx[i] < 2048
    ensures FromData(w, hash, d, |d|) == Join(WordsAt(w, idx))
  {
    assert d[..|d|] == d;
  }

  lemma DataOf(idx: seq<nat>, hash: Hash) returns (d: seq<nat>)
    requires GoodCount(|idx|) && ChecksumOk(idx, hash) && (forall i | 0 <= i < |idx| :: idx[i] < 2048)
    ensures (|d| == 16 || |d| == 24 || |d| == 32) && Digits(d, 256) && Indices(d, hash(d)[0]) == idx
  {
    DataLength(|idx|);
    d := Pack(idx)[..|idx| * 4 / 3];
    SpellBack(idx, d, hash(d)[0]);
  }

  lemma AcceptedSpells(w: seq<string>, hash: Hash, m: string) returns (d: seq<nat>)
    requires WordList(w) && Accepts(w, hash, m)
    ensures Spells(w, hash, d, m)
  {
    var ws := Split(m);
    var idx := Numbers(w, ws);
    SameWords(w, m, ws, idx);
    d := DataOf(idx, hash);
    SameSentence(w, hash, d, idx);
  }

  /** The checker accepts exactly the sentences printed for 16, 24 or 32 bytes of data in
      words it can read. */
  lemma AcceptsExactly(w: seq<string>, hash: Hash, m: string)
    requires WordList(w)
    ensures Accepts(w, hash, m) <==> exists d :: Spells(w, hash, d, m)
  {
    if Accepts(w, hash, m) {
      var d := AcceptedSpells(w, hash, m);
    }
    if exists d :: Spells(w, hash, d, m) {
      var d :| Spells(w, hash, d, m);
      assert d[..|d|] == d;
      CheckFromData(w, hash, d, |d|);
    }
  }
}
