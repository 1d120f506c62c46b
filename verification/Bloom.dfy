/** Bloom filters and the rolling filter made of two of them (src/bloom.cpp), as values. The
    hash is any function of a seed and a key. */
module Bloom {
  import opened Bits

  type Key = seq<nat>

  type Hasher = (nat, Key) -> nat

  datatype Filter = Filter(vData: seq<nat>, isFull: bool, isEmpty: bool, nHashFuncs: nat, nTweak: nat)

  const SEED_STEP: nat := 0xFBA4C795

  /** The bit that hash function number i assigns to a key. */
  function Index(size: nat, tweak: nat, i: nat, key: Key, h: Hasher): (r: nat)
    requires size > 0
    ensures r < 8 * size
  {
    h((i * SEED_STEP + tweak) % 0x1_0000_0000, key) % (8 * size)
  }

  predicate IsSet(v: seq<nat>, p: nat)
    requires p < 8 * |v|
  {
    Bit(v[p / 8], p % 8) == 1
  }

  /** v[p >> 3] |= 1 << (7 & p) */
  function SetBit(v: seq<nat>, p: nat): (r: seq<nat>)
    requires p < 8 * |v|
    ensures |r| == |v|
  {
    v[p / 8 := Or(v[p / 8], Pow2(p % 8))]
  }

  /** Sets the bits of the first n hash functions. */
  function SetFirst(v: seq<nat>, tweak: nat, n: nat, key: Key, h: Hasher): (r: seq<nat>)
    requires n > 0 ==> |v| > 0
    ensures |r| == |v|
  {
    if n == 0 then v else SetBit(SetFirst(v, tweak, n - 1, key, h), Index(|v|, tweak, n - 1, key, h))
  }

  /** A filter on which neither inserting nor looking up divides by zero. */
  predicate Usable(f: Filter) {
    f.nHashFuncs > 0 && !f.isFull ==> |f.vData| > 0
  }

  function Insert(f: Filter, key: Key, h: Hasher): (r: Filter)
    requires Usable(f)
    ensures Usable(r) && r.nHashFuncs == f.nHashFuncs && r.nTweak == f.nTweak && |r.vData| == |f.vData|
  {
    if f.isFull then f
    else f.(vData := SetFirst(f.vData, f.nTweak, f.nHashFuncs, key, h), isEmpty := false)
  }

  predicate AllSet(v: seq<nat>, tweak: nat, n: nat, key: Key, h: Hasher)
    requires n > 0 ==> |v| > 0
  {
    forall i | 0 <= i < n :: IsSet(v, Index(|v|, tweak, i, key, h))
  }

  predicate Contains(f: Filter, key: Key, h: Hasher)
    requires Usable(f)
  {
    f.isFull || (!f.isEmpty && AllSet(f.vData, f.nTweak, f.nHashFuncs, key, h))
  }

  function Clear(f: Filter): Filter {
    f.(vData := seq(|f.vData|, i => 0), isFull := false, isEmpty := true)
  }

  predicate AllBytes(v: seq<nat>, x: nat) {
    forall i | 0 <= i < |v| :: v[i] == x
  }

  function UpdateEmptyFull(f: Filter): Filter {
    f.(isFull := AllBytes(f.vData, 0xff), isEmpty := AllBytes(f.vData, 0))
  }

  // ----- Bits once set stay set -----

  lemma SetBitKeeps(v: seq<nat>, p: nat, q: nat)
    requires p < 8 * |v| && q < 8 * |v|
    ensures IsSet(SetBit(v, p), q) <==> q == p || IsSet(v, q)
  {
    if p / 8 == q / 8 {
      BitOr(v[p / 8], Pow2(p % 8), q % 8);
      BitPow2(p % 8, q % 8);
    }
  }

  lemma {:induction false} SetFirstKeeps(v: seq<nat>, tweak: nat, n: nat, key: Key, h: Hasher, q: nat)
    requires (n > 0 ==> |v| > 0) && q < 8 * |v|
    ensures IsSet(SetFirst(v, tweak, n, key, h), q) <==> IsSet(v, q) || exists i | 0 <= i < n :: Index(|v|, tweak, i, key, h) == q
  {
    if n > 0 {
      SetFirstKeeps(v, tweak, n - 1, key, h, q);
      SetBitKeeps(SetFirst(v, tweak, n - 1, key, h), Index(|v|, tweak, n - 1, key, h), q);
    }
  }

  // ----- No false negatives -----

  predicate KeySet(f: Filter, key: Key, h: Hasher) {
    f.nHashFuncs > 0 ==> |f.vData| > 0 && AllSet(f.vData, f.nTweak, f.nHashFuncs, key, h)
  }

  /** Every key given to the filter has its bits set, and the two flags tell the truth. */
  predicate Holds(f: Filter, keys: seq<Key>, h: Hasher) {
    && (f.isFull ==> AllBytes(f.vData, 0xff))
    && (!f.isFull ==> (f.isEmpty ==> keys == []) && forall k | 0 <= k < |keys| :: KeySet(f, keys[k], h))
  }

  lemma HoldsContains(f: Filter, keys: seq<Key>, h: Hasher, k: nat)
    requires Usable(f) && Holds(f, keys, h) && k < |keys|
    ensures Contains(f, keys[k], h)
  {
    assert !f.isFull ==> KeySet(f, keys[k], h);
  }

  lemma InsertSets(f: Filter, key: Key, other: Key, h: Hasher)
    requires Usable(f) && !f.isFull
    ensures KeySet(Insert(f, key, h), key, h)
    ensures KeySet(f, other, h) ==> KeySet(Insert(f, key, h), other, h)
  {
    if f.nHashFuncs > 0 {
      var g := Insert(f, key, h);
      forall i | 0 <= i < f.nHashFuncs
        ensures IsSet(g.vData, Index(|g.vData|, f.nTweak, i, key, h))
        ensures KeySet(f, other, h) ==> IsSet(g.vData, Index(|g.vData|, f.nTweak, i, other, h))
      {
        SetFirstKeeps(f.vData, f.nTweak, f.nHashFuncs, key, h, Index(|f.vData|, f.nTweak, i, key, h));
        SetFirstKeeps(f.vData, f.nTweak, f.nHashFuncs, key, h, Index(|f.vData|, f.nTweak, i, other, h));
      }
    }
  }

  lemma InsertHolds(f: Filter, keys: seq<Key>, key: Key, h: Hasher)
    requires Usable(f) && Holds(f, keys, h)
    ensures Holds(Insert(f, key, h), keys + [key], h)
  {
    if !f.isFull {
      forall k | 0 <= k < |keys| + 1 ensures KeySet(Insert(f, key, h), (keys + [key])[k], h) {
        InsertSets(f, key, if k < |keys| then keys[k] else key, h);
      }
    }
  }

  /** Re-deriving the flags at any moment makes no key disappear, exactly when there is a hash
      function, or no data at all, or some bit set already. */
  lemma UpdateExact(f: Filter, keys: seq<Key>, h: Hasher)
    requires Usable(f) && Holds(f, keys, h) && keys != []
    ensures Usable(UpdateEmptyFull(f))
    ensures (forall k | 0 <= k < |keys| :: Contains(UpdateEmptyFull(f), keys[k], h)) <==>
      f.nHashFuncs > 0 || |f.vData| == 0 || !AllBytes(f.vData, 0)
    ensures f.nHashFuncs > 0 || |f.vData| == 0 || !AllBytes(f.vData, 0) ==> Holds(UpdateEmptyFull(f), keys, h)
  {
    var g := UpdateEmptyFull(f);
    if f.nHashFuncs > 0 || |f.vData| == 0 || !AllBytes(f.vData, 0) {
      UpdateHolds(f, keys, h);
      forall k | 0 <= k < |keys| ensures Contains(g, keys[k], h) { HoldsContains(g, keys, h, k); }
    } else {
      assert f.vData[0] == 0;
      assert !Contains(g, keys[0], h);
    }
  }

  /** It can fail: a filter of one byte and no hash function forgets what it was given. */
  lemma UpdateForgets(key: Key, h: Hasher)
    ensures var f := Insert(Filter([0], false, true, 0, 0), key, h);
      Holds(f, [key], h) && Contains(f, key, h) && !Contains(UpdateEmptyFull(f), key, h)
  {
    var f := Insert(Filter([0], false, true, 0, 0), key, h);
    assert f.vData == [0] && KeySet(f, [key][0], h);
    UpdateExact(f, [key], h);
    assert AllBytes(f.vData, 0);
  }

  lemma UpdateHolds(f: Filter, keys: seq<Key>, h: Hasher)
    requires Usable(f) && Holds(f, keys, h)
    requires f.nHashFuncs > 0 || |f.vData| == 0 || !AllBytes(f.vData, 0) || keys == []
    ensures Holds(UpdateEmptyFull(f), keys, h)
  {
    var g := UpdateEmptyFull(f);
    if !g.isFull {
      forall k | 0 <= k < |keys| ensures KeySet(g, keys[k], h) {
        assert !f.isFull ==> KeySet(f, keys[k], h);
      }
      if g.isEmpty && keys != [] {
        assert KeySet(f, keys[0], h);
        assert IsSet(f.vData, Index(|f.vData|, f.nTweak, 0, keys[0], h));
        BitZero(Index(|f.vData|, f.nTweak, 0, keys[0], h) % 8);
      }
    }
  }

  // ----- The rolling filter -----

  datatype Rolling = Rolling(nBloomSize: nat, nInsertions: nat, b1: Filter, b2: Filter)

  predicate RollingOk(r: Rolling) {
    && r.nBloomSize % 2 == 0 && r.nInsertions < r.nBloomSize
    && Usable(r.b1) && Usable(r.b2) && |r.b1.vData| > 0 && |r.b2.vData| > 0
  }

  function Roll(r: Rolling, key: Key, h: Hasher): (s: Rolling)
    requires RollingOk(r)
    ensures RollingOk(s)
  {
    var b1 := if r.nInsertions == 0 then Clear(r.b1) else r.b1;
    var b2 := if r.nInsertions != 0 && r.nInsertions == r.nBloomSize / 2 then Clear(r.b2) else r.b2;
    var n := r.nInsertions + 1;
    Rolling(r.nBloomSize, if n == r.nBloomSize then 0 else n, Insert(b1, key, h), Insert(b2, key, h))
  }

  predicate RollingContains(r: Rolling, key: Key, h: Hasher)
    requires RollingOk(r)
  {
    if r.nInsertions < r.nBloomSize / 2 then Contains(r.b2, key, h) else Contains(r.b1, key, h)
  }

  function Reset(f: Filter, tweak: nat): Filter { Clear(f).(nTweak := tweak) }

  function RollingReset(r: Rolling, tweak: nat): Rolling {
    Rolling(r.nBloomSize, 0, Reset(r.b1, tweak), Reset(r.b2, tweak))
  }

  /** What a filter keeps for life, or until it is reset. */
  datatype Shape = Shape(size: nat, nHashFuncs: nat, nTweak: nat)

  function ShapeOf(f: Filter): Shape { Shape(|f.vData|, f.nHashFuncs, f.nTweak) }

  function Fresh(c: Shape): Filter {
    Filter(seq(c.size, i => 0), false, true, c.nHashFuncs, c.nTweak)
  }

  /** Inserting keys one after the other into an empty filter. */
  function Fill(c: Shape, keys: seq<Key>, h: Hasher): (r: Filter)
    requires c.size > 0
    ensures Usable(r) && ShapeOf(r) == c && !r.isFull
  {
    if keys == [] then Fresh(c) else Insert(Fill(c, keys[..|keys| - 1], h), keys[|keys| - 1], h)
  }

  lemma {:induction false} FillHolds(c: Shape, keys: seq<Key>, h: Hasher)
    requires c.size > 0
    ensures Holds(Fill(c, keys, h), keys, h)
  {
    if keys != [] {
      var n := |keys| - 1;
      FillHolds(c, keys[..n], h);
      InsertHolds(Fill(c, keys[..n], h), keys[..n], keys[n], h);
      assert keys == keys[..n] + [keys[n]];
    }
  }

  lemma FillSnoc(c: Shape, keys: seq<Key>, key: Key, h: Hasher)
    requires c.size > 0
    ensures Fill(c, keys + [key], h) == Insert(Fill(c, keys, h), key, h)
  {
    assert (keys + [key])[..|keys|] == keys;
  }

  function Last(keys: seq<Key>, n: nat): seq<Key> {
    if n <= |keys| then keys[|keys| - n..] else keys
  }

  /** How many of the latest keys each filter holds. */
  function Held1(r: Rolling, total: nat): nat {
    if r.nInsertions == 0 then (if total == 0 then 0 else r.nBloomSize) else r.nInsertions
  }

  function Held2(r: Rolling, total: nat): nat {
    var half := r.nBloomSize / 2;
    if r.nInsertions <= half then (if total < half + r.nInsertions then total else half + r.nInsertions)
    else r.nInsertions - half
  }

  /** A filter is exactly what the latest n keys make of an empty one. */
  predicate Filled(f: Filter, hist: seq<Key>, n: nat, h: Hasher) {
    |f.vData| > 0 && n <= |hist| && f == Fill(ShapeOf(f), Last(hist, n), h)
  }

  /** Both filters are, for their windows of the history. */
  predicate Tracks(r: Rolling, hist: seq<Key>, h: Hasher) {
    && RollingOk(r) && (|hist| < r.nBloomSize ==> r.nInsertions == |hist|)
    && Filled(r.b1, hist, Held1(r, |hist|), h)
    && Filled(r.b2, hist, Held2(r, |hist|), h)
  }

  lemma FillNext(f: Filter, hist: seq<Key>, n: nat, key: Key, h: Hasher)
    requires Usable(f) && Filled(f, hist, n, h)
    ensures Filled(Insert(f, key, h), hist + [key], n + 1, h)
  {
    var w := Last(hist, n);
    assert Last(hist + [key], n + 1) == w + [key];
    FillSnoc(ShapeOf(f), w, key, h);
  }

  lemma FillFirst(f: Filter, hist: seq<Key>, key: Key, h: Hasher)
    requires |f.vData| > 0
    ensures Filled(Insert(Clear(f), key, h), hist + [key], 1, h)
  {
    assert Last(hist, 0) == [];
    FillNext(Clear(f), hist, 0, key, h);
  }

  lemma RollTracks(r: Rolling, hist: seq<Key>, key: Key, h: Hasher)
    requires Tracks(r, hist, h)
    ensures Tracks(Roll(r, key, h), hist + [key], h)
  {
    var s, hs := Roll(r, key, h), hist + [key];
    var n1 := if r.nInsertions == 0 then 1 else Held1(r, |hist|) + 1;
    var n2 := if r.nInsertions != 0 && r.nInsertions == r.nBloomSize / 2 then 1 else Held2(r, |hist|) + 1;
    assert Filled(s.b1, hs, n1, h) by { Roll1(r, hist, key, h); }
    assert Filled(s.b2, hs, n2, h) by { Roll2(r, hist, key, h); }
    assert Held1(s, |hs|) == n1 && Held2(s, |hs|) == n2 by { HeldNext(r, s, |hist|); }
  }

  lemma Roll1(r: Rolling, hist: seq<Key>, key: Key, h: Hasher)
    requires Tracks(r, hist, h)
    ensures Filled(Roll(r, key, h).b1, hist + [key], if r.nInsertions == 0 then 1 else Held1(r, |hist|) + 1, h)
  {
    if r.nInsertions == 0 {
      FillFirst(r.b1, hist, key, h);
    } else {
      FillNext(r.b1, hist, Held1(r, |hist|), key, h);
    }
  }

  lemma Roll2(r: Rolling, hist: seq<Key>, key: Key, h: Hasher)
    requires Tracks(r, hist, h)
    ensures Filled(Roll(r, key, h).b2, hist + [key],
      if r.nInsertions != 0 && r.nInsertions == r.nBloomSize / 2 then 1 else Held2(r, |hist|) + 1, h)
  {
    if r.nInsertions != 0 && r.nInsertions == r.nBloomSize / 2 {
      FillFirst(r.b2, hist, key, h);
    } else {
      FillNext(r.b2, hist, Held2(r, |hist|), key, h);
    }
  }

  lemma HeldNext(r: Rolling, s: Rolling, n: nat)
    requires r.nBloomSize % 2 == 0 && r.nInsertions < r.nBloomSize && s.nBloomSize == r.nBloomSize
    requires s.nInsertions == if r.nInsertions + 1 == r.nBloomSize then 0 else r.nInsertions + 1
    requires Held1(r, n) <= n && Held2(r, n) <= n && (n < r.nBloomSize ==> r.nInsertions == n)
    ensures Held1(s, n + 1) == if r.nInsertions == 0 then 1 else Held1(r, n) + 1
    ensures Held2(s, n + 1) == if r.nInsertions != 0 && r.nInsertions == r.nBloomSize / 2 then 1 else Held2(r, n) + 1
  {
  }

  lemma ResetTracks(r: Rolling, tweak: nat, h: Hasher)
    requires RollingOk(r)
    ensures Tracks(RollingReset(r, tweak), [], h)
  {
  }

  /** The filter that is asked, and how many keys it holds. */
  function Asked(r: Rolling): Filter {
    if r.nInsertions < r.nBloomSize / 2 then r.b2 else r.b1
  }

  function HeldAsked(r: Rolling, total: nat): nat {
    if r.nInsertions < r.nBloomSize / 2 then Held2(r, total) else Held1(r, total)
  }

  /** The rolling filter answers exactly as an empty filter given the latest keys would, and
      these are at least the last N, or all since the reset. */
  lemma RollingWindow(r: Rolling, hist: seq<Key>, h: Hasher, key: Key)
    requires Tracks(r, hist, h)
    ensures var n := HeldAsked(r, |hist|);
      && n <= |hist| && (n >= r.nBloomSize / 2 || n == |hist|)
      && Asked(r) == Fill(ShapeOf(Asked(r)), Last(hist, n), h)
      && RollingContains(r, key, h) == Contains(Fill(ShapeOf(Asked(r)), Last(hist, n), h), key, h)
  {
  }

  /** It contains each of the last N keys since the reset. */
  lemma RollingRemembers(r: Rolling, hist: seq<Key>, h: Hasher, k: nat)
    requires Tracks(r, hist, h) && k < |hist| && |hist| - k <= r.nBloomSize / 2
    ensures RollingContains(r, hist[k], h)
  {
    var n := HeldAsked(r, |hist|);
    RollingWindow(r, hist, h, hist[k]);
    FillRemembers(ShapeOf(Asked(r)), hist, n, h, k);
  }

  lemma FillRemembers(c: Shape, hist: seq<Key>, n: nat, h: Hasher, k: nat)
    requires c.size > 0 && n <= |hist| && |hist| - n <= k < |hist|
    ensures Contains(Fill(c, Last(hist, n), h), hist[k], h)
  {
    var w, j := Last(hist, n), k - (|hist| - n);
    FillHolds(c, w, h);
    assert w[j] == hist[k];
    HoldsContains(Fill(c, w, h), w, h, j);
  }

  datatype Op = Put(key: Key) | Restart(tweak: nat)

  function Apply(r: Rolling, op: Op, h: Hasher): (s: Rolling)
    requires RollingOk(r)
    ensures RollingOk(s)
  {
    match op case Put(key) => Roll(r, key, h) case Restart(t) => RollingReset(r, t)
  }

  function Run(r: Rolling, ops: seq<Op>, h: Hasher): (s: Rolling)
    requires RollingOk(r)
    ensures RollingOk(s)
  {
    if ops == [] then r else Apply(Run(r, ops[..|ops| - 1], h), ops[|ops| - 1], h)
  }

  /** The keys inserted since the last reset. */
  function Since(ops: seq<Op>): seq<Key> {
    if ops == [] then []
    else match ops[|ops| - 1]
      case Put(key) => Since(ops[..|ops| - 1]) + [key]
      case Restart(_) => []
  }

  lemma {:induction false} RunTracks(r: Rolling, ops: seq<Op>, h: Hasher)
    requires Tracks(r, [], h)
    ensures Tracks(Run(r, ops, h), Since(ops), h)
  {
    if ops != [] {
      var n := |ops| - 1;
      RunTracks(r, ops[..n], h);
      ApplyTracks(Run(r, ops[..n], h), Since(ops[..n]), ops[n], h);
    }
  }

  lemma ApplyTracks(r: Rolling, hist: seq<Key>, op: Op, h: Hasher)
    requires Tracks(r, hist, h)
    ensures Tracks(Apply(r, op, h), if op.Put? then hist + [op.key] else [], h)
  {
    match op
    case Put(key) => RollTracks(r, hist, key, h);
    case Restart(t) => ResetTracks(r, t, h);
  }

  /** After any run of insertions and resets from a fresh filter, each of the last N keys
      inserted since the last reset is found. */
  lemma RunRemembers(r: Rolling, ops: seq<Op>, h: Hasher, k: nat)
    requires Tracks(r, [], h) && k < |Since(ops)| && |Since(ops)| - k <= r.nBloomSize / 2
    ensures RollingContains(Run(r, ops, h), Since(ops)[k], h)
  {
    RunTracks(r, ops, h);
    SameSize(r, ops, h);
    RollingRemembers(Run(r, ops, h), Since(ops), h, k);
  }

  lemma {:induction false} SameSize(r: Rolling, ops: seq<Op>, h: Hasher)
    requires RollingOk(r)
    ensures Run(r, ops, h).nBloomSize == r.nBloomSize
  {
    if ops != [] { SameSize(r, ops[..|ops| - 1], h); }
  }
}
