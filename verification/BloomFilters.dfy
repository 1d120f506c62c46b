/** Bloom filters as objects (src/bloom.h, src/bloom.cpp). */
module BloomFilters {
  import opened Bits
  import opened Bloom

  class BloomFilter {
    var vData: seq<nat>
    var isFull: bool
    var isEmpty: bool
    const nHashFuncs: nat
    var nTweak: nat
    const murmur: Hasher

    function State(): Filter
      reads this
    {
      Filter(vData, isFull, isEmpty, nHashFuncs, nTweak)
    }

    /** A filter of a given size, empty. */
    constructor (size: nat, nHashFuncs: nat, nTweak: nat, murmur: Hasher)
      ensures State() == Fresh(Shape(size, nHashFuncs, nTweak)) && this.murmur == murmur
    {
      vData, isFull, isEmpty := seq(size, i => 0), false, true;
      this.nHashFuncs, this.nTweak, this.murmur := nHashFuncs, nTweak, murmur;
    }

    method Insert(key: Key)
      requires Usable(State())
      modifies this
      ensures State() == Bloom.Insert(old(State()), key, murmur)
    {
      if isFull { return; }
      SetBits(key);
      isEmpty := false;
    }

    /** The loop over the hash functions. */
    method SetBits(key: Key)
      requires nHashFuncs > 0 ==> |vData| > 0
      modifies this`vData
      ensures vData == SetFirst(old(vData), nTweak, nHashFuncs, key, murmur)
    {
      var i := 0;
      while i < nHashFuncs
        invariant 0 <= i <= nHashFuncs && vData == SetFirst(old(vData), nTweak, i, key, murmur)
      {
        var nIndex := Index(|vData|, nTweak, i, key, murmur);
        PutBit(nIndex);
        i := i + 1;
      }
    }

    method PutBit(nIndex: nat)
      requires nIndex < 8 * |vData|
      modifies this`vData
      ensures vData == SetBit(old(vData), nIndex)
    {
      vData := vData[nIndex / 8 := Or(vData[nIndex / 8], Pow2(nIndex % 8))];
    }

    method Contains(key: Key) returns (found: bool)
      requires Usable(State())
      ensures found <==> Bloom.Contains(State(), key, murmur)
    {
      if isFull { return true; }
      if isEmpty { return false; }
      var i := 0;
      while i < nHashFuncs
        invariant 0 <= i <= nHashFuncs && AllSet(vData, nTweak, i, key, murmur)
      {
        var nIndex := Index(|vData|, nTweak, i, key, murmur);
        AndPow2(vData[nIndex / 8], nIndex % 8);
        if And(vData[nIndex / 8], Pow2(nIndex % 8)) == 0 {
          assert !IsSet(vData, Index(|vData|, nTweak, i, key, murmur));
          return false;
        }
        i := i + 1;
      }
      found := true;
    }

    method Clear()
      modifies this
      ensures State() == Bloom.Clear(old(State()))
    {
      vData := seq(|vData|, i => 0);
      isFull := false;
      isEmpty := true;
    }

    method Reset(nNewTweak: nat)
      modifies this
      ensures State() == Bloom.Reset(old(State()), nNewTweak)
    {
      Clear();
      nTweak := nNewTweak;
    }

    method UpdateEmptyFull()
      modifies this
      ensures State() == Bloom.UpdateEmptyFull(old(State()))
    {
      var full, empty, i := true, true, 0;
      while i < |vData|
        invariant 0 <= i <= |vData|
        invariant full <==> AllBytes(vData[..i], 0xff)
        invariant empty <==> AllBytes(vData[..i], 0)
      {
        assert vData[..i + 1] == vData[..i] + [vData[i]];
        full := full && vData[i] == 0xff;
        empty := empty && vData[i] == 0;
        i := i + 1;
      }
      assert vData[..i] == vData;
      isFull := full;
      isEmpty := empty;
    }
  }

  class RollingBloomFilter {
    const nBloomSize: nat
    var nInsertions: nat
    const b1: BloomFilter
    const b2: BloomFilter

    ghost predicate Valid()
      reads this, b1, b2
    {
      b1 != b2 && b1.murmur == b2.murmur && RollingOk(State())
    }

    function State(): Rolling
      reads this, b1, b2
    {
      Rolling(nBloomSize, nInsertions, b1.State(), b2.State())
    }

    /** For the last nElements keys; size and number of hash functions are what the sizing
        formulas gave, and nTweak is drawn at random. */
    constructor (nElements: nat, size: nat, nHashFuncs: nat, nTweak: nat, murmur: Hasher)
      requires nElements > 0 && size > 0
      ensures Valid() && nBloomSize == 2 * nElements && Tracks(State(), [], b1.murmur)
    {
      b1 := new BloomFilter(size, nHashFuncs, 0, murmur);
      b2 := new BloomFilter(size, nHashFuncs, 0, murmur);
      nInsertions := 0;
      nBloomSize := 2 * nElements;
      new;
      b1.Reset(nTweak);
      b2.Reset(nTweak);
    }

    method Insert(key: Key)
      requires Valid()
      modifies this, b1, b2
      ensures Valid() && State() == Roll(old(State()), key, b1.murmur)
    {
      if nInsertions == 0 {
        b1.Clear();
      } else if nInsertions == nBloomSize / 2 {
        b2.Clear();
      }
      b1.Insert(key);
      b2.Insert(key);
      nInsertions := nInsertions + 1;
      if nInsertions == nBloomSize { nInsertions := 0; }
    }

    method Contains(key: Key) returns (found: bool)
      requires Valid()
      ensures found <==> RollingContains(State(), key, b1.murmur)
    {
      if nInsertions < nBloomSize / 2 {
        found := b2.Contains(key);
      } else {
        found := b1.Contains(key);
      }
    }

    method Reset(nNewTweak: nat)
      requires Valid()
      modifies this, b1, b2
      ensures Valid() && State() == RollingReset(old(State()), nNewTweak)
    {
      b1.Reset(nNewTweak);
      b2.Reset(nNewTweak);
      nInsertions := 0;
    }
  }
}
