/** The elementary updates of the address manager keep its invariant. */
module AddrUpdates {
  import opened AddrTables

  /** Equal up to the position in vRandom. */
  ghost predicate SameEntry(a: AddrInfo, b: AddrInfo) {
    a.(nRandomPos := 0) == b.(nRandomPos := 0)
  }

  /** The entries in gone are dropped; nothing else differs but vRandom, its positions,
      mapAddr and the new table. */
  ghost predicate Frame(t: Tables, s: Tables, gone: set<int>) {
    && s.mapInfo.Keys == t.mapInfo.Keys - gone
    && (forall n {:trigger s.mapInfo[n]} | n in s.mapInfo :: SameEntry(t.mapInfo[n], s.mapInfo[n]))
    && s.nKey == t.nKey && s.nIdCount == t.nIdCount
    && s.vvTried == t.vvTried && s.nTried == t.nTried
  }

  lemma SameSets(t: Tables, s: Tables, gone: set<int>)
    requires Frame(t, s, gone)
    ensures TriedIds(s) == TriedIds(t) - gone && NewIds(s) == NewIds(t) - gone
  {
    assert forall n | n in s.mapInfo :: s.mapInfo[n].fInTried == t.mapInfo[n].fInTried;
  }

  lemma TriedCarries(h: Hasher, t: Tables, s: Tables, gone: set<int>)
    requires TriedConsistent(h, t) && Frame(t, s, gone) && gone <= NewIds(t)
    ensures TriedConsistent(h, s)
  {
    SameSets(t, s, gone);
    forall sl | sl in s.vvTried ensures TriedSlotOk(h, s, sl) {
      assert TriedSlotOk(h, t, sl);
      var n := t.vvTried[sl];
      assert n in s.mapInfo;
    }
    forall n | n in TriedIds(s) ensures TriedEntryOk(h, s, n) { assert TriedEntryOk(h, t, n); }
  }

  lemma TriedUntouched(h: Hasher, t: Tables, s: Tables)
    requires TriedConsistent(h, t) && s.vvTried == t.vvTried && s.nKey == t.nKey
    requires TriedIds(s) == TriedIds(t)
    requires forall n | n in TriedIds(t) :: s.mapInfo[n] == t.mapInfo[n]
    ensures TriedConsistent(h, s)
  {
    forall n | n in TriedIds(s) ensures TriedEntryOk(h, s, n) { assert TriedEntryOk(h, t, n); }
    forall sl | sl in s.vvTried ensures TriedSlotOk(h, s, sl) {
      assert TriedSlotOk(h, t, sl);
      var n := t.vvTried[sl];
      assert n in TriedIds(t);
    }
  }

  lemma NewCarries(h: Hasher, t: Tables, s: Tables, flight: set<int>, gone: set<int>)
    requires NewConsistent(h, t, flight) && Frame(t, s, gone) && s.vvNew == t.vvNew
    requires gone <= flight * NewIds(t)
    ensures NewConsistent(h, s, flight - gone)
  {
    SameSets(t, s, gone);
    forall sl | sl in s.vvNew ensures NewSlotOk(h, s, sl) {
      assert NewSlotOk(h, t, sl);
      var n := t.vvNew[sl];
      if n in gone { NoRefs(h, t, flight, n, sl); }
      assert n in s.mapInfo;
    }
    forall n | n in NewIds(s) ensures NewEntryOk(s, n, flight - gone) { assert NewEntryOk(t, n, flight); }
  }

  /** No slot refers to an entry in flight. */
  lemma NoRefs(h: Hasher, t: Tables, flight: set<int>, n: int, sl: Slot)
    requires NewConsistent(h, t, flight) && n in flight && n in NewIds(t) && sl in t.vvNew
    ensures t.vvNew[sl] != n
  {
    assert NewEntryOk(t, n, flight);
    assert t.vvNew[sl] == n ==> sl in Refs(t.vvNew, n);
  }

  /** Exchanging two places of vRandom, with the positions recorded in the entries. */
  lemma SwapKeeps(h: Hasher, t: Tables, i: int, j: int, flight: set<int>, d: int)
    requires Transit(h, t, flight, d)
    requires i != j ==> 0 <= i < |t.vRandom| && 0 <= j < |t.vRandom|
    ensures i != j ==> t.vRandom[i] in t.mapInfo && t.vRandom[j] in t.mapInfo
    ensures var s := SwapRandom(t, i, j);
      Transit(h, s, flight, d) && Frame(t, s, {}) && s.vvNew == t.vvNew && s.nNew == t.nNew && s.mapAddr == t.mapAddr
  {
    SwapIndexed(t, i, j);
    var s := SwapRandom(t, i, j);
    SameSets(t, s, {});
    TriedCarries(h, t, s, {});
    NewCarries(h, t, s, flight, {});
    assert flight - {} == flight;
  }

  lemma SwapIndexed(t: Tables, i: int, j: int)
    requires Indexed(t)
    requires i != j ==> 0 <= i < |t.vRandom| && 0 <= j < |t.vRandom|
    ensures i != j ==> t.vRandom[i] in t.mapInfo && t.vRandom[j] in t.mapInfo
    ensures Indexed(SwapRandom(t, i, j))
    ensures Frame(t, SwapRandom(t, i, j), {})
  {
    if i != j {
      assert PlaceIndexed(t, i) && PlaceIndexed(t, j);
      var a, b := t.vRandom[i], t.vRandom[j];
      var s := SwapRandom(t, i, j);
      assert s.mapInfo.Keys == t.mapInfo.Keys;
      forall n | n in s.mapInfo ensures EntryIndexed(s, n) { assert EntryIndexed(t, n); }
      forall x | x in s.mapAddr ensures AddrIndexed(s, x) {
        assert AddrIndexed(t, x);
        var n := t.mapAddr[x];
        assert s.mapInfo[n].Net() == t.mapInfo[n].Net();
      }
      forall k | 0 <= k < |s.vRandom| ensures PlaceIndexed(s, k) {
        assert PlaceIndexed(t, k);
        var n := s.vRandom[k];
        assert n in s.mapInfo;
      }
    }
  }

  lemma DeleteIndexed(t: Tables, n: int)
    requires Indexed(t) && n in t.mapInfo && !t.mapInfo[n].fInTried && t.mapInfo[n].nRefCount == 0
    ensures Removable(t, n)
    ensures Indexed(Delete(t, n)) && Frame(t, Delete(t, n), {n})
  {
    IndexedRemovable(t, n);
    assert EntryIndexed(t, n);
    var p, last := t.mapInfo[n].nRandomPos, |t.vRandom| - 1;
    SwapIndexed(t, p, last);
    var m, s := SwapRandom(t, p, last), Delete(t, n);
    assert EntryIndexed(m, n) && m.mapInfo[n].Net() == t.mapInfo[n].Net();
    assert m.vRandom[last] == n by { assert PlaceIndexed(m, last); }
    forall k | k in s.mapInfo ensures EntryIndexed(s, k) { assert EntryIndexed(m, k); }
    forall x | x in s.mapAddr ensures AddrIndexed(s, x) {
      assert AddrIndexed(m, x);
      var k := m.mapAddr[x];
      assert k in s.mapInfo;
    }
    forall i | 0 <= i < |s.vRandom| ensures PlaceIndexed(s, i) {
      assert PlaceIndexed(m, i) && s.vRandom[i] == m.vRandom[i];
      var k := m.vRandom[i];
      assert k in s.mapInfo by { assert PlaceIndexed(m, last); }
    }
  }

  /** Deleting an entry in flight removes it, its address and its vRandom place. */
  lemma DeleteKeeps(h: Hasher, t: Tables, n: int, flight: set<int>, d: int)
    requires Transit(h, t, flight, d) && n in flight && n in NewIds(t)
    ensures Removable(t, n)
    ensures var s := Delete(t, n);
      Transit(h, s, flight - {n}, d) && Frame(t, s, {n}) && s.vvNew == t.vvNew
  {
    assert NewEntryOk(t, n, flight);
    DeleteIndexed(t, n);
    var s := Delete(t, n);
    SameSets(t, s, {n});
    TriedCarries(h, t, s, {n});
    NewCarries(h, t, s, flight, {n});
  }

  /** Taking a reference away: its entry is in flight if that was the last one. */
  lemma UnlinkKeeps(h: Hasher, t: Tables, sl: Slot, flight: set<int>, d: int)
    requires Transit(h, t, flight, d) && sl in t.vvNew
    ensures t.vvNew[sl] in t.mapInfo
    ensures var n, s := t.vvNew[sl], Unlink(t, sl);
      && n !in flight && n in NewIds(s) && 0 <= s.mapInfo[n].nRefCount
      && Transit(h, s, if s.mapInfo[n].nRefCount == 0 then flight + {n} else flight, d)
  {
    assert NewSlotOk(h, t, sl);
    var n := t.vvNew[sl];
    var s := Unlink(t, sl);
    var flight' := if s.mapInfo[n].nRefCount == 0 then flight + {n} else flight;
    if n in flight { NoRefs(h, t, flight, n, sl); }
    UnlinkIndexed(t, sl);
    assert NewIds(s) == NewIds(t) && TriedIds(s) == TriedIds(t);
    TriedUntouched(h, t, s);
    forall x | x in s.vvNew ensures NewSlotOk(h, s, x) { assert NewSlotOk(h, t, x); }
    forall k | k in NewIds(s) ensures NewEntryOk(s, k, flight') {
      assert NewEntryOk(t, k, flight);
      assert Refs(s.vvNew, k) == if k == n then Refs(t.vvNew, k) - {sl} else Refs(t.vvNew, k);
      assert k == n ==> sl in Refs(t.vvNew, k);
    }
  }

  /** Emptying a slot of the new table drops its entry exactly when it had no other reference. */
  lemma ClearNewKeeps(h: Hasher, t: Tables, sl: Slot, flight: set<int>, d: int)
    requires Transit(h, t, flight, d)
    ensures sl in t.vvNew ==>
      var n := t.vvNew[sl]; n in t.mapInfo && !t.mapInfo[n].fInTried && t.mapInfo[n].nRefCount > 0
    ensures var s := ClearNew(t, sl); Transit(h, s, flight, d) && s.vvNew == t.vvNew - {sl}
    ensures sl in t.vvNew ==>
      var n, s := t.vvNew[sl], ClearNew(t, sl);
      n !in flight && if t.mapInfo[n].nRefCount == 1 then Frame(t, s, {n}) else s == Unlink(t, sl)
  {
    if sl in t.vvNew {
      UnlinkKeeps(h, t, sl, flight, d);
      var n := t.vvNew[sl];
      var s := Unlink(t, sl);
      if s.mapInfo[n].nRefCount == 0 {
        DeleteKeeps(h, s, n, flight + {n}, d);
        assert flight + {n} - {n} == flight;
        var r := Delete(s, n);
        forall k | k in r.mapInfo ensures SameEntry(t.mapInfo[k], r.mapInfo[k]) { }
      }
    } else {
      assert t.vvNew - {sl} == t.vvNew;
    }
  }

  /** Giving a new-table entry a reference at the position it hashes to. */
  lemma LinkKeeps(h: Hasher, t: Tables, sl: Slot, n: int, flight: set<int>, d: int)
    requires Transit(h, t, flight, d) && sl !in t.vvNew
    requires n in NewIds(t) && t.mapInfo[n].nRefCount < NEW_BUCKETS_PER_ADDRESS
    requires sl.bucket < NEW_BUCKET_COUNT
    requires sl.pos == h.Position(t.nKey, true, sl.bucket, t.mapInfo[n].addr.service)
    ensures Transit(h, Link(t, sl, n), flight - {n}, d)
  {
    var s := Link(t, sl, n);
    SameIndex(t, s);
    assert NewIds(s) == NewIds(t) && TriedIds(s) == TriedIds(t);
    TriedUntouched(h, t, s);
    LinkNew(h, t, sl, n, flight);
  }

  lemma LinkNew(h: Hasher, t: Tables, sl: Slot, n: int, flight: set<int>)
    requires NewConsistent(h, t, flight) && sl !in t.vvNew
    requires n in NewIds(t) && t.mapInfo[n].nRefCount < NEW_BUCKETS_PER_ADDRESS
    requires sl.bucket < NEW_BUCKET_COUNT
    requires sl.pos == h.Position(t.nKey, true, sl.bucket, t.mapInfo[n].addr.service)
    ensures NewConsistent(h, Link(t, sl, n), flight - {n})
  {
    var s := Link(t, sl, n);
    forall x | x in s.vvNew ensures NewSlotOk(h, s, x) { if x != sl { assert NewSlotOk(h, t, x); } }
    forall k | k in NewIds(s) ensures NewEntryOk(s, k, flight - {n}) {
      assert k in NewIds(t) && NewEntryOk(t, k, flight);
      assert Refs(s.vvNew, k) == if k == n then Refs(t.vvNew, k) + {sl} else Refs(t.vvNew, k);
    }
  }

  /** A fresh entry is in flight until it is given a reference. */
  lemma CreateKeeps(h: Hasher, t: Tables, addr: Address, source: NetAddr)
    requires Consistent(h, t) && addr.service.net !in t.mapAddr
    ensures t.nIdCount !in t.mapInfo
    ensures var s := Create(t, addr, source); Transit(h, s.(nNew := s.nNew + 1), {t.nIdCount}, 0)
  {
    var n := t.nIdCount;
    assert n in t.mapInfo ==> EntryIndexed(t, n);
    var s := Create(t, addr, source).(nNew := t.nNew + 1);
    CreateIndexed(t, addr, source);
    SameIndex(Create(t, addr, source), s);
    TakenBack(t.mapInfo, n, s.mapInfo[n]);
    CreateSets(t, s, n);
    TriedUntouched(h, t, s);
    CreateNew(h, t, s, n);
  }

  lemma TakenBack(m: map<int, AddrInfo>, n: int, info: AddrInfo)
    requires n !in m
    ensures m[n := info] - {n} == m
  {
  }

  lemma CreateSets(t: Tables, s: Tables, n: int)
    requires n in s.mapInfo && !s.mapInfo[n].fInTried && t.mapInfo == s.mapInfo - {n}
    ensures NewIds(s) == NewIds(t) + {n} && TriedIds(s) == TriedIds(t) && |NewIds(s)| == |NewIds(t)| + 1
  {
  }

  lemma CreateNew(h: Hasher, t: Tables, s: Tables, n: int)
    requires NewConsistent(h, t, {}) && n !in t.mapInfo && s.vvNew == t.vvNew && s.nKey == t.nKey
    requires n in s.mapInfo && s.mapInfo[n].nRefCount == 0 && t.mapInfo == s.mapInfo - {n}
    ensures NewConsistent(h, s, {n})
  {
    forall x | x in s.vvNew ensures NewSlotOk(h, s, x) && s.vvNew[x] != n { assert NewSlotOk(h, t, x); }
    forall k | k in NewIds(s) ensures NewEntryOk(s, k, {n}) {
      if k != n { assert k in NewIds(t) && NewEntryOk(t, k, {}); } else { assert Refs(t.vvNew, n) == {}; }
    }
  }

  lemma CreateIndexed(t: Tables, addr: Address, source: NetAddr)
    requires Indexed(t) && addr.service.net !in t.mapAddr && t.nIdCount !in t.mapInfo
    ensures Indexed(Create(t, addr, source))
  {
    var n := t.nIdCount;
    var s := Create(t, addr, source);
    forall k | k in s.mapInfo ensures EntryIndexed(s, k) { if k != n { assert EntryIndexed(t, k); } }
    forall x | x in s.mapAddr ensures AddrIndexed(s, x) { if x != addr.service.net { assert AddrIndexed(t, x); } }
    forall i | 0 <= i < |s.vRandom| ensures PlaceIndexed(s, i) { if i < |t.vRandom| { assert PlaceIndexed(t, i); } }
  }
}
