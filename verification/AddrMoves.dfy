/** Moving an entry of the address manager from the new to the tried table, with the
    eviction it may cause (CAddrMan::MakeTried). */
module AddrMoves {
  import opened AddrTables
  import opened AddrUpdates

  lemma Recount(h: Hasher, t: Tables, k: int, flight: set<int>, d: int)
    requires Transit(h, t, flight, d)
    ensures Transit(h, t.(nNew := t.nNew + k), flight, d - k)
  {
    var s := t.(nNew := t.nNew + k);
    SameIndex(t, s);
    SameSets(t, s, {});
    TriedUntouched(h, t, s);
    NewCarries(h, t, s, flight, {});
    assert flight - {} == flight;
  }

  /** Remove an entry from all new buckets; it is counted in no table any more. */
  function Withdraw(t: Tables, n: int): Tables
    requires n in t.mapInfo
  {
    var info := t.mapInfo[n];
    t.(mapInfo := t.mapInfo[n := info.(nRefCount := info.nRefCount - |Refs(t.vvNew, n)|)],
       vvNew := map sl | sl in t.vvNew && t.vvNew[sl] != n :: t.vvNew[sl],
       nNew := t.nNew - 1)
  }

  lemma WithdrawKeeps(h: Hasher, t: Tables, n: int)
    requires Consistent(h, t) && n in NewIds(t)
    ensures Transit(h, Withdraw(t, n), {n}, 1)
    ensures n in NewIds(Withdraw(t, n)) && Withdraw(t, n).mapInfo[n] == t.mapInfo[n].(nRefCount := 0)
  {
    var s := Withdraw(t, n);
    assert NewEntryOk(t, n, {});
    SameIndex(t, s);
    assert NewIds(s) == NewIds(t) && TriedIds(s) == TriedIds(t);
    TriedUntouched(h, t, s);
    WithdrawNew(h, t, n);
  }

  lemma WithdrawNew(h: Hasher, t: Tables, n: int)
    requires NewConsistent(h, t, {}) && n in NewIds(t)
    ensures NewConsistent(h, Withdraw(t, n), {n})
  {
    var s := Withdraw(t, n);
    forall x | x in s.vvNew ensures NewSlotOk(h, s, x) { assert NewSlotOk(h, t, x); }
    forall k | k in NewIds(s) ensures NewEntryOk(s, k, {n}) {
      assert k in NewIds(t) && NewEntryOk(t, k, {});
      assert Refs(s.vvNew, k) == if k == n then {} else Refs(t.vvNew, k);
    }
  }

  /** Take the entry in a tried slot out of the tried table. */
  function Demote(t: Tables, sl: Slot): Tables
    requires sl in t.vvTried && t.vvTried[sl] in t.mapInfo
  {
    var n := t.vvTried[sl];
    t.(mapInfo := t.mapInfo[n := t.mapInfo[n].(fInTried := false)], vvTried := t.vvTried - {sl}, nTried := t.nTried - 1)
  }

  lemma DemoteKeeps(h: Hasher, t: Tables, sl: Slot, flight: set<int>, d: int)
    requires Transit(h, t, flight, d) && sl in t.vvTried
    ensures t.vvTried[sl] in t.mapInfo && t.vvTried[sl] in NewIds(Demote(t, sl))
    ensures Demote(t, sl).mapInfo[t.vvTried[sl]] == t.mapInfo[t.vvTried[sl]].(fInTried := false)
    ensures Transit(h, Demote(t, sl), flight + {t.vvTried[sl]}, d + 1)
  {
    assert TriedSlotOk(h, t, sl);
    var n := t.vvTried[sl];
    var s := Demote(t, sl);
    SameIndex(t, s);
    assert n in TriedIds(t) && NewIds(s) == NewIds(t) + {n} && TriedIds(s) == TriedIds(t) - {n};
    DemoteTried(h, t, sl);
    DemoteNew(h, t, sl, flight);
  }

  lemma DemoteTried(h: Hasher, t: Tables, sl: Slot)
    requires TriedConsistent(h, t) && sl in t.vvTried && t.vvTried[sl] in t.mapInfo
    ensures TriedConsistent(h, Demote(t, sl))
  {
    var n := t.vvTried[sl];
    var s := Demote(t, sl);
    assert TriedSlotOk(h, t, sl);
    forall k | k in TriedIds(s) ensures TriedEntryOk(h, s, k) { assert k in TriedIds(t) && TriedEntryOk(h, t, k); }
    forall x | x in s.vvTried ensures TriedSlotOk(h, s, x) { assert TriedSlotOk(h, t, x); }
  }

  lemma DemoteNew(h: Hasher, t: Tables, sl: Slot, flight: set<int>)
    requires TriedConsistent(h, t) && NewConsistent(h, t, flight) && sl in t.vvTried && t.vvTried[sl] in t.mapInfo
    ensures NewConsistent(h, Demote(t, sl), flight + {t.vvTried[sl]})
  {
    var n := t.vvTried[sl];
    var s := Demote(t, sl);
    assert TriedSlotOk(h, t, sl) && n in TriedIds(t) && TriedEntryOk(h, t, n);
    forall x | x in s.vvNew ensures NewSlotOk(h, s, x) && s.vvNew[x] != n { assert NewSlotOk(h, t, x); }
    forall k | k in NewIds(s) ensures NewEntryOk(s, k, flight + {n}) {
      if k == n { assert Refs(t.vvNew, n) == {}; } else { assert k in NewIds(t) && NewEntryOk(t, k, flight); }
    }
  }

  /** Put an entry in flight into its empty tried slot. */
  function Enter(t: Tables, sl: Slot, n: int): Tables
    requires n in t.mapInfo
  {
    t.(mapInfo := t.mapInfo[n := t.mapInfo[n].(fInTried := true)], vvTried := t.vvTried[sl := n], nTried := t.nTried + 1)
  }

  lemma EnterKeeps(h: Hasher, t: Tables, sl: Slot, n: int)
    requires Transit(h, t, {n}, 1) && n in NewIds(t)
    requires sl !in t.vvTried && sl == h.TriedSlot(t.nKey, t.mapInfo[n].addr.service)
    ensures Consistent(h, Enter(t, sl, n))
  {
    var s := Enter(t, sl, n);
    SameIndex(t, s);
    EnterIds(t, sl, n);
    EnterTables(h, t, sl, n);
  }

  lemma EnterIds(t: Tables, sl: Slot, n: int)
    requires n in NewIds(t)
    ensures NewIds(Enter(t, sl, n)) == NewIds(t) - {n} && TriedIds(Enter(t, sl, n)) == TriedIds(t) + {n} && n !in TriedIds(t)
    ensures |NewIds(Enter(t, sl, n))| == |NewIds(t)| - 1 && |TriedIds(Enter(t, sl, n))| == |TriedIds(t)| + 1
  {
    var s := Enter(t, sl, n);
    assert NewIds(s) == NewIds(t) - {n} && TriedIds(s) == TriedIds(t) + {n};
  }

  lemma EnterTables(h: Hasher, t: Tables, sl: Slot, n: int)
    requires NewConsistent(h, t, {n}) && TriedConsistent(h, t) && n in NewIds(t)
    requires sl !in t.vvTried && sl == h.TriedSlot(t.nKey, t.mapInfo[n].addr.service)
    ensures NewConsistent(h, Enter(t, sl, n), {}) && TriedConsistent(h, Enter(t, sl, n))
  {
    var s := Enter(t, sl, n);
    assert NewEntryOk(t, n, {n});
    forall x | x in s.vvNew ensures NewSlotOk(h, s, x) { assert NewSlotOk(h, t, x); NoRefs(h, t, {n}, n, x); }
    forall k | k in NewIds(s) ensures NewEntryOk(s, k, {}) { assert k in NewIds(t) && NewEntryOk(t, k, {n}); }
    forall x | x in s.vvTried ensures TriedSlotOk(h, s, x) { if x != sl { assert TriedSlotOk(h, t, x); } }
    forall k | k in TriedIds(s) ensures TriedEntryOk(h, s, k) {
      if k != n { assert k in TriedIds(t) && TriedEntryOk(h, t, k); }
    }
  }

  /** Make room in an occupied tried slot: its entry goes back to the new slot of its own
      source, emptying that slot first. */
  function Evict(h: Hasher, t: Tables, sl: Slot, ghost flight: set<int>, ghost d: int): Tables
    requires Transit(h, t, flight, d) && sl in t.vvTried
  {
    DemoteKeeps(h, t, sl, flight, d);
    var e := t.vvTried[sl];
    var us := h.NewSlot(t.nKey, t.mapInfo[e].addr.service, t.mapInfo[e].source);
    var dem := Demote(t, sl);
    ClearNewKeeps(h, dem, us, flight + {e}, d + 1);
    var room := ClearNew(dem, us);
    ClearedKeepsFlight(h, dem, us, flight + {e}, d + 1, e);
    var s := Link(room, us, e);
    s.(nNew := s.nNew + 1)
  }

  /** Clearing a slot leaves the entries in flight alone. */
  lemma ClearedKeepsFlight(h: Hasher, t: Tables, sl: Slot, flight: set<int>, d: int, n: int)
    requires Transit(h, t, flight, d) && n in flight && n in NewIds(t)
    ensures sl in t.vvNew ==>
      var k := t.vvNew[sl]; k in t.mapInfo && !t.mapInfo[k].fInTried && t.mapInfo[k].nRefCount > 0
    ensures var s := ClearNew(t, sl); n in NewIds(s) && SameEntry(t.mapInfo[n], s.mapInfo[n]) && s.nKey == t.nKey
  {
    ClearNewKeeps(h, t, sl, flight, d);
  }

  lemma EvictKeeps(h: Hasher, t: Tables, sl: Slot, flight: set<int>, d: int)
    requires Transit(h, t, flight, d) && sl in t.vvTried
    ensures t.vvTried[sl] in TriedIds(t)
    ensures Transit(h, Evict(h, t, sl, flight, d), flight - {t.vvTried[sl]}, d)
  {
    assert TriedSlotOk(h, t, sl);
    var e := t.vvTried[sl];
    assert e in TriedIds(t) && TriedEntryOk(h, t, e);
    DemoteKeeps(h, t, sl, flight, d);
    var us := h.NewSlot(t.nKey, t.mapInfo[e].addr.service, t.mapInfo[e].source);
    var dem := Demote(t, sl);
    ClearNewKeeps(h, dem, us, flight + {e}, d + 1);
    ClearedKeepsFlight(h, dem, us, flight + {e}, d + 1, e);
    var room := ClearNew(dem, us);
    LinkKeeps(h, room, us, e, flight + {e}, d + 1);
    assert flight + {e} - {e} == flight - {e};
    Recount(h, Link(room, us, e), 1, flight - {e}, d + 1);
  }
}
