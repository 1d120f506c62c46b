/** The public operations of the address manager on its state as a value: Add_, Good_,
    Attempt_, Connected_, SetServices_ and GetAddr_ (src/addrman.cpp), the invariant over
    every run of them, and what each does to the set of known and tried addresses.

    Clock readings and random draws are arguments; RandomInt(m) is draw % m. */
module AddrOps {
  import opened AddrTables
  import opened AddrUpdates
  import opened AddrMoves

  predicate IsTerrible(i: AddrInfo, now: int) {
    if i.nLastTry != 0 && i.nLastTry >= now - 60 then false
    else
      || i.addr.nTime > now + 10 * 60
      || i.addr.nTime == 0 || now - i.addr.nTime > 30 * 24 * 60 * 60
      || (i.nLastSuccess == 0 && i.nAttempts >= 3)
      || (now - i.nLastSuccess > 7 * 24 * 60 * 60 && i.nAttempts >= 10)
  }

  // ----- Good_ -----

  function MakeTried(h: Hasher, t: Tables, n: int): Tables
    requires Consistent(h, t) && n in NewIds(t)
  {
    WithdrawKeeps(h, t, n);
    var w := Withdraw(t, n);
    var sl := h.TriedSlot(w.nKey, w.mapInfo[n].addr.service);
    var r := if sl in w.vvTried then Evict(h, w, sl, {n}, 1) else w;
    assert n in r.mapInfo by { if sl in w.vvTried { EvictEffect(h, w, sl, {n}, 1); } }
    Enter(r, sl, n)
  }

  /** Equal up to the bookkeeping fields that moves between tables change. */
  ghost predicate SameRecord(a: AddrInfo, b: AddrInfo) {
    a.(nRandomPos := 0, nRefCount := 0, fInTried := false) == b.(nRandomPos := 0, nRefCount := 0, fInTried := false)
  }

  /** The entry, if any, whose only reference is in a slot. */
  function Sole(t: Tables, sl: Slot): set<int> {
    if sl in t.vvNew && t.vvNew[sl] in t.mapInfo && t.mapInfo[t.vvNew[sl]].nRefCount == 1 then {t.vvNew[sl]} else {}
  }

  /** An eviction demotes the occupant, keeps it known with one reference, and drops at
      most one entry, which was new and had its last reference in the slot taken. */
  lemma EvictEffect(h: Hasher, t: Tables, sl: Slot, flight: set<int>, d: int)
    requires Transit(h, t, flight, d) && sl in t.vvTried
    ensures t.vvTried[sl] in TriedIds(t)
    ensures var e, s := t.vvTried[sl], Evict(h, t, sl, flight, d);
      var us := h.NewSlot(t.nKey, t.mapInfo[e].addr.service, t.mapInfo[e].source);
      var lost := Sole(t, us);
      && s.mapInfo.Keys == t.mapInfo.Keys - lost
      && lost !! flight && lost <= NewIds(t)
      && (forall k | k in s.mapInfo :: SameRecord(t.mapInfo[k], s.mapInfo[k]))
      && (forall k | k in s.mapInfo && k != e :: s.mapInfo[k].fInTried == t.mapInfo[k].fInTried)
      && e in s.mapInfo && !s.mapInfo[e].fInTried && s.mapInfo[e].nRefCount == 1
      && us in s.vvNew && s.vvNew[us] == e
      && s.vvTried == t.vvTried - {sl} && s.nKey == t.nKey
  {
    assert TriedSlotOk(h, t, sl);
    var e := t.vvTried[sl];
    assert e in TriedIds(t) && TriedEntryOk(h, t, e);
    DemoteKeeps(h, t, sl, flight, d);
    var us := h.NewSlot(t.nKey, t.mapInfo[e].addr.service, t.mapInfo[e].source);
    var dem := Demote(t, sl);
    if us in t.vvNew { assert NewSlotOk(h, t, us); }
    ClearNewKeeps(h, dem, us, flight + {e}, d + 1);
    EvictRoom(h, t, sl, us, flight, d, e);
  }

  /** Making room for the demoted entry leaves the records of the others alone. */
  lemma EvictRoom(h: Hasher, t: Tables, sl: Slot, us: Slot, flight: set<int>, d: int, e: int)
    requires sl in t.vvTried && e == t.vvTried[sl] && e in t.mapInfo && Transit(h, Demote(t, sl), flight + {e}, d + 1)
    ensures us in Demote(t, sl).vvNew ==>
      var n := Demote(t, sl).vvNew[us]; n in Demote(t, sl).mapInfo && !Demote(t, sl).mapInfo[n].fInTried && Demote(t, sl).mapInfo[n].nRefCount > 0
    ensures var room := ClearNew(Demote(t, sl), us);
      forall k | k in room.mapInfo && k != e :: k in t.mapInfo && SameRecord(t.mapInfo[k], room.mapInfo[k]) && room.mapInfo[k].fInTried == t.mapInfo[k].fInTried
  {
    ClearNewKeeps(h, Demote(t, sl), us, flight + {e}, d + 1);
  }

  lemma MakeTriedKeeps(h: Hasher, t: Tables, n: int)
    requires Consistent(h, t) && n in NewIds(t)
    ensures Consistent(h, MakeTried(h, t, n))
  {
    WithdrawKeeps(h, t, n);
    var w := Withdraw(t, n);
    var sl := h.TriedSlot(w.nKey, w.mapInfo[n].addr.service);
    if sl in w.vvTried {
      EvictEffect(h, w, sl, {n}, 1);
      EvictKeeps(h, w, sl, {n}, 1);
      assert {n} - {w.vvTried[sl]} == {n};
      EnterKeeps(h, Evict(h, w, sl, {n}, 1), sl, n);
    } else {
      EnterKeeps(h, w, sl, n);
    }
  }

  /** Without an occupant in its slot, MakeTried adds its entry to the tried set and
      forgets nothing. */
  lemma MakeTriedPlain(h: Hasher, t: Tables, n: int)
    requires Consistent(h, t) && n in NewIds(t)
    requires h.TriedSlot(t.nKey, t.mapInfo[n].addr.service) !in t.vvTried
    ensures var s := MakeTried(h, t, n);
      TriedIds(s) == TriedIds(t) + {n} && s.mapInfo == t.mapInfo[n := t.mapInfo[n].(nRefCount := 0, fInTried := true)]
  {
    WithdrawKeeps(h, t, n);
    var s, w := MakeTried(h, t, n), Withdraw(t, n);
    assert s.mapInfo == w.mapInfo[n := w.mapInfo[n].(fInTried := true)];
    PutTwice(t.mapInfo, n, w.mapInfo[n], s.mapInfo[n]);
    TriedGains(t, s, n);
  }

  lemma PutTwice(m: map<int, AddrInfo>, n: int, a: AddrInfo, b: AddrInfo)
    ensures m[n := a][n := b] == m[n := b]
  {
  }

  lemma TriedGains(t: Tables, s: Tables, n: int)
    requires n in t.mapInfo && n in s.mapInfo && s.mapInfo == t.mapInfo[n := s.mapInfo[n]] && s.mapInfo[n].fInTried
    ensures TriedIds(s) == TriedIds(t) + {n}
  {
  }

  /** With one, it also sends the occupant back to the new table, forgets no tried entry
      and at most one new one. */
  lemma MakeTriedEvicts(h: Hasher, t: Tables, n: int)
    requires Consistent(h, t) && n in NewIds(t)
    requires h.TriedSlot(t.nKey, t.mapInfo[n].addr.service) in t.vvTried
    ensures var s, e := MakeTried(h, t, n), t.vvTried[h.TriedSlot(t.nKey, t.mapInfo[n].addr.service)];
      && TriedIds(s) == TriedIds(t) - {e} + {n} && e in NewIds(s)
      && s.mapInfo.Keys <= t.mapInfo.Keys && |t.mapInfo.Keys - s.mapInfo.Keys| <= 1
      && (forall k | k in s.mapInfo :: SameRecord(t.mapInfo[k], s.mapInfo[k]))
  {
    WithdrawKeeps(h, t, n);
    var w := Withdraw(t, n);
    var sl := h.TriedSlot(w.nKey, w.mapInfo[n].addr.service);
    EvictEffect(h, w, sl, {n}, 1);
    var e := w.vvTried[sl];
    var us := h.NewSlot(w.nKey, w.mapInfo[e].addr.service, w.mapInfo[e].source);
    MovedSets(t, w, Evict(h, w, sl, {n}, 1), MakeTried(h, t, n), n, e, Sole(w, us));
  }

  lemma MovedSets(t: Tables, w: Tables, r: Tables, s: Tables, n: int, e: int, lost: set<int>)
    requires n in NewIds(t) && e in TriedIds(w)
    requires w.mapInfo == t.mapInfo[n := t.mapInfo[n].(nRefCount := 0)]
    requires r.mapInfo.Keys == w.mapInfo.Keys - lost && lost <= NewIds(w) && n !in lost && |lost| <= 1
    requires forall k | k in r.mapInfo :: SameRecord(w.mapInfo[k], r.mapInfo[k])
    requires forall k | k in r.mapInfo && k != e :: r.mapInfo[k].fInTried == w.mapInfo[k].fInTried
    requires e in r.mapInfo && !r.mapInfo[e].fInTried
    requires s.mapInfo == r.mapInfo[n := r.mapInfo[n].(fInTried := true)]
    ensures TriedIds(s) == TriedIds(t) - {e} + {n} && e in NewIds(s)
    ensures s.mapInfo.Keys <= t.mapInfo.Keys && |t.mapInfo.Keys - s.mapInfo.Keys| <= 1
    ensures forall k | k in s.mapInfo :: SameRecord(t.mapInfo[k], s.mapInfo[k])
  {
    forall k ensures k in TriedIds(s) <==> k in TriedIds(t) - {e} + {n} {
      if k in s.mapInfo { assert k in r.mapInfo; }
    }
    assert t.mapInfo.Keys - s.mapInfo.Keys == lost;
  }

  /** Update the statistics of an entry (not its address, its tables or its place). */
  ghost predicate Restated(a: AddrInfo, b: AddrInfo) {
    && a.addr.service == b.addr.service && a.source == b.source
    && a.nRefCount == b.nRefCount && a.fInTried == b.fInTried && a.nRandomPos == b.nRandomPos
  }

  lemma RestateKeeps(h: Hasher, t: Tables, n: int, info: AddrInfo, flight: set<int>, d: int)
    requires Transit(h, t, flight, d) && n in t.mapInfo && Restated(t.mapInfo[n], info)
    ensures var s := t.(mapInfo := t.mapInfo[n := info]); Transit(h, s, flight, d) && NewIds(s) == NewIds(t) && TriedIds(s) == TriedIds(t)
  {
    var s := t.(mapInfo := t.mapInfo[n := info]);
    SameIndex(t, s);
    assert NewIds(s) == NewIds(t) && TriedIds(s) == TriedIds(t);
    RestateTables(h, t, n, info, flight);
  }

  lemma RestateTables(h: Hasher, t: Tables, n: int, info: AddrInfo, flight: set<int>)
    requires NewConsistent(h, t, flight) && TriedConsistent(h, t) && n in t.mapInfo && Restated(t.mapInfo[n], info)
    ensures var s := t.(mapInfo := t.mapInfo[n := info]); NewConsistent(h, s, flight) && TriedConsistent(h, s)
  {
    var s := t.(mapInfo := t.mapInfo[n := info]);
    forall x | x in s.vvNew ensures NewSlotOk(h, s, x) { assert NewSlotOk(h, t, x); }
    forall k | k in NewIds(s) ensures NewEntryOk(s, k, flight) { assert k in NewIds(t) && NewEntryOk(t, k, flight); }
    forall x | x in s.vvTried ensures TriedSlotOk(h, s, x) { assert TriedSlotOk(h, t, x); }
    forall k | k in TriedIds(s) ensures TriedEntryOk(h, s, k) { assert k in TriedIds(t) && TriedEntryOk(h, t, k); }
  }

  /** The id of the entry for exactly this address and port. */
  function Lookup(t: Tables, a: Service): (r: int) {
    if a.net in t.mapAddr && t.mapAddr[a.net] in t.mapInfo && t.mapInfo[t.mapAddr[a.net]].addr.service == a
    then t.mapAddr[a.net] else -1
  }

  function Stamp(info: AddrInfo, nTime: int): AddrInfo {
    info.(nLastSuccess := nTime, nLastTry := nTime, nAttempts := 0)
  }

  function Good(h: Hasher, t: Tables, a: Service, nTime: int): Tables
    requires Consistent(h, t)
  {
    var n := Lookup(t, a);
    if n !in t.mapInfo then t else
      var s := t.(mapInfo := t.mapInfo[n := Stamp(t.mapInfo[n], nTime)]);
      RestateKeeps(h, t, n, Stamp(t.mapInfo[n], nTime), {}, 0);
      if s.mapInfo[n].fInTried || Refs(s.vvNew, n) == {} then s else MakeTried(h, s, n)
  }

  /** Lookup never answers -1 for an id of the table. */
  lemma LookupFinds(t: Tables, a: Service)
    requires Indexed(t)
    ensures var n := Lookup(t, a); n in t.mapInfo <==> exists k | k in t.mapInfo :: t.mapInfo[k].addr.service == a
    ensures var n := Lookup(t, a); n in t.mapInfo ==> t.mapInfo[n].addr.service == a
  {
    assert -1 in t.mapInfo ==> EntryIndexed(t, -1);
    forall k | k in t.mapInfo && t.mapInfo[k].addr.service == a ensures Lookup(t, a) in t.mapInfo {
      assert EntryIndexed(t, k);
    }
  }

  /** Good_ never takes its "something bad happened" exit: an address it knows is in the
      tried table afterwards, with its statistics reset. */
  lemma GoodReachesTried(h: Hasher, t: Tables, a: Service, nTime: int)
    requires Consistent(h, t)
    ensures Consistent(h, Good(h, t, a, nTime))
    ensures var n, s := Lookup(t, a), Good(h, t, a, nTime);
      if n in t.mapInfo
      then n in TriedIds(s) && SameRecord(s.mapInfo[n], Stamp(t.mapInfo[n], nTime))
      else s == t
  {
    var n := Lookup(t, a);
    if n in t.mapInfo {
      var i := Stamp(t.mapInfo[n], nTime);
      var s := t.(mapInfo := t.mapInfo[n := i]);
      RestateKeeps(h, t, n, i, {}, 0);
      if !i.fInTried {
        assert n in NewIds(s) && NewEntryOk(s, n, {});
        assert Refs(s.vvNew, n) != {};
        MakeTriedKeeps(h, s, n);
        if h.TriedSlot(s.nKey, s.mapInfo[n].addr.service) in s.vvTried {
          MakeTriedEvicts(h, s, n);
        } else {
          MakeTriedPlain(h, s, n);
        }
      }
    }
  }
}
