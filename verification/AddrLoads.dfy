/** Which files make a consistent address manager. Reading keeps the two tables right
    whatever the file says, but lets two records with the same address in; pruning the
    entries without references then takes the address away from the other one. */
module AddrLoads {
  import opened AddrTables
  import opened AddrUpdates
  import opened AddrDumps
  import opened AddrFiles

  // ----- What reading keeps -----

  predicate RefsOk(t: Tables, n: int)
    requires n in t.mapInfo
  {
    t.mapInfo[n].nRefCount == |Refs(t.vvNew, n)| <= NEW_BUCKETS_PER_ADDRESS
  }

  predicate NetKnown(t: Tables, n: int)
    requires n in t.mapInfo
  {
    t.mapInfo[n].Net() in t.mapAddr
  }

  /** Both tables are right, and mapAddr has the address of every entry, though perhaps
      with another entry. */
  ghost predicate Readable(h: Hasher, t: Tables) {
    && (forall sl {:trigger NewSlotOk(h, t, sl)} | sl in t.vvNew :: NewSlotOk(h, t, sl))
    && (forall n {:trigger RefsOk(t, n)} | n in NewIds(t) :: RefsOk(t, n))
    && TriedConsistent(h, t)
    && (forall n {:trigger NetKnown(t, n)} | n in t.mapInfo :: NetKnown(t, n))
    && (forall a {:trigger AddrIndexed(t, a)} | a in t.mapAddr :: AddrIndexed(t, a))
  }

  /** The counters play no part in it. */
  lemma ReadableSame(h: Hasher, t: Tables, s: Tables)
    requires Readable(h, t) && s == t.(nIdCount := s.nIdCount, nNew := s.nNew, nTried := s.nTried, vRandom := s.vRandom)
    ensures Readable(h, s)
  {
    forall sl | sl in s.vvNew ensures NewSlotOk(h, s, sl) { assert NewSlotOk(h, t, sl); }
    forall n | n in NewIds(s) ensures RefsOk(s, n) { assert n in NewIds(t) && RefsOk(t, n); }
    forall sl | sl in s.vvTried ensures TriedSlotOk(h, s, sl) { assert TriedSlotOk(h, t, sl); }
    forall n | n in TriedIds(s) ensures TriedEntryOk(h, s, n) { assert n in TriedIds(t) && TriedEntryOk(h, t, n); }
    forall n | n in s.mapInfo ensures NetKnown(s, n) { assert NetKnown(t, n); }
    forall a | a in s.mapAddr ensures AddrIndexed(s, a) { assert AddrIndexed(t, a); }
  }

  /** Addresses, once a new entry has taken its own. */
  lemma JoinAddrs(h: Hasher, t: Tables, s: Tables, n: int, info: AddrInfo)
    requires Readable(h, t) && n !in t.mapInfo
    requires s.mapInfo == t.mapInfo[n := info] && s.mapAddr == t.mapAddr[info.Net() := n]
    ensures forall k {:trigger NetKnown(s, k)} | k in s.mapInfo :: NetKnown(s, k)
    ensures forall a {:trigger AddrIndexed(s, a)} | a in s.mapAddr :: AddrIndexed(s, a)
  {
    forall k | k in s.mapInfo ensures NetKnown(s, k) { if k != n { assert NetKnown(t, k); } }
    forall a | a in s.mapAddr ensures AddrIndexed(s, a) { if a != info.Net() { assert AddrIndexed(t, a); } }
  }

  /** The new table, once an entry it does not refer to has come. */
  lemma JoinNew(h: Hasher, t: Tables, s: Tables, n: int, info: AddrInfo)
    requires Readable(h, t) && n !in t.mapInfo && (!info.fInTried ==> info.nRefCount == 0)
    requires s.mapInfo == t.mapInfo[n := info] && s.vvNew == t.vvNew && s.nKey == t.nKey
    ensures forall sl {:trigger NewSlotOk(h, s, sl)} | sl in s.vvNew :: NewSlotOk(h, s, sl)
    ensures forall k {:trigger RefsOk(s, k)} | k in NewIds(s) :: RefsOk(s, k)
  {
    forall sl | sl in s.vvNew ensures NewSlotOk(h, s, sl) && s.vvNew[sl] != n { assert NewSlotOk(h, t, sl); }
    forall k | k in NewIds(s) ensures RefsOk(s, k) {
      if k == n { assert Refs(s.vvNew, n) == {}; } else { assert k in NewIds(t) && RefsOk(t, k); }
    }
  }

  /** The tried table, once an entry has come, and taken its slot if it is tried. */
  lemma JoinTried(h: Hasher, t: Tables, s: Tables, n: int, info: AddrInfo)
    requires TriedConsistent(h, t) && n !in t.mapInfo && info.nRefCount == 0 && s.mapInfo == t.mapInfo[n := info] && s.nKey == t.nKey
    requires var sl := h.TriedSlot(t.nKey, info.addr.service);
      if info.fInTried then sl !in t.vvTried && s.vvTried == t.vvTried[sl := n] else s.vvTried == t.vvTried
    ensures TriedConsistent(h, s)
  {
    forall sl | sl in s.vvTried ensures TriedSlotOk(h, s, sl) { if sl in t.vvTried { assert TriedSlotOk(h, t, sl); } }
    forall k | k in TriedIds(s) ensures TriedEntryOk(h, s, k) { if k != n { assert k in TriedIds(t) && TriedEntryOk(h, t, k); } }
  }

  lemma LinkReadable(h: Hasher, t: Tables, sl: Slot, n: int)
    requires Readable(h, t) && sl !in t.vvNew && n in NewIds(t) && t.mapInfo[n].nRefCount < NEW_BUCKETS_PER_ADDRESS
    requires sl.bucket < NEW_BUCKET_COUNT && sl.pos == h.Position(t.nKey, true, sl.bucket, t.mapInfo[n].addr.service)
    ensures Readable(h, Link(t, sl, n))
  {
    var s := Link(t, sl, n);
    LinkRefs(h, t, sl, n);
    TriedUntouched(h, t, s);
    forall k | k in s.mapInfo ensures NetKnown(s, k) { assert NetKnown(t, k); }
    forall a | a in s.mapAddr ensures AddrIndexed(s, a) { assert AddrIndexed(t, a); }
  }

  lemma LinkRefs(h: Hasher, t: Tables, sl: Slot, n: int)
    requires Readable(h, t) && sl !in t.vvNew && n in NewIds(t) && t.mapInfo[n].nRefCount < NEW_BUCKETS_PER_ADDRESS
    requires sl.bucket < NEW_BUCKET_COUNT && sl.pos == h.Position(t.nKey, true, sl.bucket, t.mapInfo[n].addr.service)
    ensures var s := Link(t, sl, n);
      && NewIds(s) == NewIds(t) && TriedIds(s) == TriedIds(t)
      && (forall x {:trigger NewSlotOk(h, s, x)} | x in s.vvNew :: NewSlotOk(h, s, x))
      && (forall k {:trigger RefsOk(s, k)} | k in NewIds(s) :: RefsOk(s, k))
  {
    var s := Link(t, sl, n);
    assert NewIds(s) == NewIds(t) && TriedIds(s) == TriedIds(t);
    forall x | x in s.vvNew ensures NewSlotOk(h, s, x) { if x != sl { assert NewSlotOk(h, t, x); } }
    forall k | k in NewIds(s) ensures RefsOk(s, k) {
      assert RefsOk(t, k);
      MoreRefs(t.vvNew, sl, n, k);
    }
  }

  lemma MoreRefs(table: map<Slot, int>, sl: Slot, n: int, k: int)
    requires sl !in table
    ensures |Refs(table[sl := n], k)| == |Refs(table, k)| + if k == n then 1 else 0
  {
    assert Refs(table[sl := n], k) == if k == n then Refs(table, k) + {sl} else Refs(table, k);
  }

  // ----- The records -----

  /** Ids from 0 to k - 1 are taken; those from the count of new entries on are tried. */
  ghost predicate Ranged(t: Tables, k: int) {
    forall n {:trigger n in t.mapInfo} :: (n in t.mapInfo <==> 0 <= n < k) && (n in t.mapInfo ==> (t.mapInfo[n].fInTried <==> n >= t.nNew))
  }

  lemma WelcomeReads(h: Hasher, t: Tables, n: int, r: Record, usable: bool)
    requires Readable(h, t) && Ranged(t, n) && 0 <= n < t.nNew
    ensures var s := Welcome(h, t, n, r, usable); Readable(h, s) && Ranged(s, n + 1) && s.nNew == t.nNew && s.nTried == t.nTried
  {
    var s := Welcome(h, t, n, r, true);
    var info := s.mapInfo[n];
    JoinAddrs(h, t, s, n, info);
    JoinNew(h, t, s, n, info);
    JoinTried(h, t, s, n, info);
    var sl := h.NewSlot(t.nKey, r.addr.service, r.source);
    if !usable && sl !in t.vvNew { LinkReadable(h, s, sl, n); }
  }

  lemma {:induction false} WelcomeAllReads(h: Hasher, t: Tables, rs: seq<Record>, usable: bool)
    requires Readable(h, t) && Ranged(t, 0) && |rs| <= t.nNew
    ensures var s := WelcomeAll(h, t, rs, usable); Readable(h, s) && Ranged(s, |rs|) && s.nNew == t.nNew && s.nTried == t.nTried
  {
    if rs != [] {
      var n := |rs| - 1;
      WelcomeAllReads(h, t, rs[..n], usable);
      WelcomeReads(h, WelcomeAll(h, t, rs[..n], usable), n, rs[n], usable);
    }
  }

  lemma AdmitReads(h: Hasher, t: Tables, r: Record)
    requires Readable(h, t) && Ranged(t, t.nIdCount) && 0 <= t.nNew <= t.nIdCount
    ensures var s := Admit(h, t, r); Readable(h, s) && Ranged(s, s.nIdCount) && s.nNew == t.nNew
  {
    var s := Admit(h, t, r);
    if h.TriedSlot(t.nKey, r.addr.service) !in t.vvTried {
      var info := s.mapInfo[t.nIdCount];
      JoinAddrs(h, t, s, t.nIdCount, info);
      JoinNew(h, t, s, t.nIdCount, info);
      JoinTried(h, t, s, t.nIdCount, info);
    }
  }

  /** Every record is either admitted under the next id or lost. */
  lemma {:induction false} AdmitAllReads(h: Hasher, t: Tables, rs: seq<Record>)
    requires Readable(h, t) && Ranged(t, t.nIdCount) && 0 <= t.nNew <= t.nIdCount
    ensures var (s, lost) := AdmitAll(h, t, rs);
      Readable(h, s) && Ranged(s, s.nIdCount) && s.nNew == t.nNew && s.nIdCount == t.nIdCount + |rs| - lost && lost <= |rs|
  {
    if rs != [] {
      AdmitAllReads(h, t, rs[..|rs| - 1]);
      AdmitReads(h, AdmitAll(h, t, rs[..|rs| - 1]).0, rs[|rs| - 1]);
    }
  }

  // ----- The buckets -----

  lemma RestoreReads(h: Hasher, t: Tables, b: nat, index: int, usable: bool)
    requires Readable(h, t) && Ranged(t, t.nIdCount) && (usable ==> b < NEW_BUCKET_COUNT)
    ensures Readable(h, Restore(h, t, b, index, usable)) && Ranged(Restore(h, t, b, index, usable), t.nIdCount)
    ensures SameCounters(t, Restore(h, t, b, index, usable))
  {
    var s := Restore(h, t, b, index, usable);
    if s != t {
      LinkReadable(h, t, Slot(b, h.Position(t.nKey, true, b, t.mapInfo[index].addr.service)), index);
    }
  }

  predicate SameCounters(t: Tables, s: Tables) {
    s.nIdCount == t.nIdCount && s.nNew == t.nNew && s.nTried == t.nTried
  }

  lemma {:induction false} RestoreRowReads(h: Hasher, t: Tables, b: nat, row: seq<int>, usable: bool)
    requires Readable(h, t) && Ranged(t, t.nIdCount) && (usable ==> b < NEW_BUCKET_COUNT)
    ensures var s := RestoreRow(h, t, b, row, usable); Readable(h, s) && Ranged(s, t.nIdCount) && SameCounters(t, s)
  {
    if row != [] {
      RestoreRowReads(h, t, b, row[..|row| - 1], usable);
      RestoreReads(h, RestoreRow(h, t, b, row[..|row| - 1], usable), b, row[|row| - 1], usable);
    }
  }

  lemma {:induction false} RestoreAllReads(h: Hasher, t: Tables, rows: seq<seq<int>>, usable: bool)
    requires Readable(h, t) && Ranged(t, t.nIdCount) && (usable ==> |rows| <= NEW_BUCKET_COUNT)
    ensures var s := RestoreAll(h, t, rows, usable); Readable(h, s) && Ranged(s, t.nIdCount) && SameCounters(t, s)
  {
    if rows != [] {
      var n := |rows| - 1;
      RestoreAllReads(h, t, rows[..n], usable);
      RestoreRowReads(h, RestoreAll(h, t, rows[..n], usable), n, rows[n], usable);
    }
  }

  /** What a complete file with counts that are not negative loads. */
  lemma LoadedReads(h: Hasher, d: Dump)
    requires Complete(d) && 0 <= d.nNew && 0 <= d.nTried
    ensures var t := Loaded(h, d);
      Readable(h, t) && Ranged(t, t.nIdCount) && 0 <= t.nNew <= t.nIdCount && t.nTried == t.nIdCount - t.nNew
  {
    AdmittedReads(h, d);
    assert Usable(d) ==> BucketCount(d) == NEW_BUCKET_COUNT;
    RestoreAllReads(h, Admitted(h, d), Upto(d.buckets, BucketCount(d)), Usable(d));
  }

  lemma EmptyReads(h: Hasher, e: Tables)
    requires e == Empty(e.nKey).(nNew := e.nNew, nTried := e.nTried)
    ensures Readable(h, e) && Ranged(e, 0)
  {
    assert TriedIds(e) == {} && NewIds(e) == {};
  }

  lemma AdmittedReads(h: Hasher, d: Dump)
    requires Complete(d) && 0 <= d.nNew && 0 <= d.nTried
    ensures var t := Admitted(h, d);
      Readable(h, t) && Ranged(t, t.nIdCount) && 0 <= t.nNew <= t.nIdCount && t.nTried == t.nIdCount - t.nNew
  {
    var e := Empty(d.nKey).(nNew := d.nNew, nTried := d.nTried);
    var rs, qs := Upto(d.newRecords, d.nNew), Upto(d.triedRecords, d.nTried);
    EmptyReads(h, e);
    WelcomeAllReads(h, e, rs, Usable(d));
    TriedReads(h, WelcomeAll(h, e, rs, Usable(d)), qs);
  }

  lemma TriedReads(h: Hasher, s: Tables, qs: seq<Record>)
    requires Readable(h, s) && 0 <= s.nNew && Ranged(s, s.nNew) && s.nTried == |qs|
    ensures var t := Tried(h, s, qs);
      Readable(h, t) && Ranged(t, t.nIdCount) && 0 <= t.nNew <= t.nIdCount && t.nTried == t.nIdCount - t.nNew
  {
    var u := s.(nIdCount := s.nNew);
    ReadableSame(h, s, u);
    AdmitAllReads(h, u, qs);
    var (v, lost) := AdmitAll(h, u, qs);
    AdmitAllKeepsTried(h, u, qs);
    ReadableSame(h, v, v.(nTried := v.nTried - lost));
  }

  lemma {:induction false} AdmitAllKeepsTried(h: Hasher, t: Tables, rs: seq<Record>)
    ensures AdmitAll(h, t, rs).0.nTried == t.nTried && AdmitAll(h, t, rs).0.nNew == t.nNew
  {
    if rs != [] { AdmitAllKeepsTried(h, t, rs[..|rs| - 1]); }
  }

  lemma {:induction false} WelcomeAllCounters(h: Hasher, t: Tables, rs: seq<Record>, usable: bool)
    ensures var s := WelcomeAll(h, t, rs, usable); s.nTried == t.nTried && s.nNew == t.nNew
  {
    if rs != [] { WelcomeAllCounters(h, t, rs[..|rs| - 1], usable); }
  }

  // ----- The result -----

  predicate Alike(t: Tables, n: int, k: int)
    requires n in t.mapInfo && k in t.mapInfo
  {
    t.mapInfo[n].Net() == t.mapInfo[k].Net()
  }

  /** No entry that is kept shares its address with another entry read. */
  ghost predicate Unshared(t: Tables) {
    forall n, k {:trigger Alike(t, n, k)} | n in t.mapInfo && k in t.mapInfo && n != k && Alike(t, n, k) :: Idle(t, n)
  }

  /** The file can be used: its counts are not negative, and an address it repeats ends up
      with no references at all. */
  ghost predicate Healthy(h: Hasher, d: Dump) {
    0 <= d.nNew && 0 <= d.nTried && Unshared(Loaded(h, d))
  }

  lemma KeptAddrs(h: Hasher, t: Tables, s: Tables, n: int)
    requires Readable(h, t) && Unshared(t) && PrunedBy(t, s, IdleIds(t)) && n in s.mapInfo
    ensures s.mapInfo[n].Net() in s.mapAddr && s.mapAddr[s.mapInfo[n].Net()] == n
  {
    assert SameEntry(t.mapInfo[n], s.mapInfo[n]) && NetKnown(t, n);
    var a := t.mapInfo[n].Net();
    assert AddrIndexed(t, a);
    var k := t.mapAddr[a];
    assert Alike(t, n, k);
    if a in NetsOf(t, IdleIds(t)) {
      var i :| i in IdleIds(t) && i in t.mapInfo && t.mapInfo[i].Net() == a;
      assert Alike(t, n, i);
    }
  }

  lemma KeptIndexed(h: Hasher, t: Tables, s: Tables)
    requires Readable(h, t) && Ranged(t, t.nIdCount) && 0 <= t.nIdCount && Unshared(t) && PrunedBy(t, s, IdleIds(t))
    ensures Indexed(s)
  {
    forall n | n in s.mapInfo ensures EntryIndexed(s, n) {
      assert n in t.mapInfo;
      KeptAddrs(h, t, s, n);
    }
    forall a | a in s.mapAddr ensures AddrIndexed(s, a) {
      assert AddrIndexed(t, a);
      var k := t.mapAddr[a];
      assert k in IdleIds(t) ==> a in NetsOf(t, IdleIds(t));
      assert SameEntry(t.mapInfo[k], s.mapInfo[k]);
    }
  }

  lemma KeptTables(h: Hasher, t: Tables, s: Tables)
    requires Readable(h, t) && PrunedBy(t, s, IdleIds(t))
    ensures NewConsistent(h, s, {}) && TriedConsistent(h, s)
  {
    var gone := IdleIds(t);
    TriedCarries(h, t, s, gone);
    SameSets(t, s, gone);
    forall sl | sl in s.vvNew ensures NewSlotOk(h, s, sl) {
      assert NewSlotOk(h, t, sl);
      var n := t.vvNew[sl];
      assert n in NewIds(t) && RefsOk(t, n) && sl in Refs(t.vvNew, n);
      assert n in s.mapInfo && SameEntry(t.mapInfo[n], s.mapInfo[n]);
    }
    forall n | n in NewIds(s) ensures NewEntryOk(s, n, {}) {
      assert n in NewIds(t) && RefsOk(t, n) && SameEntry(t.mapInfo[n], s.mapInfo[n]);
    }
  }

  lemma RangedCounts(t: Tables)
    requires Ranged(t, t.nIdCount) && 0 <= t.nNew <= t.nIdCount
    ensures |NewIds(t)| == t.nNew && |TriedIds(t)| == t.nIdCount - t.nNew
  {
    var a, b := NewIds(t), TriedIds(t);
    forall k ensures (k in a <==> 0 <= k < t.nNew) && (k in b <==> t.nNew <= k < t.nIdCount) {
      assert k in t.mapInfo <==> 0 <= k < t.nIdCount;
    }
    IntervalSize(0, t.nNew, a);
    IntervalSize(t.nNew, t.nIdCount, b);
  }

  lemma TakeAway(a: set<int>, b: set<int>)
    requires b <= a
    ensures |a - b| == |a| - |b|
  {
    assert a == (a - b) + b;
  }

  lemma IdleAreNew(t: Tables)
    ensures IdleIds(t) <= NewIds(t) && TriedIds(t) - IdleIds(t) == TriedIds(t)
  {
  }

  lemma KeptCounted(t: Tables, s: Tables, gone: set<int>)
    requires |NewIds(t)| == t.nNew && |TriedIds(t)| == t.nTried && gone <= NewIds(t) && TriedIds(t) - gone == TriedIds(t)
    requires Frame(t, s, gone) && s.nNew == t.nNew - |gone|
    ensures Counted(s, 0)
  {
    SameSets(t, s, gone);
    TakeAway(NewIds(t), gone);
  }

  /** An address shared with an entry that is kept is lost, or leads to only one of the two. */
  lemma SharedBreaks(h: Hasher, t: Tables, s: Tables, n: int, k: int)
    requires PrunedBy(t, s, IdleIds(t)) && n in t.mapInfo && k in t.mapInfo && n != k && Alike(t, n, k) && !Idle(t, n)
    ensures !Consistent(h, s)
  {
    assert n in s.mapInfo && SameEntry(t.mapInfo[n], s.mapInfo[n]);
    if k in s.mapInfo {
      assert SameEntry(t.mapInfo[k], s.mapInfo[k]);
      assert !(EntryIndexed(s, n) && EntryIndexed(s, k));
    } else {
      assert k in IdleIds(t) && t.mapInfo[k].Net() in NetsOf(t, IdleIds(t));
      assert !EntryIndexed(s, n);
    }
  }

  lemma {:induction false} RestoreAllCounters(h: Hasher, t: Tables, rows: seq<seq<int>>, usable: bool)
    ensures SameCounters(t, RestoreAll(h, t, rows, usable))
  {
    if rows != [] {
      RestoreAllCounters(h, t, rows[..|rows| - 1], usable);
      RestoreRowCounters(h, RestoreAll(h, t, rows[..|rows| - 1], usable), |rows| - 1, rows[|rows| - 1], usable);
    }
  }

  lemma {:induction false} RestoreRowCounters(h: Hasher, t: Tables, b: nat, row: seq<int>, usable: bool)
    ensures SameCounters(t, RestoreRow(h, t, b, row, usable))
  {
    if row != [] { RestoreRowCounters(h, t, b, row[..|row| - 1], usable); }
  }

  /** Negative counts stay negative. */
  lemma NegativeBreaks(h: Hasher, d: Dump, s: Tables)
    requires (d.nNew < 0 || d.nTried < 0) && PrunedBy(Loaded(h, d), s, IdleIds(Loaded(h, d)))
    ensures !Consistent(h, s)
  {
    var e := Empty(d.nKey).(nNew := d.nNew, nTried := d.nTried);
    var rs, qs := Upto(d.newRecords, d.nNew), Upto(d.triedRecords, d.nTried);
    WelcomeAllCounters(h, e, rs, Usable(d));
    var w := WelcomeAll(h, e, rs, Usable(d));
    AdmitAllKeepsTried(h, w.(nIdCount := w.nNew), qs);
    RestoreAllCounters(h, Admitted(h, d), Upto(d.buckets, BucketCount(d)), Usable(d));
  }

  /** Reading a complete file makes a consistent manager exactly if the file is healthy. */
  lemma LoadedConsistent(h: Hasher, d: Dump, s: Tables)
    requires Complete(d) && PrunedBy(Loaded(h, d), s, IdleIds(Loaded(h, d)))
    ensures Consistent(h, s) <==> Healthy(h, d)
  {
    var t := Loaded(h, d);
    if d.nNew < 0 || d.nTried < 0 {
      NegativeBreaks(h, d, s);
    } else if Unshared(t) {
      LoadedReads(h, d);
      KeptIndexed(h, t, s);
      KeptTables(h, t, s);
      RangedCounts(t);
      IdleAreNew(t);
      KeptCounted(t, s, IdleIds(t));
    } else {
      var n, k :| n in t.mapInfo && k in t.mapInfo && n != k && Alike(t, n, k) && !Idle(t, n);
      SharedBreaks(h, t, s, n, k);
    }
  }

  /** A file that has the same record twice, and no usable placement, is complete but not
      healthy: the second copy finds the slot of the first taken. */
  lemma RepeatedRecord(h: Hasher, r: Record, key: nat)
    ensures var d := Dump(0, 32, key, 2, 0, 0, [r, r], [], []); Complete(d) && !Healthy(h, d)
  {
    var d := Dump(0, 32, key, 2, 0, 0, [r, r], [], []);
    var e := Empty(key).(nNew := 2, nTried := 0);
    var t1 := Welcome(h, e, 0, r, false);
    var t2 := Welcome(h, t1, 1, r, false);
    assert [r, r][..1] == [r] && [r][..0] == [] && [r, r][1] == r && [r][0] == r;
    assert WelcomeAll(h, e, [r], false) == t1;
    assert WelcomeAll(h, e, [r, r], false) == t2;
    assert Upto(d.newRecords, 2) == [r, r];
    assert Loaded(h, d) == t2.(nIdCount := 2);
    var t := Loaded(h, d);
    assert Alike(t, 0, 1) && !Idle(t, 0);
  }
}
