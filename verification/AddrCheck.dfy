/** CAddrMan::Check_, the consistency check of the source: what it accepts, and that it
    accepts the manager after every operation. */
module AddrChecks {
  import opened AddrTables
  import opened AddrRuns
  import opened AddrManagers
  import opened AddrTimes

  /** The checks on one entry (codes -1 to -6, -8 and -14). */
  predicate EntryPasses(t: Tables, n: int)
    requires n in t.mapInfo
  {
    var info := t.mapInfo[n];
    && (if info.fInTried then info.nRefCount == 0
        else 1 <= info.nRefCount <= NEW_BUCKETS_PER_ADDRESS)
    && (if info.Net() in t.mapAddr then t.mapAddr[info.Net()] else 0) == n
    && 0 <= info.nRandomPos < |t.vRandom| && t.vRandom[info.nRandomPos] == n
    && InTime(info)
  }

  /** What Check_ establishes: both tables hold exactly what the entries say. */
  ghost predicate Passes(h: Hasher, t: Tables) {
    && |t.vRandom| == t.nTried + t.nNew
    && (forall n {:trigger EntryPasses(t, n)} | n in t.mapInfo :: EntryPasses(t, n))
    && |TriedIds(t)| == t.nTried && |NewIds(t)| == t.nNew
    && TablesPass(h, t)
    && t.nKey != 0
  }

  /** The invariant of the manager, and times in order, make the check pass. */
  lemma ConsistentPasses(h: Hasher, t: Tables)
    requires Consistent(h, t) && Timed(t) && t.nKey != 0
    ensures Passes(h, t)
  {
    PlacesCount(t);
    assert NewIds(t) + TriedIds(t) == t.mapInfo.Keys && NewIds(t) !! TriedIds(t);
    forall n | n in t.mapInfo ensures EntryPasses(t, n) { ConsistentEntryPasses(h, t, n); }
    forall n | n in TriedIds(t) ensures Refs(t.vvTried, n) != {} {
      assert TriedEntryOk(h, t, n);
      assert h.TriedSlot(t.nKey, t.mapInfo[n].addr.service) in Refs(t.vvTried, n);
    }
    forall n | n in NewIds(t) ensures |Refs(t.vvNew, n)| == t.mapInfo[n].nRefCount { assert NewEntryOk(t, n, {}); }
  }

  lemma ConsistentEntryPasses(h: Hasher, t: Tables, n: int)
    requires Consistent(h, t) && Timed(t) && n in t.mapInfo
    ensures EntryPasses(t, n)
  {
    assert EntryIndexed(t, n) && InTime(t.mapInfo[n]);
    if n in TriedIds(t) { assert TriedEntryOk(h, t, n); } else { assert n in NewIds(t) && NewEntryOk(t, n, {}); }
  }

  // ----- What the check overlooks -----

  /** Ids are in range, and mapAddr has the address of every entry and of nothing else. The
      check asks neither: it looks each address of an entry up, and takes a missing one for
      that of entry 0. */
  ghost predicate AddressesRight(t: Tables) {
    && 0 <= t.nIdCount
    && (forall n | n in t.mapInfo :: 0 <= n < t.nIdCount && t.mapInfo[n].Net() in t.mapAddr)
    && (forall a {:trigger AddrIndexed(t, a)} | a in t.mapAddr :: AddrIndexed(t, a))
  }

  lemma {:induction false} ElementsAtMost(s: seq<int>)
    ensures |Elements(s)| <= |s|
  {
    if s != [] {
      var n := |s| - 1;
      ElementsAtMost(s[..n]);
      assert s == s[..n] + [s[n]];
      assert Elements(s) == Elements(s[..n]) + {s[n]};
    } else {
      assert Elements(s) == {};
    }
  }

  lemma RepeatedElement(s: seq<int>, i: nat, j: nat)
    requires i < |s| && j < |s| && i != j && s[i] == s[j]
    ensures |Elements(s)| < |s|
  {
    var rest := s[..i] + s[i + 1..];
    assert rest[if j < i then j else j - 1] == s[i];
    forall n | n in s ensures n in rest {
      var k :| 0 <= k < |s| && s[k] == n;
      if k != i { assert rest[if k < i then k else k - 1] == n; }
    }
    assert Elements(s) == Elements(rest);
    ElementsAtMost(rest);
  }

  lemma SameSize(a: set<int>, b: set<int>)
    requires a <= b && |b| <= |a|
    ensures a == b
  {
    assert b == a + (b - a);
    assert |b| == |a| + |b - a|;
  }

  /** As many places as entries, each with a place of its own: every place is taken. */
  lemma PlacesTaken(t: Tables, i: nat)
    requires i < |t.vRandom| == |t.mapInfo|
    requires forall n | n in t.mapInfo :: 0 <= t.mapInfo[n].nRandomPos < |t.vRandom| && t.vRandom[t.mapInfo[n].nRandomPos] == n
    ensures PlaceIndexed(t, i)
  {
    ElementsAtMost(t.vRandom);
    forall n | n in t.mapInfo ensures n in Elements(t.vRandom) { assert t.vRandom[t.mapInfo[n].nRandomPos] == n; }
    assert |t.mapInfo.Keys| == |t.mapInfo|;
    SameSize(t.mapInfo.Keys, Elements(t.vRandom));
    var n := t.vRandom[i];
    assert n in Elements(t.vRandom);
    if t.mapInfo[n].nRandomPos != i { RepeatedElement(t.vRandom, t.mapInfo[n].nRandomPos, i); }
  }

  lemma PassesIndexed(h: Hasher, t: Tables)
    requires Passes(h, t) && AddressesRight(t)
    ensures Indexed(t)
  {
    assert NewIds(t) + TriedIds(t) == t.mapInfo.Keys && NewIds(t) !! TriedIds(t);
    forall n | n in t.mapInfo ensures EntryIndexed(t, n) { assert EntryPasses(t, n); }
    forall n | n in t.mapInfo ensures 0 <= t.mapInfo[n].nRandomPos < |t.vRandom| && t.vRandom[t.mapInfo[n].nRandomPos] == n { assert EntryIndexed(t, n); }
    forall i | 0 <= i < |t.vRandom| ensures PlaceIndexed(t, i) { PlacesTaken(t, i); }
  }

  lemma PassesTables(h: Hasher, t: Tables)
    requires Passes(h, t)
    ensures NewConsistent(h, t, {}) && TriedConsistent(h, t) && Timed(t)
  {
    forall n | n in t.mapInfo ensures InTime(t.mapInfo[n]) { assert EntryPasses(t, n); }
    forall n | n in NewIds(t) ensures NewEntryOk(t, n, {}) { assert EntryPasses(t, n); }
    forall n | n in TriedIds(t) ensures TriedEntryOk(h, t, n) {
      assert EntryPasses(t, n);
      var sl :| sl in Refs(t.vvTried, n);
      assert TriedSlotOk(h, t, sl);
    }
  }

  /** The check tells the invariant, times in order and a key, but for the addresses. */
  lemma PassesExactly(h: Hasher, t: Tables)
    ensures Passes(h, t) && AddressesRight(t) <==> Consistent(h, t) && Timed(t) && t.nKey != 0
  {
    if Passes(h, t) && AddressesRight(t) {
      PassesIndexed(h, t);
      PassesTables(h, t);
    }
    if Consistent(h, t) && Timed(t) && t.nKey != 0 {
      ConsistentPasses(h, t);
      forall n | n in t.mapInfo ensures 0 <= n < t.nIdCount && t.mapInfo[n].Net() in t.mapAddr { assert EntryIndexed(t, n); }
    }
  }

  /** It can fail to tell: an address that leads to no entry passes. */
  lemma StalePasses(h: Hasher, a: NetAddr, key: nat)
    requires key != 0
    ensures var t := Empty(key).(mapAddr := map[a := 5]); Passes(h, t) && !Consistent(h, t)
  {
    var t := Empty(key).(mapAddr := map[a := 5]);
    assert TriedIds(t) == {} && NewIds(t) == {};
    assert !AddrIndexed(t, a);
  }

  // ----- The entries -----

  ghost function RefCounts(t: Tables): map<int, int> {
    map n | n in NewIds(t) :: t.mapInfo[n].nRefCount
  }

  method CheckEntry(m: AddrMan, n: int) returns (code: int)
    requires n in m.mapInfo
    ensures code == 0 <==> EntryPasses(m.State(), n)
  {
    var info := m.mapInfo[n];
    if info.fInTried {
      if info.nLastSuccess == 0 { return -1; }
      if info.nRefCount != 0 { return -2; }
    } else {
      if info.nRefCount < 0 || info.nRefCount > NEW_BUCKETS_PER_ADDRESS { return -3; }
      if info.nRefCount == 0 { return -4; }
    }
    if (if info.Net() in m.mapAddr then m.mapAddr[info.Net()] else 0) != n { return -5; }
    if info.nRandomPos < 0 || info.nRandomPos >= |m.vRandom| || m.vRandom[info.nRandomPos] != n { return -14; }
    if info.nLastTry < 0 { return -6; }
    if info.nLastSuccess < 0 { return -8; }
    return 0;
  }

  /** The entries are visited in any order. */
  method CheckEntries(m: AddrMan) returns (code: int, setTried: set<int>, mapNew: map<int, int>)
    ensures code == 0 <==> forall n {:trigger EntryPasses(m.State(), n)} | n in m.mapInfo :: EntryPasses(m.State(), n)
    ensures code == 0 ==> setTried == TriedIds(m.State()) && mapNew == RefCounts(m.State())
  {
    ghost var t := m.State();
    code, setTried, mapNew := 0, {}, map[];
    var todo := set n | n in m.mapInfo;
    assert forall n | n in RefCounts(t) :: n in todo;
    while todo != {}
      invariant todo <= t.mapInfo.Keys && code == 0
      invariant forall n {:trigger EntryPasses(t, n)} | n in t.mapInfo.Keys - todo :: EntryPasses(t, n)
      invariant setTried == TriedIds(t) - todo
      invariant mapNew == RefCounts(t) - todo
      decreases todo
    {
      var n := AnyOf(todo);
      code := CheckEntry(m, n);
      if code != 0 { return; }
      if m.mapInfo[n].fInTried {
        setTried := setTried + {n};
      } else {
        mapNew := mapNew[n := m.mapInfo[n].nRefCount];
      }
      todo := todo - {n};
    }
  }

  // ----- The tried table -----

  ghost predicate TriedSound(h: Hasher, t: Tables, b: int, i: int) {
    forall sl {:trigger TriedSlotOk(h, t, sl)} | sl in t.vvTried && Before(sl, b, i) :: TriedSlotOk(h, t, sl)
  }

  ghost function Unseen(t: Tables, b: int, i: int): set<int> {
    set n | n in TriedIds(t) && Seen(t.vvTried, n, b, i) == {}
  }

  method CheckTriedSlot(m: AddrMan, b: nat, i: nat, setTried: set<int>) returns (code: int, rest: set<int>)
    requires m.Shaped() && b < TRIED_BUCKET_COUNT && i < BUCKET_SIZE
    requires TriedSound(m.h, m.State(), b, i) && setTried == Unseen(m.State(), b, i)
    ensures code == 0 ==> TriedSound(m.h, m.State(), b, i + 1) && rest == Unseen(m.State(), b, i + 1)
    ensures code != 0 ==> Slot(b, i) in m.State().vvTried && !TriedSlotOk(m.h, m.State(), Slot(b, i))
  {
    ghost var t, sl := m.State(), Slot(b, i);
    var id := m.vvTried[b, i];
    rest := setTried;
    forall n ensures Seen(t.vvTried, n, b, i + 1) == Seen(t.vvTried, n, b, i) + if sl in t.vvTried && t.vvTried[sl] == n then {sl} else {} {
      SeenStep(t.vvTried, n, b, i);
    }
    if id == -1 { return 0, rest; }
    if id !in setTried {
      if id in TriedIds(t) {
        var x :| x in Seen(t.vvTried, id, b, i);
        assert TriedSlotOk(m.h, t, x);
      }
      return -11, rest;
    }
    if m.h.TriedBucket(m.nKey, m.mapInfo[id].addr.service) != b { return -17, rest; }
    if m.h.Position(m.nKey, false, b, m.mapInfo[id].addr.service) != i { return -18, rest; }
    rest := setTried - {id};
    return 0, rest;
  }

  method CheckTried(m: AddrMan, triedIds: set<int>) returns (code: int, setTried: set<int>)
    requires m.Shaped() && triedIds == TriedIds(m.State())
    ensures code == 0 <==> TriedSound(m.h, m.State(), TRIED_BUCKET_COUNT, 0)
    ensures code == 0 ==> setTried == set n | n in TriedIds(m.State()) && Refs(m.State().vvTried, n) == {}
  {
    ghost var t := m.State();
    code, setTried := 0, triedIds;
    for b := 0 to TRIED_BUCKET_COUNT
      invariant code == 0 && TriedSound(m.h, t, b, 0) && setTried == Unseen(t, b, 0)
    {
      for i := 0 to BUCKET_SIZE
        invariant code == 0 && TriedSound(m.h, t, b, i) && setTried == Unseen(t, b, i)
      {
        code, setTried := CheckTriedSlot(m, b, i, setTried);
        if code != 0 { return; }
      }
      forall n ensures Seen(t.vvTried, n, b + 1, 0) == Seen(t.vvTried, n, b, BUCKET_SIZE) { SeenRow(t.vvTried, n, b, BUCKET_SIZE); }
    }
    forall n ensures Seen(t.vvTried, n, TRIED_BUCKET_COUNT, 0) == Refs(t.vvTried, n) { SeenAll(t.vvTried, n, TRIED_BUCKET_COUNT); }
  }

  // ----- The new table -----

  ghost predicate NewSound(h: Hasher, t: Tables, b: int, i: int) {
    && (forall sl {:trigger NewSlotOk(h, t, sl)} | sl in t.vvNew && Before(sl, b, i) :: NewSlotOk(h, t, sl))
    && (forall n | n in NewIds(t) :: |Seen(t.vvNew, n, b, i)| <= t.mapInfo[n].nRefCount)
  }

  /** The references not met yet. */
  ghost function Owed(t: Tables, b: int, i: int): map<int, int> {
    map n | n in NewIds(t) && |Seen(t.vvNew, n, b, i)| < t.mapInfo[n].nRefCount :: t.mapInfo[n].nRefCount - |Seen(t.vvNew, n, b, i)|
  }

  /** What one occupied slot changes: its entry is owed one reference less. */
  lemma OwedStep(t: Tables, b: nat, i: nat, id: int)
    requires forall n | n in NewIds(t) :: |Seen(t.vvNew, n, b, i)| <= t.mapInfo[n].nRefCount
    requires Slot(b, i) in t.vvNew && t.vvNew[Slot(b, i)] == id
    ensures id in Owed(t, b, i) ==>
      var left := Owed(t, b, i)[id] - 1;
      && Owed(t, b, i + 1) == (if left == 0 then Owed(t, b, i) - {id} else Owed(t, b, i)[id := left])
      && forall n | n in NewIds(t) :: |Seen(t.vvNew, n, b, i + 1)| <= t.mapInfo[n].nRefCount
    ensures id in NewIds(t) && id !in Owed(t, b, i) ==> |Seen(t.vvNew, id, b, i + 1)| > t.mapInfo[id].nRefCount
  {
    var sl := Slot(b, i);
    forall n ensures |Seen(t.vvNew, n, b, i + 1)| == |Seen(t.vvNew, n, b, i)| + if n == id then 1 else 0 {
      SeenStep(t.vvNew, n, b, i);
      assert sl !in Seen(t.vvNew, n, b, i);
    }
  }

  /** A free slot, a slot that fails, and a slot that passes. */
  lemma FreeStep(h: Hasher, t: Tables, b: nat, i: nat)
    requires Slot(b, i) !in t.vvNew && NewSound(h, t, b, i)
    ensures NewSound(h, t, b, i + 1) && Owed(t, b, i + 1) == Owed(t, b, i)
  {
    forall n ensures Seen(t.vvNew, n, b, i + 1) == Seen(t.vvNew, n, b, i) { SeenStep(t.vvNew, n, b, i); }
  }

  lemma FailStep(h: Hasher, t: Tables, b: nat, i: nat, id: int)
    requires NewSound(h, t, b, i) && Slot(b, i) in t.vvNew && t.vvNew[Slot(b, i)] == id
    requires id !in Owed(t, b, i) || !NewSlotOk(h, t, Slot(b, i))
    ensures !NewSound(h, t, b, i + 1)
  {
    OwedStep(t, b, i, id);
    assert Before(Slot(b, i), b, i + 1);
    assert id !in NewIds(t) ==> !NewSlotOk(h, t, Slot(b, i));
  }

  lemma PassStep(h: Hasher, t: Tables, b: nat, i: nat, id: int)
    requires NewSound(h, t, b, i) && Slot(b, i) in t.vvNew && t.vvNew[Slot(b, i)] == id
    requires id in Owed(t, b, i) && NewSlotOk(h, t, Slot(b, i))
    ensures NewSound(h, t, b, i + 1)
    ensures var left := Owed(t, b, i)[id] - 1;
      Owed(t, b, i + 1) == if left == 0 then Owed(t, b, i)[id := left] - {id} else Owed(t, b, i)[id := left]
  {
    OwedStep(t, b, i, id);
    assert Owed(t, b, i)[id := 0] - {id} == Owed(t, b, i) - {id};
    forall sl | sl in t.vvNew && Before(sl, b, i + 1) ensures NewSlotOk(h, t, sl) { assert sl == Slot(b, i) || Before(sl, b, i); }
  }

  method CheckNewSlot(m: AddrMan, b: nat, i: nat, mapNew: map<int, int>) returns (code: int, rest: map<int, int>)
    requires m.Shaped() && b < NEW_BUCKET_COUNT && i < BUCKET_SIZE
    requires NewSound(m.h, m.State(), b, i) && mapNew == Owed(m.State(), b, i)
    ensures code == 0 ==> NewSound(m.h, m.State(), b, i + 1) && rest == Owed(m.State(), b, i + 1)
    ensures code != 0 ==> !NewSound(m.h, m.State(), b, i + 1)
  {
    var id := m.vvNew[b, i];
    rest := mapNew;
    if id == -1 {
      FreeStep(m.h, m.State(), b, i);
      return 0, rest;
    }
    if id !in mapNew {
      FailStep(m.h, m.State(), b, i, id);
      return -12, rest;
    }
    if m.h.Position(m.nKey, true, b, m.mapInfo[id].addr.service) != i {
      FailStep(m.h, m.State(), b, i, id);
      return -19, rest;
    }
    PassStep(m.h, m.State(), b, i, id);
    rest := mapNew[id := mapNew[id] - 1];
    if rest[id] == 0 {
      rest := rest - {id};
    }
    return 0, rest;
  }

  method CheckNewRow(m: AddrMan, b: nat, counts: map<int, int>) returns (code: int, mapNew: map<int, int>)
    requires m.Shaped() && b < NEW_BUCKET_COUNT
    requires NewSound(m.h, m.State(), b, 0) && counts == Owed(m.State(), b, 0)
    ensures code == 0 ==> NewSound(m.h, m.State(), b + 1, 0) && mapNew == Owed(m.State(), b + 1, 0)
    ensures code != 0 ==> !NewSound(m.h, m.State(), NEW_BUCKET_COUNT, 0)
  {
    ghost var t := m.State();
    code, mapNew := 0, counts;
    for i := 0 to BUCKET_SIZE
      invariant code == 0 && NewSound(m.h, t, b, i) && mapNew == Owed(t, b, i)
    {
      code, mapNew := CheckNewSlot(m, b, i, mapNew);
      if code != 0 {
        SoundDown(m.h, t, b, i);
        return;
      }
    }
    RowEnd(m.h, t, b);
  }

  lemma RowEnd(h: Hasher, t: Tables, b: nat)
    requires forall sl | sl in t.vvNew :: sl.pos < BUCKET_SIZE
    ensures NewSound(h, t, b, BUCKET_SIZE) ==> NewSound(h, t, b + 1, 0)
    ensures Owed(t, b + 1, 0) == Owed(t, b, BUCKET_SIZE)
  {
    forall n ensures Seen(t.vvNew, n, b + 1, 0) == Seen(t.vvNew, n, b, BUCKET_SIZE) { SeenRow(t.vvNew, n, b, BUCKET_SIZE); }
  }

  /** Before the walk every count is owed in full. */
  lemma OwedAll(h: Hasher, t: Tables)
    requires forall n | n in NewIds(t) :: t.mapInfo[n].nRefCount > 0
    ensures NewSound(h, t, 0, 0) && Owed(t, 0, 0) == RefCounts(t)
  {
    forall n ensures Seen(t.vvNew, n, 0, 0) == {} { }
  }

  method CheckNew(m: AddrMan, counts: map<int, int>) returns (code: int, mapNew: map<int, int>)
    requires m.Shaped() && counts == RefCounts(m.State())
    requires forall n | n in NewIds(m.State()) :: m.mapInfo[n].nRefCount > 0
    ensures code == 0 <==> NewSound(m.h, m.State(), NEW_BUCKET_COUNT, 0)
    ensures code == 0 ==> mapNew == Owed(m.State(), NEW_BUCKET_COUNT, 0)
  {
    ghost var t := m.State();
    OwedAll(m.h, t);
    code, mapNew := 0, counts;
    for b := 0 to NEW_BUCKET_COUNT
      invariant code == 0 && NewSound(m.h, t, b, 0) && mapNew == Owed(t, b, 0)
    {
      code, mapNew := CheckNewRow(m, b, mapNew);
      if code != 0 { return; }
    }
  }

  /** A table that is sound to the end is sound up to any slot. */
  lemma SoundDown(h: Hasher, t: Tables, b: nat, i: nat)
    requires b < NEW_BUCKET_COUNT
    ensures NewSound(h, t, NEW_BUCKET_COUNT, 0) ==> NewSound(h, t, b, i + 1)
  {
    forall n | n in NewIds(t) ensures |Seen(t.vvNew, n, b, i + 1)| <= |Seen(t.vvNew, n, NEW_BUCKET_COUNT, 0)| {
      var part, whole := Seen(t.vvNew, n, b, i + 1), Seen(t.vvNew, n, NEW_BUCKET_COUNT, 0);
      assert whole == part + (whole - part);
    }
  }

  /** What the walk over the whole new table amounts to: every slot is right and no entry
      has more references than it counts; nothing is owed if it has exactly as many. */
  lemma WalkedNew(h: Hasher, t: Tables)
    requires forall sl | sl in t.vvNew :: sl.bucket < NEW_BUCKET_COUNT
    ensures NewSound(h, t, NEW_BUCKET_COUNT, 0) <==>
      && (forall sl {:trigger NewSlotOk(h, t, sl)} | sl in t.vvNew :: NewSlotOk(h, t, sl))
      && (forall n | n in NewIds(t) :: |Refs(t.vvNew, n)| <= t.mapInfo[n].nRefCount)
    ensures |Owed(t, NEW_BUCKET_COUNT, 0)| == 0 <==> forall n | n in NewIds(t) :: |Refs(t.vvNew, n)| >= t.mapInfo[n].nRefCount
  {
    forall n ensures Seen(t.vvNew, n, NEW_BUCKET_COUNT, 0) == Refs(t.vvNew, n) { SeenAll(t.vvNew, n, NEW_BUCKET_COUNT); }
    var owed := Owed(t, NEW_BUCKET_COUNT, 0);
    assert |owed| == 0 <==> owed.Keys == {};
    assert forall n | n in NewIds(t) :: n in owed <==> |Refs(t.vvNew, n)| < t.mapInfo[n].nRefCount;
    assert owed.Keys == {} <==> forall n | n in NewIds(t) :: n !in owed;
  }

  lemma WalkedTried(h: Hasher, t: Tables, left: set<int>)
    requires forall sl | sl in t.vvTried :: sl.bucket < TRIED_BUCKET_COUNT
    requires left == set n | n in TriedIds(t) && Refs(t.vvTried, n) == {}
    ensures TriedSound(h, t, TRIED_BUCKET_COUNT, 0) <==> forall sl {:trigger TriedSlotOk(h, t, sl)} | sl in t.vvTried :: TriedSlotOk(h, t, sl)
    ensures |left| == 0 <==> forall n | n in TriedIds(t) :: Refs(t.vvTried, n) != {}
  {
    assert |left| == 0 <==> left == {};
    assert forall n | n in TriedIds(t) :: n in left <==> Refs(t.vvTried, n) == {};
    assert left == {} <==> forall n | n in TriedIds(t) :: n !in left;
  }

  // ----- The whole check -----

  method Check_(m: AddrMan) returns (code: int)
    requires m.Shaped()
    ensures code == 0 <==> Passes(m.h, m.State())
  {
    if |m.vRandom| != m.nTried + m.nNew { return -7; }
    var setTried, mapNew;
    code, setTried, mapNew := CheckEntries(m);
    if code != 0 { return; }
    if |setTried| != m.nTried { return -9; }
    SizeOfCounts(m.State());
    if |mapNew| != m.nNew { return -10; }
    code := CheckTables(m, setTried, mapNew);
    if code == 0 && m.nKey == 0 { return -16; }
  }

  lemma SizeOfCounts(t: Tables)
    ensures |RefCounts(t)| == |NewIds(t)|
  {
    assert RefCounts(t).Keys == NewIds(t);
  }

  /** The checks on the two tables, once the entries have passed. */
  ghost predicate TablesPass(h: Hasher, t: Tables) {
    && (forall sl {:trigger TriedSlotOk(h, t, sl)} | sl in t.vvTried :: TriedSlotOk(h, t, sl))
    && (forall sl {:trigger NewSlotOk(h, t, sl)} | sl in t.vvNew :: NewSlotOk(h, t, sl))
    && (forall n | n in TriedIds(t) :: Refs(t.vvTried, n) != {})
    && (forall n | n in NewIds(t) :: |Refs(t.vvNew, n)| == t.mapInfo[n].nRefCount)
  }

  method CheckTables(m: AddrMan, triedIds: set<int>, counts: map<int, int>) returns (code: int)
    requires m.Shaped() && triedIds == TriedIds(m.State()) && counts == RefCounts(m.State())
    requires forall n {:trigger EntryPasses(m.State(), n)} | n in m.mapInfo :: EntryPasses(m.State(), n)
    ensures code == 0 <==> TablesPass(m.h, m.State())
  {
    ghost var t := m.State();
    forall n | n in NewIds(t) ensures m.mapInfo[n].nRefCount > 0 { assert EntryPasses(t, n); }
    var setTried, mapNew;
    code, setTried := CheckTried(m, triedIds);
    if code != 0 {
      WalkedTried(m.h, t, set n | n in TriedIds(t) && Refs(t.vvTried, n) == {});
      return;
    }
    WalkedTried(m.h, t, setTried);
    WalkedNew(m.h, t);
    code, mapNew := CheckNew(m, counts);
    if code != 0 { return; }
    if |setTried| != 0 { return -13; }
    if |mapNew| != 0 { return -15; }
  }

  /** On a valid manager the check finds nothing. */
  method CheckValid(m: AddrMan) returns (code: int)
    requires m.Valid() && Timed(m.State()) && m.nKey != 0
    ensures code == 0
  {
    ConsistentPasses(m.h, m.State());
    code := Check_(m);
  }
}
