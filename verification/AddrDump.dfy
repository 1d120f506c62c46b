/** What an address manager writes to its file and what reading it back builds
    (CAddrMan::Serialize and Unserialize, src/addrman.h), as values. The stream is kept as
    its fields, not as bytes. */
module AddrDumps {
  import opened AddrTables
  import opened AddrRuns

  /** The serialized part of an entry. */
  datatype Record = Record(addr: Address, source: NetAddr, nLastSuccess: int, nAttempts: int)

  datatype Dump = Dump(
    nVersion: nat, nKeySize: nat, nKey: nat, nNew: int, nTried: int, nUBuckets: int,
    newRecords: seq<Record>, triedRecords: seq<Record>, buckets: seq<seq<int>>)

  /** x ^ (1 << 30). */
  function FlipBit30(x: int): int {
    if x / 0x4000_0000 % 2 == 0 then x + 0x4000_0000 else x - 0x4000_0000
  }

  function RecordOf(info: AddrInfo): Record {
    Record(info.addr, info.source, info.nLastSuccess, info.nAttempts)
  }

  /** An entry as read back. */
  function Revived(r: Record, place: int): AddrInfo {
    AddrInfo(r.addr, r.source, 0, r.nLastSuccess, r.nAttempts, 0, false, place)
  }

  predicate Listed(t: Tables, n: int, tried: bool)
    requires n in t.mapInfo
  {
    if tried then t.mapInfo[n].fInTried else t.mapInfo[n].nRefCount != 0
  }

  /** The tried entries, or those with references, among the ids below k in ascending order. */
  function Ids(t: Tables, k: int, tried: bool): (ids: seq<int>)
    ensures forall i | 0 <= i < |ids| :: ids[i] in t.mapInfo
  {
    if k <= 0 then [] else
      Ids(t, k - 1, tried) + if k - 1 in t.mapInfo && Listed(t, k - 1, tried) then [k - 1] else []
  }

  lemma {:induction false} IdsMember(t: Tables, k: int, tried: bool, i: int)
    requires 0 <= i < |Ids(t, k, tried)|
    ensures var n := Ids(t, k, tried)[i]; 0 <= n < k && n in t.mapInfo && Listed(t, n, tried) && |Ids(t, n, tried)| == i
  {
    if i < |Ids(t, k - 1, tried)| { IdsMember(t, k - 1, tried, i); }
  }

  lemma {:induction false} IdsIndex(t: Tables, k: int, tried: bool, n: int)
    requires 0 <= n < k && n in t.mapInfo && Listed(t, n, tried)
    ensures |Ids(t, n, tried)| < |Ids(t, k, tried)| && Ids(t, k, tried)[|Ids(t, n, tried)|] == n
  {
    if n < k - 1 { IdsIndex(t, k - 1, tried, n); }
  }

  lemma {:induction false} IdsSet(t: Tables, k: int, tried: bool)
    requires forall n | n in t.mapInfo :: n >= 0
    ensures Elements(Ids(t, k, tried)) == set n | n in t.mapInfo && n < k && Listed(t, n, tried)
    ensures |Elements(Ids(t, k, tried))| == |Ids(t, k, tried)|
  {
    if k > 0 {
      IdsSet(t, k - 1, tried);
      var before := Ids(t, k - 1, tried);
      if k - 1 in t.mapInfo && Listed(t, k - 1, tried) {
        assert k - 1 !in Elements(before);
        assert Elements(before + [k - 1]) == Elements(before) + {k - 1};
      } else {
        assert before + [] == before;
      }
    }
  }

  /** The order in which entries are written, and the id each is read back under. */
  function Order(t: Tables): seq<int> {
    Ids(t, t.nIdCount, false) + Ids(t, t.nIdCount, true)
  }

  function Rename(t: Tables, n: int): int {
    if n in t.mapInfo && t.mapInfo[n].fInTried then |Ids(t, t.nIdCount, false)| + |Ids(t, n, true)| else |Ids(t, n, false)|
  }

  /** On a consistent manager an entry is written in exactly one of the two lists, and the
      lists are as long as the counters say. */
  lemma ListsComplete(h: Hasher, t: Tables)
    requires Consistent(h, t)
    ensures forall n | n in t.mapInfo :: 0 <= n < t.nIdCount && (Listed(t, n, false) <==> !t.mapInfo[n].fInTried)
    ensures |Ids(t, t.nIdCount, false)| == t.nNew && |Ids(t, t.nIdCount, true)| == t.nTried
  {
    forall n | n in t.mapInfo ensures 0 <= n < t.nIdCount && (Listed(t, n, false) <==> !t.mapInfo[n].fInTried) {
      assert EntryIndexed(t, n);
      if n in TriedIds(t) { assert TriedEntryOk(h, t, n); } else { assert n in NewIds(t) && NewEntryOk(t, n, {}); }
    }
    IdsSet(t, t.nIdCount, false);
    IdsSet(t, t.nIdCount, true);
    assert Elements(Ids(t, t.nIdCount, false)) == NewIds(t) && Elements(Ids(t, t.nIdCount, true)) == TriedIds(t);
  }

  /** Renaming and writing order are inverse. */
  lemma OrderOfRename(h: Hasher, t: Tables, n: int)
    requires Consistent(h, t) && n in t.mapInfo
    ensures 0 <= Rename(t, n) < |Order(t)| && Order(t)[Rename(t, n)] == n
    ensures t.mapInfo[n].fInTried <==> Rename(t, n) >= t.nNew
  {
    ListsComplete(h, t);
    IdsIndex(t, t.nIdCount, t.mapInfo[n].fInTried, n);
  }

  lemma RenameOfOrder(h: Hasher, t: Tables, k: int)
    requires Consistent(h, t) && 0 <= k < |Order(t)|
    ensures Order(t)[k] in t.mapInfo && Rename(t, Order(t)[k]) == k
    ensures t.mapInfo[Order(t)[k]].fInTried <==> k >= t.nNew
  {
    ListsComplete(h, t);
    if k < t.nNew { IdsMember(t, t.nIdCount, false, k); } else { IdsMember(t, t.nIdCount, true, k - t.nNew); }
  }

  /** The entries of one new bucket, by the position of their record. */
  function Row(t: Tables, b: nat, i: nat): seq<int> {
    if i == 0 then [] else
      Row(t, b, i - 1) +
      if Slot(b, i - 1) in t.vvNew then [|Ids(t, t.vvNew[Slot(b, i - 1)], false)|] else []
  }

  function Records(t: Tables, ids: seq<int>): seq<Record>
    requires forall i | 0 <= i < |ids| :: ids[i] in t.mapInfo
  {
    seq(|ids|, i requires 0 <= i < |ids| => RecordOf(t.mapInfo[ids[i]]))
  }

  function Written(t: Tables): Dump {
    Dump(1, 32, t.nKey, t.nNew, t.nTried, FlipBit30(NEW_BUCKET_COUNT),
         Records(t, Ids(t, t.nIdCount, false)), Records(t, Ids(t, t.nIdCount, true)),
         seq(NEW_BUCKET_COUNT, b requires 0 <= b < NEW_BUCKET_COUNT => Row(t, b, BUCKET_SIZE)))
  }

  ghost function Renamed(t: Tables, table: map<Slot, int>): map<Slot, int> {
    map sl | sl in table :: Rename(t, table[sl])
  }

  /** The manager under the new ids: nothing but the ids, the random order and the
      unsaved time of the last try differs. */
  ghost function Rebuilt(t: Tables): Tables {
    Tables(t.nKey, |Order(t)|,
           map k | 0 <= k < |Order(t)| :: t.mapInfo[Order(t)[k]].(nLastTry := 0, nRandomPos := k),
           map a | a in t.mapAddr :: Rename(t, t.mapAddr[a]),
           seq(|Order(t)|, i => i),
           t.nTried, Renamed(t, t.vvTried), t.nNew, Renamed(t, t.vvNew))
  }

  /** Entry n of the original is entry Rename(n) of the rebuilt manager, and every entry of
      the rebuilt manager is one of these. */
  lemma RebuiltEntry(h: Hasher, t: Tables, n: int)
    requires Consistent(h, t) && n in t.mapInfo
    ensures var r, k := Rebuilt(t), Rename(t, n);
      k in r.mapInfo && r.mapInfo[k] == t.mapInfo[n].(nLastTry := 0, nRandomPos := k)
  {
    OrderOfRename(h, t, n);
  }

  lemma RebuiltEntries(h: Hasher, t: Tables, r: Tables, k: int)
    requires Consistent(h, t) && r == Rebuilt(t) && k in r.mapInfo
    ensures EntryIndexed(r, k)
  {
    RenameOfOrder(h, t, k);
    var n := Order(t)[k];
    assert EntryIndexed(t, n);
  }

  lemma RebuiltAddrs(h: Hasher, t: Tables, r: Tables, a: NetAddr)
    requires Consistent(h, t) && r == Rebuilt(t) && a in r.mapAddr
    ensures AddrIndexed(r, a)
  {
    assert AddrIndexed(t, a);
    var n := t.mapAddr[a];
    RebuiltEntry(h, t, n);
  }

  lemma RebuiltIndexed(h: Hasher, t: Tables)
    requires Consistent(h, t)
    ensures Indexed(Rebuilt(t))
  {
    var r := Rebuilt(t);
    forall k | k in r.mapInfo ensures EntryIndexed(r, k) { RebuiltEntries(h, t, r, k); }
    forall a | a in r.mapAddr ensures AddrIndexed(r, a) { RebuiltAddrs(h, t, r, a); }
    forall i | 0 <= i < |r.vRandom| ensures PlaceIndexed(r, i) { }
  }

  lemma RenamedRefs(h: Hasher, t: Tables, table: map<Slot, int>, k: int)
    requires Consistent(h, t) && 0 <= k < |Order(t)| && forall sl | sl in table :: table[sl] in t.mapInfo
    ensures Refs(Renamed(t, table), k) == Refs(table, Order(t)[k])
  {
    RenameOfOrder(h, t, k);
    forall sl | sl in table ensures Rename(t, table[sl]) == k <==> table[sl] == Order(t)[k] {
      var n := table[sl];
      OrderOfRename(h, t, n);
    }
  }

  lemma RebuiltNew(h: Hasher, t: Tables, r: Tables)
    requires Consistent(h, t) && r == Rebuilt(t)
    ensures NewConsistent(h, r, {})
  {
    forall sl | sl in t.vvNew ensures t.vvNew[sl] in t.mapInfo && NewSlotOk(h, r, sl) {
      assert NewSlotOk(h, t, sl);
      var n := t.vvNew[sl];
      RebuiltEntry(h, t, n);
    }
    forall k | k in NewIds(r) ensures NewEntryOk(r, k, {}) {
      RenameOfOrder(h, t, k);
      var n := Order(t)[k];
      assert n in NewIds(t) && NewEntryOk(t, n, {});
      RenamedRefs(h, t, t.vvNew, k);
    }
  }

  lemma RebuiltTried(h: Hasher, t: Tables, r: Tables)
    requires Consistent(h, t) && r == Rebuilt(t)
    ensures TriedConsistent(h, r)
  {
    forall sl | sl in r.vvTried ensures TriedSlotOk(h, r, sl) {
      assert TriedSlotOk(h, t, sl);
      var n := t.vvTried[sl];
      RebuiltEntry(h, t, n);
    }
    forall k | k in TriedIds(r) ensures TriedEntryOk(h, r, k) {
      RenameOfOrder(h, t, k);
      var n := Order(t)[k];
      assert n in TriedIds(t) && TriedEntryOk(h, t, n);
    }
  }

  lemma {:induction false} IntervalSize(a: int, b: int, s: set<int>)
    requires a <= b && forall k :: k in s <==> a <= k < b
    ensures |s| == b - a
    decreases b - a
  {
    if a < b {
      IntervalSize(a, b - 1, s - {b - 1});
    } else {
      var none: set<int> := {};
      assert s == none by { assert forall k :: k in s <==> k in none; }
    }
  }

  /** The rebuilt manager satisfies the invariant again. */
  lemma RebuiltConsistent(h: Hasher, t: Tables)
    requires Consistent(h, t)
    ensures Consistent(h, Rebuilt(t))
  {
    RebuiltIndexed(h, t);
    RebuiltNew(h, t, Rebuilt(t));
    RebuiltTried(h, t, Rebuilt(t));
    RebuiltCounted(h, t);
  }

  lemma RebuiltCounted(h: Hasher, t: Tables)
    requires Consistent(h, t)
    ensures Counted(Rebuilt(t), 0)
  {
    ListsComplete(h, t);
    var r := Rebuilt(t);
    forall k | 0 <= k < |Order(t)| ensures r.mapInfo[k].fInTried <==> k >= t.nNew { RenameOfOrder(h, t, k); }
    IntervalSize(t.nNew, |Order(t)|, TriedIds(r));
    IntervalSize(0, t.nNew, NewIds(r));
  }

  // ----- Reading back, step by step -----

  /** The entry read back under id k, without references yet. */
  ghost function Half(t: Tables, k: int): AddrInfo
    requires 0 <= k < |Order(t)|
  {
    t.mapInfo[Order(t)[k]].(nLastTry := 0, nRandomPos := k, nRefCount := 0)
  }

  ghost function RenamedBelow(t: Tables, table: map<Slot, int>, n: int): map<Slot, int> {
    map sl | sl in table && Rename(t, table[sl]) < n :: Rename(t, table[sl])
  }

  /** The state after the first n records. */
  ghost function Partial(t: Tables, n: int, nIdCount: int): Tables
    requires 0 <= n <= |Order(t)|
  {
    Tables(t.nKey, nIdCount,
           map k | 0 <= k < n :: Half(t, k),
           map a | a in t.mapAddr && Rename(t, t.mapAddr[a]) < n :: Rename(t, t.mapAddr[a]),
           seq(n, i => i),
           t.nTried, RenamedBelow(t, t.vvTried, n), t.nNew, map[])
  }

  /** Reading record n. */
  lemma PartialStep(h: Hasher, t: Tables, n: int, nIdCount: int)
    requires Consistent(h, t) && 0 <= n < |Order(t)|
    ensures var p, q, net := Partial(t, n, nIdCount), Partial(t, n + 1, nIdCount), Half(t, n).Net();
      && q.mapInfo == p.mapInfo[n := Half(t, n)]
      && q.mapAddr == p.mapAddr[net := n]
      && q.vRandom == p.vRandom + [n]
  {
    RenameOfOrder(h, t, n);
    var id := Order(t)[n];
    assert EntryIndexed(t, id);
    forall a | a in t.mapAddr ensures Rename(t, t.mapAddr[a]) == n <==> a == t.mapInfo[id].Net() {
      assert AddrIndexed(t, a);
      var k := t.mapAddr[a];
      OrderOfRename(h, t, k);
    }
  }

  /** The tried slot of record n: none for a new entry, its hashed slot, still free, for a
      tried one. */
  lemma PartialTried(h: Hasher, t: Tables, n: int)
    requires Consistent(h, t) && 0 <= n < |Order(t)|
    ensures n < t.nNew ==> RenamedBelow(t, t.vvTried, n + 1) == RenamedBelow(t, t.vvTried, n)
    ensures n >= t.nNew ==>
      var sl := h.TriedSlot(t.nKey, Half(t, n).addr.service);
      && Half(t, n).fInTried
      && sl !in RenamedBelow(t, t.vvTried, n)
      && RenamedBelow(t, t.vvTried, n + 1) == RenamedBelow(t, t.vvTried, n)[sl := n]
    ensures n < t.nNew ==> !Half(t, n).fInTried
  {
    RenameOfOrder(h, t, n);
    var id := Order(t)[n];
    if n >= t.nNew { assert id in TriedIds(t) && TriedEntryOk(h, t, id); }
    forall sl | sl in t.vvTried
      ensures Rename(t, t.vvTried[sl]) == n ==> n >= t.nNew && sl == h.TriedSlot(t.nKey, Half(t, n).addr.service)
    {
      assert TriedSlotOk(h, t, sl);
      var k := t.vvTried[sl];
      OrderOfRename(h, t, k);
    }
  }

  /** The state after the references in slots before (b, i). */
  ghost function Filled(t: Tables, b: int, i: int): Tables {
    Partial(t, |Order(t)|, |Order(t)|).(
      mapInfo := FilledCounts(t, b, i),
      vvNew := map sl | sl in t.vvNew && Before(sl, b, i) :: Rename(t, t.vvNew[sl]))
  }

  lemma FilledStart(h: Hasher, t: Tables)
    requires Consistent(h, t)
    ensures Filled(t, 0, 0) == Partial(t, |Order(t)|, |Order(t)|)
  {
    forall k | 0 <= k < |Order(t)| ensures Seen(t.vvNew, Order(t)[k], 0, 0) == {} { }
  }

  /** After the last bucket the manager is rebuilt. */
  lemma FilledEnd(h: Hasher, t: Tables)
    requires Consistent(h, t)
    ensures Filled(t, NEW_BUCKET_COUNT, 0) == Rebuilt(t)
  {
    FilledInfo(h, t);
    FilledMaps(h, t);
  }

  lemma FilledCount(h: Hasher, t: Tables, n: int)
    requires Consistent(h, t) && n in t.mapInfo
    ensures t.mapInfo[n].nRefCount == |Seen(t.vvNew, n, NEW_BUCKET_COUNT, 0)|
  {
    forall sl | sl in t.vvNew ensures sl.bucket < NEW_BUCKET_COUNT { assert NewSlotOk(h, t, sl); }
    SeenAll(t.vvNew, n, NEW_BUCKET_COUNT);
    RefsOfEntry(h, t, n);
  }

  lemma FilledInfo(h: Hasher, t: Tables)
    requires Consistent(h, t)
    ensures FilledCounts(t, NEW_BUCKET_COUNT, 0) == Rebuilt(t).mapInfo
  {
    forall k | 0 <= k < |Order(t)|
      ensures Half(t, k).(nRefCount := |Seen(t.vvNew, Order(t)[k], NEW_BUCKET_COUNT, 0)|) == t.mapInfo[Order(t)[k]].(nLastTry := 0, nRandomPos := k)
    {
      FilledCount(h, t, Order(t)[k]);
    }
  }

  lemma FilledMaps(h: Hasher, t: Tables)
    requires Consistent(h, t)
    ensures var f, r := Filled(t, NEW_BUCKET_COUNT, 0), Rebuilt(t);
      r.vvTried == f.vvTried && r.mapAddr == f.mapAddr && r.vvNew == f.vvNew
  {
    AllTried(h, t);
    AllAddrs(h, t);
    forall sl | sl in t.vvNew ensures Before(sl, NEW_BUCKET_COUNT, 0) { assert NewSlotOk(h, t, sl); }
  }

  lemma AllTried(h: Hasher, t: Tables)
    requires Consistent(h, t)
    ensures RenamedBelow(t, t.vvTried, |Order(t)|) == Renamed(t, t.vvTried)
  {
    forall sl | sl in t.vvTried ensures Rename(t, t.vvTried[sl]) < |Order(t)| {
      assert TriedSlotOk(h, t, sl);
      var n := t.vvTried[sl];
      OrderOfRename(h, t, n);
    }
  }

  lemma AllAddrs(h: Hasher, t: Tables)
    requires Consistent(h, t)
    ensures forall a | a in t.mapAddr :: Rename(t, t.mapAddr[a]) < |Order(t)|
  {
    forall a | a in t.mapAddr ensures Rename(t, t.mapAddr[a]) < |Order(t)| {
      assert AddrIndexed(t, a);
      var n := t.mapAddr[a];
      OrderOfRename(h, t, n);
    }
  }

  /** The reference counts after the slots before (b, i). */
  ghost function FilledCounts(t: Tables, b: int, i: int): map<int, AddrInfo> {
    map k | 0 <= k < |Order(t)| :: Half(t, k).(nRefCount := |Seen(t.vvNew, Order(t)[k], b, i)|)
  }

  lemma SameCounts(t: Tables, b: int, i: int, c: int, j: int)
    requires forall k | 0 <= k < |Order(t)| :: Seen(t.vvNew, Order(t)[k], c, j) == Seen(t.vvNew, Order(t)[k], b, i)
    ensures FilledCounts(t, c, j) == FilledCounts(t, b, i)
  {
  }

  lemma FilledSkip(t: Tables, b: nat, i: nat)
    requires Slot(b, i) !in t.vvNew
    ensures Filled(t, b, i + 1) == Filled(t, b, i)
  {
    forall k | 0 <= k < |Order(t)| ensures Seen(t.vvNew, Order(t)[k], b, i + 1) == Seen(t.vvNew, Order(t)[k], b, i) {
      SeenStep(t.vvNew, Order(t)[k], b, i);
    }
    SameCounts(t, b, i, b, i + 1);
  }

  lemma FilledRow(h: Hasher, t: Tables, b: nat)
    requires Consistent(h, t)
    ensures Filled(t, b + 1, 0) == Filled(t, b, BUCKET_SIZE)
  {
    forall sl | sl in t.vvNew ensures sl.pos < BUCKET_SIZE { assert NewSlotOk(h, t, sl); }
    forall k | 0 <= k < |Order(t)| ensures Seen(t.vvNew, Order(t)[k], b + 1, 0) == Seen(t.vvNew, Order(t)[k], b, BUCKET_SIZE) {
      SeenRow(t.vvNew, Order(t)[k], b, BUCKET_SIZE);
    }
    SameCounts(t, b, BUCKET_SIZE, b + 1, 0);
  }

  /** The reference in slot (b, i) is given back to its entry: the slot is where the entry
      hashes to, still free, and the entry has fewer than 8 references. */
  lemma FilledTake(h: Hasher, t: Tables, b: nat, i: nat)
    requires Consistent(h, t) && Slot(b, i) in t.vvNew
    ensures var f, k := Filled(t, b, i), |Ids(t, t.vvNew[Slot(b, i)], false)|;
      && 0 <= k < t.nNew && k in f.mapInfo && Slot(b, i) !in f.vvNew
      && f.mapInfo[k].nRefCount < NEW_BUCKETS_PER_ADDRESS
      && i == h.Position(f.nKey, true, b, f.mapInfo[k].addr.service)
      && Filled(t, b, i + 1) == Link(f, Slot(b, i), k)
  {
    var sl := Slot(b, i);
    assert NewSlotOk(h, t, sl);
    var n := t.vvNew[sl];
    assert n in NewIds(t) && NewEntryOk(t, n, {});
    OrderOfRename(h, t, n);
    assert sl !in Seen(t.vvNew, n, b, i);
    SeenStep(t.vvNew, n, b, i);
    SeenLess(t.vvNew, n, b, i + 1);
    TakeInfo(h, t, b, i);
    TakeSlot(t, b, i);
  }

  lemma SeenLess(table: map<Slot, int>, n: int, b: nat, i: nat)
    ensures |Seen(table, n, b, i)| <= |Refs(table, n)|
  {
    var part, whole := Seen(table, n, b, i), Refs(table, n);
    assert whole == part + (whole - part);
  }

  lemma SeenMore(h: Hasher, t: Tables, b: nat, i: nat, n: int, j: int)
    requires Consistent(h, t) && Slot(b, i) in t.vvNew && t.vvNew[Slot(b, i)] == n && n in t.mapInfo && 0 <= j < |Order(t)|
    ensures |Seen(t.vvNew, Order(t)[j], b, i + 1)| == |Seen(t.vvNew, Order(t)[j], b, i)| + if j == Rename(t, n) then 1 else 0
  {
    OrderOfRename(h, t, n);
    RenameOfOrder(h, t, j);
    SeenStep(t.vvNew, Order(t)[j], b, i);
    assert Slot(b, i) !in Seen(t.vvNew, Order(t)[j], b, i);
  }

  lemma OneMore(f: map<int, AddrInfo>, g: map<int, AddrInfo>, k: int)
    requires k in f && g.Keys == f.Keys
    requires forall j | j in f :: g[j] == if j == k then f[j].(nRefCount := f[j].nRefCount + 1) else f[j]
    ensures g == f[k := f[k].(nRefCount := f[k].nRefCount + 1)]
  {
  }

  lemma TakeInfo(h: Hasher, t: Tables, b: nat, i: nat)
    requires Consistent(h, t) && Slot(b, i) in t.vvNew && t.vvNew[Slot(b, i)] in NewIds(t)
    ensures var f, k := Filled(t, b, i), |Ids(t, t.vvNew[Slot(b, i)], false)|;
      k in f.mapInfo && Filled(t, b, i + 1).mapInfo == f.mapInfo[k := f.mapInfo[k].(nRefCount := f.mapInfo[k].nRefCount + 1)]
  {
    var n := t.vvNew[Slot(b, i)];
    OrderOfRename(h, t, n);
    var f, g, k := FilledCounts(t, b, i), FilledCounts(t, b, i + 1), Rename(t, n);
    forall j | j in f ensures g[j] == if j == k then f[j].(nRefCount := f[j].nRefCount + 1) else f[j] {
      SeenMore(h, t, b, i, n, j);
    }
    OneMore(f, g, k);
  }

  lemma TakeSlot(t: Tables, b: nat, i: nat)
    requires Slot(b, i) in t.vvNew && t.vvNew[Slot(b, i)] in NewIds(t)
    ensures Filled(t, b, i + 1).vvNew == Filled(t, b, i).vvNew[Slot(b, i) := |Ids(t, t.vvNew[Slot(b, i)], false)|]
  {
    forall sl: Slot ensures Before(sl, b, i + 1) <==> Before(sl, b, i) || sl == Slot(b, i) { }
  }

  lemma {:induction false} RowPrefix(t: Tables, b: nat, i: nat, j: nat)
    requires i <= j
    ensures Row(t, b, i) <= Row(t, b, j)
  {
    if i < j { RowPrefix(t, b, i, j - 1); }
  }

  lemma RowHere(t: Tables, b: nat, i: nat)
    requires i < BUCKET_SIZE && Slot(b, i) in t.vvNew
    ensures var row, j := Row(t, b, BUCKET_SIZE), |Row(t, b, i)|;
      |Row(t, b, i + 1)| == j + 1 && j < |row| && row[j] == |Ids(t, t.vvNew[Slot(b, i)], false)|
  {
    RowPrefix(t, b, i + 1, BUCKET_SIZE);
    assert Row(t, b, i + 1) == Row(t, b, i) + [|Ids(t, t.vvNew[Slot(b, i)], false)|];
  }

  lemma RowSkip(t: Tables, b: nat, i: nat)
    requires Slot(b, i) !in t.vvNew
    ensures Row(t, b, i + 1) == Row(t, b, i)
  {
  }

  /** The next index of a row belongs to the next occupied slot of its bucket. */
  lemma NextOccupied(t: Tables, b: nat, i: nat, f: Tables) returns (next: nat)
    requires i <= BUCKET_SIZE && |Row(t, b, i)| < |Row(t, b, BUCKET_SIZE)| && f == Filled(t, b, i)
    ensures i <= next < BUCKET_SIZE && Slot(b, next) in t.vvNew && Filled(t, b, next) == f
    ensures |Row(t, b, next + 1)| == |Row(t, b, i)| + 1
    ensures Row(t, b, BUCKET_SIZE)[|Row(t, b, i)|] == |Ids(t, t.vvNew[Slot(b, next)], false)|
    decreases BUCKET_SIZE - i
  {
    if Slot(b, i) in t.vvNew {
      next := i;
      RowHere(t, b, i);
    } else {
      FilledSkip(t, b, i);
      RowSkip(t, b, i);
      next := NextOccupied(t, b, i + 1, f);
    }
  }

  /** At the end of a row no slot of its bucket is left. */
  lemma RowDone(t: Tables, b: nat, i: nat)
    requires i <= BUCKET_SIZE && |Row(t, b, i)| == |Row(t, b, BUCKET_SIZE)|
    ensures Filled(t, b, BUCKET_SIZE) == Filled(t, b, i)
    decreases BUCKET_SIZE - i
  {
    if i < BUCKET_SIZE {
      RowPrefix(t, b, i + 1, BUCKET_SIZE);
      FilledSkip(t, b, i);
      assert Row(t, b, i + 1) == Row(t, b, i);
      RowDone(t, b, i + 1);
    }
  }

  lemma RefsOfEntry(h: Hasher, t: Tables, n: int)
    requires Consistent(h, t) && n in t.mapInfo
    ensures t.mapInfo[n].nRefCount == |Refs(t.vvNew, n)|
  {
    if n in NewIds(t) {
      assert NewEntryOk(t, n, {});
    } else {
      assert n in TriedIds(t) && TriedEntryOk(h, t, n);
      forall sl | sl in t.vvNew ensures t.vvNew[sl] != n { assert NewSlotOk(h, t, sl); }
      assert Refs(t.vvNew, n) == {};
    }
  }

  lemma RevivedHalf(h: Hasher, t: Tables, n: int)
    requires Consistent(h, t) && 0 <= n < |Order(t)|
    ensures Half(t, n) == Revived(RecordOf(t.mapInfo[Order(t)[n]]), n).(fInTried := n >= t.nNew)
  {
    RenameOfOrder(h, t, n);
  }
}
