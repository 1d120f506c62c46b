/** Writing an address manager to its file and reading it into a fresh one
    (CAddrMan::Serialize, Unserialize and Clear, src/addrman.h). */
module AddrFiles {
  import opened AddrTables
  import opened AddrUpdates
  import opened AddrRuns
  import opened AddrManagers
  import opened AddrDumps

  // ----- Serialize -----

  /** The record numbers of the ids below k. */
  ghost function Numbers(t: Tables, k: int): map<int, int> {
    map n | n in t.mapInfo && n < k :: |Ids(t, n, false)|
  }

  lemma NumbersStep(t: Tables, k: int)
    ensures Numbers(t, k + 1) == if k in t.mapInfo then Numbers(t, k)[k := |Ids(t, k, false)|] else Numbers(t, k)
  {
  }

  /** The first loop over mapInfo: the records of the new table and their numbers. */
  method WriteNew(m: AddrMan) returns (records: seq<Record>, mapUnkIds: map<int, int>)
    requires m.Valid()
    ensures records == Records(m.State(), Ids(m.State(), m.nIdCount, false))
    ensures mapUnkIds == Numbers(m.State(), m.nIdCount)
  {
    ghost var t := m.State();
    ListsComplete(m.h, t);
    records, mapUnkIds := [], map[];
    assert Numbers(t, 0) == map[] by { assert forall n | n in t.mapInfo :: n >= 0; }
    var nIds := 0;
    for n := 0 to m.nIdCount
      invariant nIds == |records| && records == Records(t, Ids(t, n, false))
      invariant mapUnkIds == Numbers(t, n)
    {
      NumbersStep(t, n);
      if n in m.mapInfo {
        mapUnkIds := mapUnkIds[n := nIds];
        if m.mapInfo[n].nRefCount != 0 {
          IdsIndex(t, t.nIdCount, false, n);
          assert nIds != m.nNew;
          records := records + [RecordOf(m.mapInfo[n])];
          nIds := nIds + 1;
        }
      }
    }
  }

  method WriteTried(m: AddrMan) returns (records: seq<Record>)
    requires m.Valid()
    ensures records == Records(m.State(), Ids(m.State(), m.nIdCount, true))
  {
    ghost var t := m.State();
    ListsComplete(m.h, t);
    records := [];
    var nIds := 0;
    for n := 0 to m.nIdCount
      invariant nIds == |records| && records == Records(t, Ids(t, n, true))
    {
      if n in m.mapInfo && m.mapInfo[n].fInTried {
        IdsIndex(t, t.nIdCount, true, n);
        assert nIds != m.nTried;
        records := records + [RecordOf(m.mapInfo[n])];
        nIds := nIds + 1;
      }
    }
  }

  method WriteRow(m: AddrMan, bucket: nat, mapUnkIds: map<int, int>) returns (row: seq<int>)
    requires m.Valid() && bucket < NEW_BUCKET_COUNT
    requires mapUnkIds == Numbers(m.State(), m.nIdCount)
    ensures row == Row(m.State(), bucket, BUCKET_SIZE)
  {
    ghost var t := m.State();
    row := [];
    for i := 0 to BUCKET_SIZE
      invariant row == Row(t, bucket, i)
    {
      if m.vvNew[bucket, i] != -1 {
        assert NewSlotOk(m.h, t, Slot(bucket, i));
        assert EntryIndexed(t, m.vvNew[bucket, i]);
        row := row + [mapUnkIds[m.vvNew[bucket, i]]];
      }
    }
  }

  method WriteBuckets(m: AddrMan, mapUnkIds: map<int, int>) returns (buckets: seq<seq<int>>)
    requires m.Valid() && mapUnkIds == Numbers(m.State(), m.nIdCount)
    ensures |buckets| == NEW_BUCKET_COUNT
    ensures forall b | 0 <= b < NEW_BUCKET_COUNT :: buckets[b] == Row(m.State(), b, BUCKET_SIZE)
  {
    ghost var t := m.State();
    buckets := [];
    for bucket := 0 to NEW_BUCKET_COUNT
      invariant |buckets| == bucket
      invariant forall b | 0 <= b < bucket :: buckets[b] == Row(t, b, BUCKET_SIZE)
    {
      var row := WriteRow(m, bucket, mapUnkIds);
      buckets := buckets + [row];
    }
  }

  method Serialize(m: AddrMan) returns (d: Dump)
    requires m.Valid()
    ensures d == Written(m.State())
  {
    var newRecords, mapUnkIds := WriteNew(m);
    var triedRecords := WriteTried(m);
    var buckets := WriteBuckets(m, mapUnkIds);
    d := Dump(1, 32, m.nKey, m.nNew, m.nTried, FlipBit30(NEW_BUCKET_COUNT), newRecords, triedRecords, buckets);
  }

  // ----- Unserialize -----

  /** The first n elements, none if n is negative, all if there are fewer. */
  function Upto<T>(s: seq<T>, n: int): seq<T> {
    if n <= 0 then [] else if n < |s| then s[..n] else s
  }

  /** vRandom and the positions in it are inverse. This much holds whatever the file says. */
  ghost predicate Placed(t: Tables) {
    && (forall n | n in t.mapInfo ::
          0 <= t.mapInfo[n].nRandomPos < |t.vRandom| && t.vRandom[t.mapInfo[n].nRandomPos] == n)
    && (forall i {:trigger PlaceIndexed(t, i)} | 0 <= i < |t.vRandom| :: PlaceIndexed(t, i))
  }

  /** Adding an entry at the end of vRandom. */
  lemma PlaceLast(t: Tables, s: Tables, n: int, info: AddrInfo)
    requires Placed(t) && n !in t.mapInfo && info.nRandomPos == |t.vRandom|
    requires s.mapInfo == t.mapInfo[n := info] && s.vRandom == t.vRandom + [n]
    ensures Placed(s)
  {
    forall i | 0 <= i < |s.vRandom| ensures PlaceIndexed(s, i) {
      if i < |t.vRandom| { assert PlaceIndexed(t, i); }
    }
  }

  /** Changing an entry but not its place. */
  lemma PlaceSame(t: Tables, s: Tables, n: int)
    requires Placed(t) && n in t.mapInfo && n in s.mapInfo && s.vRandom == t.vRandom
    requires s.mapInfo == t.mapInfo[n := s.mapInfo[n]] && s.mapInfo[n].nRandomPos == t.mapInfo[n].nRandomPos
    ensures Placed(s)
  {
    forall i | 0 <= i < |s.vRandom| ensures PlaceIndexed(s, i) { assert PlaceIndexed(t, i); }
  }

  /** The part of the state that reading records does not touch. */
  ghost predicate SameHead(t: Tables, s: Tables) {
    s.nKey == t.nKey && s.nNew == t.nNew && s.nTried == t.nTried
  }

  /** Take a record of the new table in as entry n. If the saved placement cannot be used,
      the entry is placed by its own source at once. */
  function Welcome(h: Hasher, t: Tables, n: int, r: Record, usable: bool): Tables {
    var s := t.(mapInfo := t.mapInfo[n := Revived(r, |t.vRandom|)],
                mapAddr := t.mapAddr[r.addr.service.net := n],
                vRandom := t.vRandom + [n]);
    var sl := h.NewSlot(t.nKey, r.addr.service, r.source);
    if usable || sl in t.vvNew then s else Link(s, sl, n)
  }

  function WelcomeAll(h: Hasher, t: Tables, rs: seq<Record>, usable: bool): Tables {
    if rs == [] then t else
      Welcome(h, WelcomeAll(h, t, rs[..|rs| - 1], usable), |rs| - 1, rs[|rs| - 1], usable)
  }

  method ReadNewRecord(m: AddrMan, n: int, r: Record, usable: bool)
    requires m.Shaped() && n >= 0
    modifies m, m.vvNew
    ensures m.State() == Welcome(m.h, old(m.State()), n, r, usable)
  {
    m.mapInfo := m.mapInfo[n := Revived(r, |m.vRandom|)];
    m.mapAddr := m.mapAddr[r.addr.service.net := n];
    m.vRandom := m.vRandom + [n];
    if !usable {
      var nUBucket := m.h.NewBucket(m.nKey, r.addr.service, r.source);
      var nUBucketPos := m.h.Position(m.nKey, true, nUBucket, r.addr.service);
      if m.vvNew[nUBucket, nUBucketPos] == -1 {
        m.LinkEntry(nUBucket, nUBucketPos, n);
      }
    }
  }

  lemma WelcomeAllStep(h: Hasher, t: Tables, rs: seq<Record>, n: nat, n': nat, usable: bool, s: Tables)
    requires n < |rs| && n' == n + 1 && WelcomeAll(h, t, rs[..n], usable) == s
    ensures WelcomeAll(h, t, rs[..n'], usable) == Welcome(h, s, n, rs[n], usable)
  {
    assert rs[..n'][..n] == rs[..n];
  }

  method ReadNew(m: AddrMan, records: seq<Record>, nNew: int, usable: bool) returns (ok: bool)
    requires m.Shaped()
    modifies m, m.vvNew
    ensures ok <==> nNew <= |records|
    ensures ok ==> m.State() == WelcomeAll(m.h, old(m.State()), Upto(records, nNew), usable)
  {
    ghost var t := m.State();
    var n := 0;
    while n < nNew
      invariant 0 <= n <= |records| && (n <= nNew || n == 0)
      invariant m.State() == WelcomeAll(m.h, t, records[..n], usable)
    {
      if n >= |records| { return false; }
      ghost var n' := n + 1;
      WelcomeAllStep(m.h, t, records, n, n', usable, m.State());
      ReadNewRecord(m, n, records[n], usable);
      n := n + 1;
      assert n == n';
    }
    assert records[..n] == Upto(records, nNew);
    ok := true;
  }

  /** The ids 0 to n - 1 are taken, and no others. */
  ghost predicate Numbered(t: Tables, n: int) {
    forall k :: k in t.mapInfo <==> 0 <= k < n
  }

  lemma {:induction false} WelcomeAllKeeps(h: Hasher, t: Tables, rs: seq<Record>, usable: bool)
    requires Placed(t) && Numbered(t, 0)
    ensures var s := WelcomeAll(h, t, rs, usable); Placed(s) && Numbered(s, |rs|) && SameHead(t, s) && s.nIdCount == t.nIdCount
  {
    if rs != [] {
      var n := |rs| - 1;
      WelcomeAllKeeps(h, t, rs[..n], usable);
      WelcomeKeeps(h, WelcomeAll(h, t, rs[..n], usable), n, rs[n], usable);
    }
  }

  lemma WelcomeKeeps(h: Hasher, t: Tables, n: int, r: Record, usable: bool)
    requires Placed(t) && n !in t.mapInfo
    ensures var s := Welcome(h, t, n, r, usable); Placed(s) && s.mapInfo.Keys == t.mapInfo.Keys + {n} && SameHead(t, s)
  {
    var s := Welcome(h, t, n, r, true);
    PlaceLast(t, s, n, s.mapInfo[n]);
    PlaceSame(s, Welcome(h, t, n, r, usable), n);
  }

  /** Take a record into the tried table, unless its slot is occupied. Ids start at the count of
      new entries the file claims; a slot with id -1 in it is taken for a free one. */
  function Admit(h: Hasher, t: Tables, r: Record): Tables {
    var sl := h.TriedSlot(t.nKey, r.addr.service);
    if sl in t.vvTried then t else
      t.(nIdCount := t.nIdCount + 1,
         mapInfo := t.mapInfo[t.nIdCount := Revived(r, |t.vRandom|).(fInTried := true)],
         mapAddr := t.mapAddr[r.addr.service.net := t.nIdCount],
         vRandom := t.vRandom + [t.nIdCount],
         vvTried := if t.nIdCount == -1 then t.vvTried else t.vvTried[sl := t.nIdCount])
  }

  /** Ids are handed out in ascending order. */
  ghost predicate Ascending(t: Tables) {
    forall k | k in t.mapInfo :: k < t.nIdCount
  }

  lemma AdmitKeeps(h: Hasher, t: Tables, r: Record)
    requires Placed(t) && Ascending(t)
    ensures var s := Admit(h, t, r); Placed(s) && Ascending(s) && SameHead(t, s) && t.mapInfo.Keys <= s.mapInfo.Keys
  {
    var s := Admit(h, t, r);
    if h.TriedSlot(t.nKey, r.addr.service) !in t.vvTried {
      PlaceLast(t, s, t.nIdCount, s.mapInfo[t.nIdCount]);
    }
  }

  method ReadTriedRecord(m: AddrMan, r: Record) returns (lost: bool)
    requires m.Shaped()
    modifies m, m.vvTried
    ensures m.State() == Admit(m.h, old(m.State()), r)
    ensures lost <==> m.h.TriedSlot(m.nKey, r.addr.service) in old(m.State()).vvTried
  {
    var nKBucket := m.h.TriedBucket(m.nKey, r.addr.service);
    var nKBucketPos := m.h.Position(m.nKey, false, nKBucket, r.addr.service);
    lost := m.vvTried[nKBucket, nKBucketPos] != -1;
    if !lost {
      var info := Revived(r, |m.vRandom|).(fInTried := true);
      m.vRandom := m.vRandom + [m.nIdCount];
      m.mapInfo := m.mapInfo[m.nIdCount := info];
      m.mapAddr := m.mapAddr[r.addr.service.net := m.nIdCount];
      Put(m.vvTried, nKBucket, nKBucketPos, m.nIdCount);
      m.nIdCount := m.nIdCount + 1;
    }
  }

  /** Record k finds its tried slot free, and its entry comes back under id k. */
  lemma AdmitPartial(h: Hasher, t: Tables, k: int)
    requires Consistent(h, t) && 0 <= k < |Order(t)| && k >= t.nNew
    ensures var r := RecordOf(t.mapInfo[Order(t)[k]]);
      && h.TriedSlot(t.nKey, r.addr.service) !in Partial(t, k, k).vvTried
      && Partial(t, k + 1, k + 1) == Admit(h, Partial(t, k, k), r)
  {
    PartialStep(h, t, k, k);
    PartialTried(h, t, k);
    RevivedHalf(h, t, k);
  }

  /** Take records into the tried table in order; the number refused for want of a slot. */
  function AdmitAll(h: Hasher, t: Tables, rs: seq<Record>): (Tables, nat) {
    if rs == [] then (t, 0) else
      var (s, lost) := AdmitAll(h, t, rs[..|rs| - 1]);
      var r := rs[|rs| - 1];
      (Admit(h, s, r), if h.TriedSlot(s.nKey, r.addr.service) in s.vvTried then lost + 1 else lost)
  }

  lemma {:induction false} AdmitAllKeeps(h: Hasher, t: Tables, rs: seq<Record>)
    requires Placed(t) && Ascending(t)
    ensures var s := AdmitAll(h, t, rs).0; Placed(s) && Ascending(s) && SameHead(t, s) && t.mapInfo.Keys <= s.mapInfo.Keys
  {
    if rs != [] {
      AdmitAllKeeps(h, t, rs[..|rs| - 1]);
      AdmitKeeps(h, AdmitAll(h, t, rs[..|rs| - 1]).0, rs[|rs| - 1]);
    }
  }

  /** One more record that finds its slot free. */
  lemma AdmitNext(h: Hasher, p: Tables, rs: seq<Record>, n: nat, s: Tables, q: Tables)
    requires n < |rs| && AdmitAll(h, p, rs[..n]) == (s, 0) && q == Admit(h, s, rs[n])
    requires h.TriedSlot(s.nKey, rs[n].addr.service) !in s.vvTried
    ensures AdmitAll(h, p, rs[..n + 1]) == (q, 0)
  {
    assert rs[..n + 1][..n] == rs[..n];
  }

  lemma OrderTried(h: Hasher, t: Tables, i: nat)
    requires Consistent(h, t) && i <= |Ids(t, t.nIdCount, true)|
    ensures t.nNew >= 0 && t.nNew + |Ids(t, t.nIdCount, true)| == |Order(t)|
    ensures i < |Ids(t, t.nIdCount, true)| ==> Order(t)[t.nNew + i] == Ids(t, t.nIdCount, true)[i]
  {
    ListsComplete(h, t);
  }

  /** Record i, under id k, finds its slot free. */
  lemma AdmitAt(h: Hasher, t: Tables, rs: seq<Record>, i: nat, k: int, k': int)
    requires Consistent(h, t) && rs == Records(t, Ids(t, t.nIdCount, true)) && i < |rs|
    requires 0 <= t.nNew && t.nNew + |rs| == |Order(t)| && k == t.nNew + i && k' == k + 1
    ensures h.TriedSlot(t.nKey, rs[i].addr.service) !in Partial(t, k, k).vvTried
    ensures Partial(t, k', k') == Admit(h, Partial(t, k, k), rs[i])
  {
    OrderTried(h, t, i);
    var r := RecordOf(t.mapInfo[Order(t)[k]]);
    assert rs[i] == r;
    AdmitPartial(h, t, k);
  }

  lemma ReadsNext(h: Hasher, t: Tables, rs: seq<Record>, n: nat, start: int, k: int, k': int)
    requires Consistent(h, t) && rs == Records(t, Ids(t, t.nIdCount, true)) && n < |rs|
    requires 0 <= t.nNew == start && t.nNew + |rs| == |Order(t)| && k == start + n && k' == k + 1
    requires AdmitAll(h, Partial(t, start, start), rs[..n]) == (Partial(t, k, k), 0)
    ensures AdmitAll(h, Partial(t, start, start), rs[..n + 1]) == (Partial(t, k', k'), 0)
  {
    AdmitAt(h, t, rs, n, k, k');
    AdmitNext(h, Partial(t, start, start), rs, n, Partial(t, k, k), Partial(t, k', k'));
  }

  /** Reading the tried records a consistent manager wrote loses none of them. */
  lemma ReadsAll(h: Hasher, t: Tables, rs: seq<Record>, start: int, end: int)
    requires Consistent(h, t) && rs == Records(t, Ids(t, t.nIdCount, true))
    requires 0 <= t.nNew == start && end == |Order(t)| == start + |rs|
    ensures AdmitAll(h, Partial(t, start, start), rs) == (Partial(t, end, end), 0)
  {
    assert rs[..0] == [];
    var n, k := 0, start;
    while n < |rs|
      invariant n <= |rs| && k == start + n
      invariant AdmitAll(h, Partial(t, start, start), rs[..n]) == (Partial(t, k, k), 0)
    {
      var k' := k + 1;
      ReadsNext(h, t, rs, n, start, k, k');
      n, k := n + 1, k';
    }
    assert rs[..n] == rs;
  }

  lemma AdmitAllStep(h: Hasher, t: Tables, rs: seq<Record>, n: nat, n': nat, s: Tables, lost: nat)
    requires n < |rs| && n' == n + 1 && AdmitAll(h, t, rs[..n]) == (s, lost)
    ensures AdmitAll(h, t, rs[..n']) ==
      (Admit(h, s, rs[n]), if h.TriedSlot(s.nKey, rs[n].addr.service) in s.vvTried then lost + 1 else lost)
  {
    assert rs[..n'][..n] == rs[..n];
  }

  method ReadTriedRecords(m: AddrMan, records: seq<Record>, nTried: int) returns (ok: bool, nLost: nat)
    requires m.Shaped()
    modifies m, m.vvTried
    ensures ok <==> nTried <= |records|
    ensures ok ==> (m.State(), nLost) == AdmitAll(m.h, old(m.State()), Upto(records, nTried))
  {
    ghost var t := m.State();
    var n := 0;
    nLost := 0;
    while n < nTried
      invariant 0 <= n <= |records| && (n <= nTried || n == 0)
      invariant (m.State(), nLost) == AdmitAll(m.h, t, records[..n])
    {
      if n >= |records| { return false, nLost; }
      ghost var n' := n + 1;
      AdmitAllStep(m.h, t, records, n, n', m.State(), nLost);
      var lost := ReadTriedRecord(m, records[n]);
      if lost { nLost := nLost + 1; }
      n := n + 1;
      assert n == n';
    }
    assert records[..n] == Upto(records, nTried);
    ok := true;
  }

  /** The state and the count of tried entries after the tried records. */
  function Tried(h: Hasher, t: Tables, rs: seq<Record>): Tables {
    var (s, lost) := AdmitAll(h, t.(nIdCount := t.nNew), rs);
    s.(nTried := s.nTried - lost)
  }

  method ReadTried(m: AddrMan, records: seq<Record>, nTried: int) returns (ok: bool)
    requires m.Shaped()
    modifies m, m.vvTried
    ensures ok <==> nTried <= |records|
    ensures ok ==> m.State() == Tried(m.h, old(m.State()), Upto(records, nTried))
  {
    m.nIdCount := m.nNew;
    var nLost;
    ok, nLost := ReadTriedRecords(m, records, nTried);
    m.nTried := m.nTried - nLost;
  }

  lemma PlaceEqual(t: Tables, s: Tables)
    requires Placed(t) && s.mapInfo == t.mapInfo && s.vRandom == t.vRandom
    ensures Placed(s)
  {
    forall i | 0 <= i < |s.vRandom| ensures PlaceIndexed(s, i) { assert PlaceIndexed(t, i); }
  }

  // ----- New records of a good file -----

  lemma WelcomeNext(h: Hasher, t: Tables, e: Tables, rs: seq<Record>, n: nat, n': nat)
    requires Consistent(h, t) && rs == Records(t, Ids(t, t.nIdCount, false)) && n < |rs| && n' == n + 1
    requires |rs| == t.nNew <= |Order(t)|
    requires WelcomeAll(h, e, rs[..n], true) == Partial(t, n, 0)
    ensures WelcomeAll(h, e, rs[..n'], true) == Partial(t, n', 0)
  {
    assert rs[..n'][..n] == rs[..n];
    var r := RecordOf(t.mapInfo[Order(t)[n]]);
    assert rs[n] == r;
    WelcomePartial(h, t, n, n');
  }

  lemma WelcomePartial(h: Hasher, t: Tables, n: nat, n': nat)
    requires Consistent(h, t) && n < t.nNew <= |Order(t)| && n' == n + 1
    ensures Welcome(h, Partial(t, n, 0), n, RecordOf(t.mapInfo[Order(t)[n]]), true) == Partial(t, n', 0)
  {
    PartialStep(h, t, n, 0);
    PartialTried(h, t, n);
    RevivedHalf(h, t, n);
  }

  /** Reading the new records a consistent manager wrote. */
  lemma WelcomesAll(h: Hasher, t: Tables, rs: seq<Record>, e: Tables)
    requires Consistent(h, t) && rs == Records(t, Ids(t, t.nIdCount, false))
    requires |rs| == t.nNew <= |Order(t)| && e == Partial(t, 0, 0)
    ensures WelcomeAll(h, e, rs, true) == Partial(t, t.nNew, 0)
  {
    assert rs[..0] == [];
    var n := 0;
    while n < |rs|
      invariant n <= |rs| && WelcomeAll(h, e, rs[..n], true) == Partial(t, n, 0)
    {
      var n' := n + 1;
      WelcomeNext(h, t, e, rs, n, n');
      n := n';
    }
    assert rs[..n] == rs;
  }

  lemma PartialStart(h: Hasher, t: Tables)
    requires Consistent(h, t)
    ensures Partial(t, 0, 0) == Empty(t.nKey).(nNew := t.nNew, nTried := t.nTried)
  {
    assert RenamedBelow(t, t.vvTried, 0) == map[];
  }

  // ----- The buckets -----

  /** Give entry number index its reference in a bucket, if the placement can be used, the
      slot it hashes to is free and it has fewer than 8 references. */
  function Restore(h: Hasher, t: Tables, b: nat, index: int, usable: bool): Tables {
    if !(0 <= index < t.nNew && index in t.mapInfo) then t else
      var sl := Slot(b, h.Position(t.nKey, true, b, t.mapInfo[index].addr.service));
      if usable && sl !in t.vvNew && t.mapInfo[index].nRefCount < NEW_BUCKETS_PER_ADDRESS then Link(t, sl, index) else t
  }

  function RestoreRow(h: Hasher, t: Tables, b: nat, row: seq<int>, usable: bool): Tables {
    if row == [] then t else Restore(h, RestoreRow(h, t, b, row[..|row| - 1], usable), b, row[|row| - 1], usable)
  }

  function RestoreAll(h: Hasher, t: Tables, rows: seq<seq<int>>, usable: bool): Tables {
    if rows == [] then t else
      RestoreRow(h, RestoreAll(h, t, rows[..|rows| - 1], usable), |rows| - 1, rows[|rows| - 1], usable)
  }

  ghost predicate Stocked(t: Tables) {
    Placed(t) && forall k | 0 <= k < t.nNew :: k in t.mapInfo
  }

  lemma RestoreKeeps(h: Hasher, t: Tables, b: nat, index: int, usable: bool)
    requires Stocked(t)
    ensures Stocked(Restore(h, t, b, index, usable)) && Restore(h, t, b, index, usable).nNew == t.nNew
  {
    if 0 <= index < t.nNew { PlaceSame(t, Restore(h, t, b, index, usable), index); }
  }

  lemma {:induction false} RestoreRowKeeps(h: Hasher, t: Tables, b: nat, row: seq<int>, usable: bool)
    requires Stocked(t)
    ensures Stocked(RestoreRow(h, t, b, row, usable)) && RestoreRow(h, t, b, row, usable).nNew == t.nNew
  {
    if row != [] {
      RestoreRowKeeps(h, t, b, row[..|row| - 1], usable);
      RestoreKeeps(h, RestoreRow(h, t, b, row[..|row| - 1], usable), b, row[|row| - 1], usable);
    }
  }

  lemma {:induction false} RestoreAllKeeps(h: Hasher, t: Tables, rows: seq<seq<int>>, usable: bool)
    requires Stocked(t)
    ensures Stocked(RestoreAll(h, t, rows, usable)) && RestoreAll(h, t, rows, usable).nNew == t.nNew
  {
    if rows != [] {
      RestoreAllKeeps(h, t, rows[..|rows| - 1], usable);
      RestoreRowKeeps(h, RestoreAll(h, t, rows[..|rows| - 1], usable), |rows| - 1, rows[|rows| - 1], usable);
    }
  }

  method ReadIndex(m: AddrMan, bucket: nat, nIndex: int, usable: bool)
    requires m.Shaped() && Stocked(m.State()) && (usable ==> bucket < NEW_BUCKET_COUNT)
    modifies m, m.vvNew
    ensures m.State() == Restore(m.h, old(m.State()), bucket, nIndex, usable)
  {
    if nIndex >= 0 && nIndex < m.nNew {
      var info := m.mapInfo[nIndex];
      var nUBucketPos := m.h.Position(m.nKey, true, bucket, info.addr.service);
      if usable && m.vvNew[bucket, nUBucketPos] == -1 && info.nRefCount < NEW_BUCKETS_PER_ADDRESS {
        m.LinkEntry(bucket, nUBucketPos, nIndex);
      }
    }
  }

  method ReadRow(m: AddrMan, bucket: nat, row: seq<int>, usable: bool)
    requires m.Shaped() && Stocked(m.State()) && (usable ==> bucket < NEW_BUCKET_COUNT)
    modifies m, m.vvNew
    ensures m.State() == RestoreRow(m.h, old(m.State()), bucket, row, usable)
  {
    ghost var t := m.State();
    for n := 0 to |row|
      invariant m.State() == RestoreRow(m.h, t, bucket, row[..n], usable)
    {
      RestoreRowKeeps(m.h, t, bucket, row[..n], usable);
      assert row[..n + 1][..n] == row[..n];
      ReadIndex(m, bucket, row[n], usable);
    }
    assert row[..|row|] == row;
  }

  method ReadBuckets(m: AddrMan, rows: seq<seq<int>>, nUBuckets: int, usable: bool) returns (ok: bool)
    requires m.Shaped() && Stocked(m.State()) && (usable ==> nUBuckets == NEW_BUCKET_COUNT)
    modifies m, m.vvNew
    ensures ok <==> nUBuckets <= |rows|
    ensures ok ==> m.State() == RestoreAll(m.h, old(m.State()), Upto(rows, nUBuckets), usable)
  {
    ghost var t := m.State();
    var bucket := 0;
    while bucket < nUBuckets
      invariant 0 <= bucket <= |rows| && (bucket <= nUBuckets || bucket == 0)
      invariant m.State() == RestoreAll(m.h, t, rows[..bucket], usable)
    {
      if bucket >= |rows| { return false; }
      RestoreAllKeeps(m.h, t, rows[..bucket], usable);
      assert rows[..bucket + 1][..bucket] == rows[..bucket];
      ReadRow(m, bucket, rows[bucket], usable);
      bucket := bucket + 1;
    }
    assert rows[..bucket] == Upto(rows, nUBuckets);
    ok := true;
  }

  // ----- The buckets of a good file -----

  /** Index j of a row puts back the reference in the next occupied slot. */
  lemma RestoreNext(h: Hasher, t: Tables, b: nat, i: nat, f: Tables) returns (i': nat)
    requires Consistent(h, t) && i <= BUCKET_SIZE && |Row(t, b, i)| < |Row(t, b, BUCKET_SIZE)| && f == Filled(t, b, i)
    ensures i' <= BUCKET_SIZE && |Row(t, b, i')| == |Row(t, b, i)| + 1
    ensures Restore(h, f, b, Row(t, b, BUCKET_SIZE)[|Row(t, b, i)|], true) == Filled(t, b, i')
  {
    var next := NextOccupied(t, b, i, f);
    FilledTake(h, t, b, next);
    i' := next + 1;
  }

  lemma RestoresRow(h: Hasher, t: Tables, b: nat, row: seq<int>, f: Tables)
    requires Consistent(h, t) && row == Row(t, b, BUCKET_SIZE) && f == Filled(t, b, 0)
    ensures RestoreRow(h, f, b, row, true) == Filled(t, b, BUCKET_SIZE)
  {
    assert row[..0] == [];
    var j: nat, i: nat := 0, 0;
    while j < |row|
      invariant j <= |row| && i <= BUCKET_SIZE && |Row(t, b, i)| == j
      invariant RestoreRow(h, f, b, row[..j], true) == Filled(t, b, i)
    {
      var i' := RestoreNext(h, t, b, i, Filled(t, b, i));
      assert row[..j + 1][..j] == row[..j];
      i, j := i', j + 1;
    }
    assert row[..j] == row;
    RowDone(t, b, i);
  }

  lemma RestoresNext(h: Hasher, t: Tables, rows: seq<seq<int>>, f: Tables, b: nat, b': nat)
    requires Consistent(h, t) && b < |rows| && b' == b + 1 && rows[b] == Row(t, b, BUCKET_SIZE)
    requires RestoreAll(h, f, rows[..b], true) == Filled(t, b, 0)
    ensures RestoreAll(h, f, rows[..b'], true) == Filled(t, b', 0)
  {
    RestoresRow(h, t, b, rows[b], Filled(t, b, 0));
    FilledRow(h, t, b);
    assert rows[..b'][..b] == rows[..b];
  }

  lemma RestoresAll(h: Hasher, t: Tables, rows: seq<seq<int>>, f: Tables)
    requires Consistent(h, t) && |rows| == NEW_BUCKET_COUNT && f == Filled(t, 0, 0)
    requires forall b | 0 <= b < NEW_BUCKET_COUNT :: rows[b] == Row(t, b, BUCKET_SIZE)
    ensures RestoreAll(h, f, rows, true) == Filled(t, NEW_BUCKET_COUNT, 0)
  {
    assert rows[..0] == [];
    var b := 0;
    while b < NEW_BUCKET_COUNT
      invariant b <= NEW_BUCKET_COUNT && RestoreAll(h, f, rows[..b], true) == Filled(t, b, 0)
    {
      var b' := b + 1;
      RestoresNext(h, t, rows, f, b, b');
      b := b';
    }
    assert rows[..b] == rows;
  }

  // ----- The whole file -----

  predicate Usable(d: Dump) {
    d.nVersion == 1 && FlipBit30(d.nUBuckets) == NEW_BUCKET_COUNT
  }

  function BucketCount(d: Dump): int {
    if d.nVersion != 0 then FlipBit30(d.nUBuckets) else d.nUBuckets
  }

  /** Enough fields for the counts. */
  predicate Complete(d: Dump) {
    d.nKeySize == 32 && d.nNew <= |d.newRecords| && d.nTried <= |d.triedRecords| && BucketCount(d) <= |d.buckets|
  }

  /** The records of a file, taken in. */
  function Admitted(h: Hasher, d: Dump): Tables {
    var e := Empty(d.nKey).(nNew := d.nNew, nTried := d.nTried);
    Tried(h, WelcomeAll(h, e, Upto(d.newRecords, d.nNew), Usable(d)), Upto(d.triedRecords, d.nTried))
  }

  /** What a complete file loads, before pruning. */
  function Loaded(h: Hasher, d: Dump): Tables {
    RestoreAll(h, Admitted(h, d), Upto(d.buckets, BucketCount(d)), Usable(d))
  }

  lemma LoadedParts(h: Hasher, d: Dump, e: Tables, s: Tables, r: Tables)
    requires 0 <= d.nNew == |d.newRecords| && 0 <= d.nTried == |d.triedRecords| && Usable(d) && |d.buckets| == NEW_BUCKET_COUNT
    requires e == Empty(d.nKey).(nNew := d.nNew, nTried := d.nTried)
    requires s == WelcomeAll(h, e, d.newRecords, true) && r == Tried(h, s, d.triedRecords)
    ensures Loaded(h, d) == RestoreAll(h, r, d.buckets, true)
  {
    assert Upto(d.newRecords, d.nNew) == d.newRecords && Upto(d.triedRecords, d.nTried) == d.triedRecords;
    assert Upto(d.buckets, NEW_BUCKET_COUNT) == d.buckets;
  }

  lemma WrittenShape(h: Hasher, t: Tables)
    requires Consistent(h, t)
    ensures var d := Written(t);
      && 0 <= d.nNew == |d.newRecords| == t.nNew <= |Order(t)| && 0 <= d.nTried == |d.triedRecords| == t.nTried
      && Usable(d) && d.nKey == t.nKey && |d.buckets| == NEW_BUCKET_COUNT
      && (forall b | 0 <= b < NEW_BUCKET_COUNT :: d.buckets[b] == Row(t, b, BUCKET_SIZE))
  {
    ListsComplete(h, t);
  }

  /** Reading back what a consistent manager wrote rebuilds it: no record is lost to a
      collision, no reference to a taken slot. */
  lemma LoadedRebuilds(h: Hasher, t: Tables, d: Dump)
    requires Consistent(h, t) && d == Written(t)
    ensures 0 <= d.nNew == |d.newRecords| && 0 <= d.nTried == |d.triedRecords| && Usable(d) && |d.buckets| == NEW_BUCKET_COUNT
    ensures Loaded(h, d) == Rebuilt(t)
  {
    WrittenShape(h, t);
    PartialStart(h, t);
    var e := Partial(t, 0, 0);
    var s := LoadedNew(h, t, d, e);
    var r := LoadedTried(h, t, d, s);
    LoadedParts(h, d, e, s, r);
    RestoresRebuilt(h, t, d.buckets, r);
  }

  lemma RestoresRebuilt(h: Hasher, t: Tables, rows: seq<seq<int>>, r: Tables)
    requires Consistent(h, t) && |rows| == NEW_BUCKET_COUNT && r == Partial(t, |Order(t)|, |Order(t)|)
    requires forall b | 0 <= b < NEW_BUCKET_COUNT :: rows[b] == Row(t, b, BUCKET_SIZE)
    ensures RestoreAll(h, r, rows, true) == Rebuilt(t)
  {
    FilledStart(h, t);
    FilledEnd(h, t);
    RestoresAll(h, t, rows, r);
  }

  lemma LoadedNew(h: Hasher, t: Tables, d: Dump, e: Tables) returns (s: Tables)
    requires Consistent(h, t) && d == Written(t) && e == Partial(t, 0, 0) && d.nNew == |d.newRecords| == t.nNew <= |Order(t)|
    ensures s == Partial(t, t.nNew, 0) && s == WelcomeAll(h, e, d.newRecords, true)
  {
    WelcomesAll(h, t, d.newRecords, e);
    s := Partial(t, t.nNew, 0);
  }

  lemma LoadedTried(h: Hasher, t: Tables, d: Dump, s: Tables) returns (r: Tables)
    requires Consistent(h, t) && d == Written(t) && 0 <= t.nNew <= |Order(t)| && s == Partial(t, t.nNew, 0) && d.nTried == |d.triedRecords|
    ensures r == Partial(t, |Order(t)|, |Order(t)|) && r == Tried(h, s, d.triedRecords)
  {
    OrderTried(h, t, 0);
    ReadsAll(h, t, d.triedRecords, t.nNew, |Order(t)|);
    assert s.(nIdCount := s.nNew) == Partial(t, t.nNew, t.nNew);
    r := Partial(t, |Order(t)|, |Order(t)|);
  }

  // ----- Pruning -----

  predicate Idle(t: Tables, n: int)
    requires n in t.mapInfo
  {
    !t.mapInfo[n].fInTried && t.mapInfo[n].nRefCount == 0
  }

  ghost function IdleIds(t: Tables): set<int> {
    set n | n in t.mapInfo && Idle(t, n)
  }

  ghost function NetsOf(t: Tables, ids: set<int>): set<NetAddr> {
    set n | n in ids && n in t.mapInfo :: t.mapInfo[n].Net()
  }

  /** The state after the entries in gone have been deleted, in whatever order. */
  ghost predicate PrunedBy(t: Tables, s: Tables, gone: set<int>) {
    && Placed(s) && Frame(t, s, gone) && s.vvNew == t.vvNew
    && s.mapAddr == t.mapAddr - NetsOf(t, gone) && s.nNew == t.nNew - |gone|
    && (gone == {} ==> s == t)
  }

  lemma SwapPlaced(t: Tables, i: int, j: int)
    requires Placed(t) && 0 <= i < |t.vRandom| && 0 <= j < |t.vRandom|
    ensures t.vRandom[i] in t.mapInfo && t.vRandom[j] in t.mapInfo
    ensures Placed(SwapRandom(t, i, j)) && Frame(t, SwapRandom(t, i, j), {})
  {
    assert PlaceIndexed(t, i) && PlaceIndexed(t, j);
    var s := SwapRandom(t, i, j);
    assert s.mapInfo.Keys == t.mapInfo.Keys;
    forall k | 0 <= k < |s.vRandom| ensures PlaceIndexed(s, k) { assert PlaceIndexed(t, k); }
  }

  lemma DropLast(t: Tables, s: Tables, n: int)
    requires Placed(t) && n in t.mapInfo && |t.vRandom| > 0 && t.vRandom[|t.vRandom| - 1] == n
    requires s.mapInfo == t.mapInfo - {n} && s.vRandom == t.vRandom[..|t.vRandom| - 1]
    ensures Placed(s)
  {
    assert PlaceIndexed(t, |t.vRandom| - 1);
    forall i | 0 <= i < |s.vRandom| ensures PlaceIndexed(s, i) { assert PlaceIndexed(t, i); }
    forall k | k in s.mapInfo ensures 0 <= s.mapInfo[k].nRandomPos < |s.vRandom| && s.vRandom[s.mapInfo[k].nRandomPos] == k {
      assert 0 <= t.mapInfo[k].nRandomPos < |t.vRandom| && t.vRandom[t.mapInfo[k].nRandomPos] == k;
    }
  }

  lemma DeletePlaced(t: Tables, n: int)
    requires Placed(t) && n in t.mapInfo && Idle(t, n)
    ensures Removable(t, n)
    ensures Placed(Delete(t, n)) && Frame(t, Delete(t, n), {n}) && Delete(t, n).vvNew == t.vvNew
    ensures Delete(t, n).mapAddr == t.mapAddr - {t.mapInfo[n].Net()} && Delete(t, n).nNew == t.nNew - 1
  {
    var p, last := t.mapInfo[n].nRandomPos, |t.vRandom| - 1;
    SwapPlaced(t, p, last);
    DropLast(SwapRandom(t, p, last), Delete(t, n), n);
  }

  lemma PruneOne(t: Tables, s: Tables, gone: set<int>, n: int)
    requires PrunedBy(t, s, gone) && gone <= t.mapInfo.Keys && n in s.mapInfo && Idle(s, n)
    ensures Removable(s, n) && PrunedBy(t, Delete(s, n), gone + {n})
  {
    DeletePlaced(s, n);
    var r := Delete(s, n);
    assert SameEntry(t.mapInfo[n], s.mapInfo[n]);
    NetsMore(t, gone, n);
    MinusMore(t.mapAddr, NetsOf(t, gone), t.mapInfo[n].Net());
    forall k | k in r.mapInfo ensures SameEntry(t.mapInfo[k], r.mapInfo[k]) {
      assert SameEntry(t.mapInfo[k], s.mapInfo[k]) && SameEntry(s.mapInfo[k], r.mapInfo[k]);
    }
  }

  lemma NetsMore(t: Tables, gone: set<int>, n: int)
    requires n in t.mapInfo
    ensures NetsOf(t, gone + {n}) == NetsOf(t, gone) + {t.mapInfo[n].Net()}
  {
  }

  lemma MinusMore<K, V>(m: map<K, V>, a: set<K>, k: K)
    ensures m - (a + {k}) == m - a - {k}
  {
  }

  /** Halfway through: the entries in todo have not been looked at yet. */
  ghost predicate Pruning(t: Tables, s: Tables, gone: set<int>, todo: set<int>) {
    PrunedBy(t, s, gone) && todo <= s.mapInfo.Keys && gone == IdleIds(t) - todo
  }

  lemma PruningStart(t: Tables)
    requires Placed(t)
    ensures Pruning(t, t, {}, t.mapInfo.Keys)
  {
    NothingGone(t);
    KeepsAll(t.mapAddr);
    KeepsAll(t.mapInfo);
    assert IdleIds(t) <= t.mapInfo.Keys;
  }

  lemma NothingGone(t: Tables)
    ensures NetsOf(t, {}) == {}
  {
  }

  lemma KeepsAll<K, V>(m: map<K, V>)
    ensures m - {} == m && m.Keys - {} == m.Keys
  {
  }

  lemma PruningStep(t: Tables, s: Tables, gone: set<int>, todo: set<int>, n: int)
    requires Pruning(t, s, gone, todo) && n in todo
    ensures n in s.mapInfo && (Idle(s, n) <==> n in IdleIds(t))
    ensures Idle(s, n) ==> Removable(s, n) && Pruning(t, Delete(s, n), gone + {n}, todo - {n})
    ensures !Idle(s, n) ==> Pruning(t, s, gone, todo - {n})
  {
    assert SameEntry(t.mapInfo[n], s.mapInfo[n]);
    if Idle(s, n) {
      PruneOne(t, s, gone, n);
      assert gone + {n} == IdleIds(t) - (todo - {n});
    } else {
      assert gone == IdleIds(t) - (todo - {n});
    }
  }

  /** Entries left with no reference are dropped, with what mapAddr has for their addresses;
      the others are kept. */
  method Prune(m: AddrMan)
    requires m.Shaped() && Placed(m.State())
    modifies m
    ensures PrunedBy(old(m.State()), m.State(), IdleIds(old(m.State())))
  {
    ghost var t, gone: set<int> := m.State(), {};
    PruningStart(t);
    var todo := set n | n in m.mapInfo;
    assert todo == t.mapInfo.Keys;
    while todo != {}
      invariant Pruning(t, m.State(), gone, todo)
      decreases todo
    {
      var n := AnyOf(todo);
      PruningStep(t, m.State(), gone, todo, n);
      if !m.mapInfo[n].fInTried && m.mapInfo[n].nRefCount == 0 {
        m.Remove(n);
        gone := gone + {n};
      }
      todo := todo - {n};
    }
    assert IdleIds(t) - {} == IdleIds(t);
  }

  // ----- Clear and Unserialize -----

  /** CAddrMan::Clear: everything but the two maps of entries is reset. */
  method Reset(m: AddrMan, key: nat)
    requires m.Shaped()
    modifies m, m.vvNew, m.vvTried
    ensures m.State() == Empty(key).(mapInfo := old(m.mapInfo), mapAddr := old(m.mapAddr))
    ensures Consistent(m.h, m.State()) <==> old(m.mapInfo) == map[] && old(m.mapAddr) == map[]
  {
    m.vRandom := [];
    m.nKey := key;
    forall b, i | 0 <= b < NEW_BUCKET_COUNT && 0 <= i < BUCKET_SIZE { m.vvNew[b, i] := -1; }
    forall b, i | 0 <= b < TRIED_BUCKET_COUNT && 0 <= i < BUCKET_SIZE { m.vvTried[b, i] := -1; }
    m.nIdCount, m.nTried, m.nNew := 0, 0, 0;
    assert Occupied(m.vvNew) == map[] && Occupied(m.vvTried) == map[];
    StaleInconsistent(m.h, m.State());
  }

  /** A manager that knows entries but has no ids to give them is not consistent. */
  lemma StaleInconsistent(h: Hasher, t: Tables)
    requires t == Empty(t.nKey).(mapInfo := t.mapInfo, mapAddr := t.mapAddr)
    ensures Consistent(h, t) <==> t.mapInfo == map[] && t.mapAddr == map[]
  {
    RunConsistent(h, t.nKey, []);
    assert forall n | n in t.mapInfo :: !EntryIndexed(t, n);
    assert Indexed(t) ==> forall n: int :: n !in t.mapInfo;
    assert (forall n: int :: n !in t.mapInfo) ==> t.mapInfo == map[];
    assert t.mapInfo == map[] ==> forall a | a in t.mapAddr :: !AddrIndexed(t, a);
    assert Indexed(t) ==> forall a: NetAddr :: a !in t.mapAddr;
  }

  method Load(m: AddrMan, d: Dump, randomKey: nat) returns (ok: bool)
    requires m.Shaped() && m.mapInfo == map[] && m.mapAddr == map[]
    modifies m, m.vvNew, m.vvTried
    ensures ok <==> Complete(d)
    ensures ok ==> m.State() == Loaded(m.h, d) && Placed(m.State())
  {
    Reset(m, randomKey);
    if d.nKeySize != 32 { return false; }
    m.nKey, m.nNew, m.nTried := d.nKey, d.nNew, d.nTried;
    var nUBuckets := if d.nVersion != 0 then FlipBit30(d.nUBuckets) else d.nUBuckets;
    var usable := d.nVersion == 1 && nUBuckets == NEW_BUCKET_COUNT;
    ok := ReadRecords(m, d, usable);
    if !ok { return; }
    ok := ReadBuckets(m, d.buckets, nUBuckets, usable);
    if ok { RestoreAllKeeps(m.h, Admitted(m.h, d), Upto(d.buckets, nUBuckets), usable); }
  }

  /** The entries of both tables. */
  method ReadRecords(m: AddrMan, d: Dump, usable: bool) returns (ok: bool)
    requires m.Shaped() && m.State() == Empty(d.nKey).(nNew := d.nNew, nTried := d.nTried) && usable == Usable(d)
    modifies m, m.vvNew, m.vvTried
    ensures ok <==> d.nNew <= |d.newRecords| && d.nTried <= |d.triedRecords|
    ensures ok ==> m.State() == Admitted(m.h, d) && Stocked(m.State())
  {
    ok := ReadNew(m, d.newRecords, d.nNew, usable);
    if !ok { return; }
    ok := ReadTried(m, d.triedRecords, d.nTried);
    if ok { AdmittedStocked(m.h, d); }
  }

  /** Read a file into a manager without entries. */
  method Unserialize(m: AddrMan, d: Dump, randomKey: nat, ghost t: Tables) returns (ok: bool)
    requires m.Shaped() && m.mapInfo == map[] && m.mapAddr == map[]
    modifies m, m.vvNew, m.vvTried
    ensures ok <==> Complete(d)
    ensures ok ==> PrunedBy(Loaded(m.h, d), m.State(), IdleIds(Loaded(m.h, d)))
    ensures Consistent(m.h, t) && d == Written(t) ==> ok && m.Valid() && m.State() == Rebuilt(t)
  {
    ok := Load(m, d, randomKey);
    if Consistent(m.h, t) && d == Written(t) { LoadedGood(m.h, t, d); }
    if ok { Prune(m); }
  }

  lemma LoadedGood(h: Hasher, t: Tables, d: Dump)
    requires Consistent(h, t) && d == Written(t)
    ensures Complete(d) && Loaded(h, d) == Rebuilt(t) && Consistent(h, Rebuilt(t))
    ensures IdleIds(Rebuilt(t)) == {}
  {
    LoadedRebuilds(h, t, d);
    RebuiltConsistent(h, t);
    NothingIdle(h, Rebuilt(t));
  }

  lemma NothingIdle(h: Hasher, t: Tables)
    requires Consistent(h, t)
    ensures forall n | n in t.mapInfo :: !Idle(t, n)
  {
    forall n | n in t.mapInfo ensures !Idle(t, n) {
      if n in NewIds(t) { assert NewEntryOk(t, n, {}); }
    }
  }

  /** After the records, whatever they say, every entry of the new table is there. */
  lemma AdmittedStocked(h: Hasher, d: Dump)
    requires d.nNew <= |d.newRecords|
    ensures Stocked(Admitted(h, d))
  {
    var e := Empty(d.nKey).(nNew := d.nNew, nTried := d.nTried);
    var rs, qs := Upto(d.newRecords, d.nNew), Upto(d.triedRecords, d.nTried);
    var s := WelcomeAll(h, e, rs, Usable(d));
    WelcomeAllKeeps(h, e, rs, Usable(d));
    PlaceEqual(s, s.(nIdCount := s.nNew));
    AdmitAllKeeps(h, s.(nIdCount := s.nNew), qs);
    PlaceEqual(AdmitAll(h, s.(nIdCount := s.nNew), qs).0, Tried(h, s, qs));
  }

  /** Writing a manager and reading the file into a fresh one gives the same manager under
      new ids. */
  method RoundTrip(m: AddrMan, key: nat) returns (copy: AddrMan, ok: bool)
    requires m.Valid()
    ensures ok && fresh(copy) && copy.Valid() && copy.h == m.h && copy.State() == Rebuilt(m.State())
  {
    var d := Serialize(m);
    copy := new AddrMan(m.h, key);
    ok := Unserialize(copy, d, key, m.State());
  }
}
