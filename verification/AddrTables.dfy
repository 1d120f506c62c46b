/** The state of the stochastic address manager (src/addrman.h) as a value, its
    elementary updates, and the consistency invariant they keep.

    Keyed hashing is uninterpreted: a Hasher supplies arbitrary functions, and the
    modular reductions of src/addrman.cpp are written out. Service flags are a set of
    bit numbers. The two bucket tables are
    partial maps from slots; a slot that holds -1 in the source is absent here. */
module AddrTables {

  const TRIED_BUCKET_COUNT: nat := 256
  const NEW_BUCKET_COUNT: nat := 1024
  const BUCKET_SIZE: nat := 64
  const TRIED_BUCKETS_PER_GROUP: nat := 8
  const NEW_BUCKETS_PER_SOURCE_GROUP: nat := 64
  const NEW_BUCKETS_PER_ADDRESS: nat := 8

  datatype NetAddr = NetAddr(ip: nat)
  datatype Service = Service(net: NetAddr, port: nat)
  datatype Address = Address(service: Service, nServices: set<nat>, nTime: int)

  datatype AddrInfo = AddrInfo(
    addr: Address, source: NetAddr, nLastTry: int, nLastSuccess: int,
    nAttempts: int, nRefCount: int, fInTried: bool, nRandomPos: int)
  {
    function Net(): NetAddr { addr.service.net }
  }

  datatype Slot = Slot(bucket: nat, pos: nat)

  datatype Hasher = Hasher(
    routable: NetAddr -> bool,
    group: NetAddr -> nat,
    tried1: (nat, Service) -> nat,
    tried2: (nat, nat, nat) -> nat,
    new1: (nat, nat, nat) -> nat,
    new2: (nat, nat, nat) -> nat,
    position: (nat, bool, nat, Service) -> nat)
  {
    function TriedBucket(key: nat, s: Service): nat {
      tried2(key, group(s.net), tried1(key, s) % TRIED_BUCKETS_PER_GROUP) % TRIED_BUCKET_COUNT
    }

    function NewBucket(key: nat, s: Service, src: NetAddr): nat {
      new2(key, group(src), new1(key, group(s.net), group(src)) % NEW_BUCKETS_PER_SOURCE_GROUP) % NEW_BUCKET_COUNT
    }

    function Position(key: nat, fNew: bool, bucket: nat, s: Service): nat {
      position(key, fNew, bucket, s) % BUCKET_SIZE
    }

    function TriedSlot(key: nat, s: Service): Slot {
      var b := TriedBucket(key, s);
      Slot(b, Position(key, false, b, s))
    }

    function NewSlot(key: nat, s: Service, src: NetAddr): Slot {
      var b := NewBucket(key, s, src);
      Slot(b, Position(key, true, b, s))
    }
  }

  datatype Tables = Tables(
    nKey: nat, nIdCount: int,
    mapInfo: map<int, AddrInfo>, mapAddr: map<NetAddr, int>, vRandom: seq<int>,
    nTried: int, vvTried: map<Slot, int>,
    nNew: int, vvNew: map<Slot, int>)

  function Empty(key: nat): Tables {
    Tables(key, 0, map[], map[], [], 0, map[], 0, map[])
  }

  // ----- The invariant -----

  function Refs(table: map<Slot, int>, n: int): set<Slot> {
    set sl | sl in table && table[sl] == n
  }

  function TriedIds(t: Tables): set<int> {
    set n | n in t.mapInfo && t.mapInfo[n].fInTried
  }

  function NewIds(t: Tables): set<int> {
    set n | n in t.mapInfo && !t.mapInfo[n].fInTried
  }

  /** Entry n is found again through its address and through its place in vRandom. */
  ghost predicate EntryIndexed(t: Tables, n: int)
    requires n in t.mapInfo
  {
    var info := t.mapInfo[n];
    && 0 <= n < t.nIdCount
    && info.Net() in t.mapAddr && t.mapAddr[info.Net()] == n
    && 0 <= info.nRandomPos < |t.vRandom| && t.vRandom[info.nRandomPos] == n
  }

  ghost predicate AddrIndexed(t: Tables, a: NetAddr)
    requires a in t.mapAddr
  {
    t.mapAddr[a] in t.mapInfo && t.mapInfo[t.mapAddr[a]].Net() == a
  }

  ghost predicate PlaceIndexed(t: Tables, i: int)
    requires 0 <= i < |t.vRandom|
  {
    t.vRandom[i] in t.mapInfo && t.mapInfo[t.vRandom[i]].nRandomPos == i
  }

  /** mapInfo and mapAddr are inverse, and so are nRandomPos and vRandom. */
  ghost predicate Indexed(t: Tables) {
    && 0 <= t.nIdCount
    && (forall n {:trigger EntryIndexed(t, n)} | n in t.mapInfo :: EntryIndexed(t, n))
    && (forall a {:trigger AddrIndexed(t, a)} | a in t.mapAddr :: AddrIndexed(t, a))
    && (forall i {:trigger PlaceIndexed(t, i)} | 0 <= i < |t.vRandom| :: PlaceIndexed(t, i))
  }

  /** An occupied new slot is at the position its entry hashes to. */
  ghost predicate NewSlotOk(h: Hasher, t: Tables, sl: Slot)
    requires sl in t.vvNew
  {
    var n := t.vvNew[sl];
    && sl.bucket < NEW_BUCKET_COUNT
    && n in t.mapInfo && !t.mapInfo[n].fInTried
    && sl.pos == h.Position(t.nKey, true, sl.bucket, t.mapInfo[n].addr.service)
  }

  /** An entry that is not tried has as many references as nRefCount says: none while it
      is in flight (between two tables), 1 to 8 otherwise. */
  ghost predicate NewEntryOk(t: Tables, n: int, flight: set<int>)
    requires n in t.mapInfo
  {
    && t.mapInfo[n].nRefCount == |Refs(t.vvNew, n)|
    && (if n in flight then t.mapInfo[n].nRefCount == 0
        else 1 <= t.mapInfo[n].nRefCount <= NEW_BUCKETS_PER_ADDRESS)
  }

  ghost predicate NewConsistent(h: Hasher, t: Tables, flight: set<int>) {
    && (forall sl {:trigger NewSlotOk(h, t, sl)} | sl in t.vvNew :: NewSlotOk(h, t, sl))
    && (forall n {:trigger NewEntryOk(t, n, flight)} | n in NewIds(t) :: NewEntryOk(t, n, flight))
  }

  ghost predicate TriedSlotOk(h: Hasher, t: Tables, sl: Slot)
    requires sl in t.vvTried
  {
    var n := t.vvTried[sl];
    n in t.mapInfo && t.mapInfo[n].fInTried && sl == h.TriedSlot(t.nKey, t.mapInfo[n].addr.service)
  }

  ghost predicate TriedEntryOk(h: Hasher, t: Tables, n: int)
    requires n in t.mapInfo
  {
    var sl := h.TriedSlot(t.nKey, t.mapInfo[n].addr.service);
    && sl in t.vvTried && t.vvTried[sl] == n
    && t.mapInfo[n].nRefCount == 0
  }

  /** The tried table holds exactly the tried entries, each in the slot it hashes to. */
  ghost predicate TriedConsistent(h: Hasher, t: Tables) {
    && (forall sl {:trigger TriedSlotOk(h, t, sl)} | sl in t.vvTried :: TriedSlotOk(h, t, sl))
    && (forall n {:trigger TriedEntryOk(h, t, n)} | n in TriedIds(t) :: TriedEntryOk(h, t, n))
  }

  /** d entries are at the moment counted neither as new nor as tried. */
  ghost predicate Counted(t: Tables, d: int) {
    && t.nTried == |TriedIds(t)|
    && t.nNew + d == |NewIds(t)|
  }

  /** The invariant in the middle of an operation. */
  ghost predicate Transit(h: Hasher, t: Tables, flight: set<int>, d: int) {
    Indexed(t) && NewConsistent(h, t, flight) && TriedConsistent(h, t) && Counted(t, d)
  }

  /** The invariant between operations. */
  ghost predicate Consistent(h: Hasher, t: Tables) {
    Transit(h, t, {}, 0)
  }

  // ----- Elementary updates -----

  function Create(t: Tables, addr: Address, source: NetAddr): Tables {
    var n := t.nIdCount;
    t.(nIdCount := n + 1,
       mapInfo := t.mapInfo[n := AddrInfo(addr, source, 0, 0, 0, 0, false, |t.vRandom|)],
       mapAddr := t.mapAddr[addr.service.net := n],
       vRandom := t.vRandom + [n])
  }

  function SwapRandom(t: Tables, i: int, j: int): Tables
    requires i != j ==> 0 <= i < |t.vRandom| && 0 <= j < |t.vRandom|
    requires i != j ==> t.vRandom[i] in t.mapInfo && t.vRandom[j] in t.mapInfo
  {
    if i == j then t else
      var a, b := t.vRandom[i], t.vRandom[j];
      var info := t.mapInfo[a := t.mapInfo[a].(nRandomPos := j)];
      t.(mapInfo := info[b := info[b].(nRandomPos := i)], vRandom := t.vRandom[i := b][j := a])
  }

  /** What deleting an entry asserts and relies on. */
  predicate Removable(t: Tables, n: int) {
    && n in t.mapInfo && !t.mapInfo[n].fInTried && t.mapInfo[n].nRefCount == 0
    && 0 <= t.mapInfo[n].nRandomPos < |t.vRandom| && t.vRandom[t.mapInfo[n].nRandomPos] == n
    && t.vRandom[|t.vRandom| - 1] in t.mapInfo
  }

  lemma IndexedRemovable(t: Tables, n: int)
    requires Indexed(t) && n in t.mapInfo && !t.mapInfo[n].fInTried && t.mapInfo[n].nRefCount == 0
    ensures Removable(t, n)
  {
    assert EntryIndexed(t, n) && PlaceIndexed(t, |t.vRandom| - 1);
  }

  function Delete(t: Tables, n: int): Tables
    requires Removable(t, n)
  {
    var s := SwapRandom(t, t.mapInfo[n].nRandomPos, |t.vRandom| - 1);
    s.(vRandom := s.vRandom[..|s.vRandom| - 1],
       mapAddr := s.mapAddr - {t.mapInfo[n].Net()},
       mapInfo := s.mapInfo - {n},
       nNew := s.nNew - 1)
  }

  function ClearNew(t: Tables, sl: Slot): Tables
    requires Indexed(t)
    requires sl in t.vvNew ==>
      var n := t.vvNew[sl]; n in t.mapInfo && !t.mapInfo[n].fInTried && t.mapInfo[n].nRefCount > 0
  {
    if sl !in t.vvNew then t else
      var s := Unlink(t, sl);
      UnlinkIndexed(t, sl);
      if s.mapInfo[t.vvNew[sl]].nRefCount == 0 then
        IndexedRemovable(s, t.vvNew[sl]);
        Delete(s, t.vvNew[sl])
      else s
  }

  /** Take the reference in a slot away from its entry. */
  function Unlink(t: Tables, sl: Slot): Tables
    requires sl in t.vvNew && t.vvNew[sl] in t.mapInfo
  {
    var n := t.vvNew[sl];
    t.(mapInfo := t.mapInfo[n := t.mapInfo[n].(nRefCount := t.mapInfo[n].nRefCount - 1)],
       vvNew := t.vvNew - {sl})
  }

  /** Give an entry a reference in a slot. */
  function Link(t: Tables, sl: Slot, n: int): Tables
    requires n in t.mapInfo
  {
    t.(mapInfo := t.mapInfo[n := t.mapInfo[n].(nRefCount := t.mapInfo[n].nRefCount + 1)],
       vvNew := t.vvNew[sl := n])
  }

  /** Indexing does not depend on the reference counts or the tables. */
  lemma UnlinkIndexed(t: Tables, sl: Slot)
    requires Indexed(t) && sl in t.vvNew && t.vvNew[sl] in t.mapInfo
    ensures Indexed(Unlink(t, sl))
  {
    SameIndex(t, Unlink(t, sl));
  }

  lemma SameIndex(t: Tables, s: Tables)
    requires Indexed(t) && s.mapInfo.Keys == t.mapInfo.Keys
    requires forall n | n in t.mapInfo ::
      s.mapInfo[n].Net() == t.mapInfo[n].Net() && s.mapInfo[n].nRandomPos == t.mapInfo[n].nRandomPos
    requires s.mapAddr == t.mapAddr && s.vRandom == t.vRandom && s.nIdCount == t.nIdCount
    ensures Indexed(s)
  {
    forall n | n in s.mapInfo ensures EntryIndexed(s, n) { assert EntryIndexed(t, n); }
    forall a | a in s.mapAddr ensures AddrIndexed(s, a) {
      assert AddrIndexed(t, a);
      var n := t.mapAddr[a];
      assert s.mapInfo[n].Net() == t.mapInfo[n].Net();
    }
    forall i | 0 <= i < |s.vRandom| ensures PlaceIndexed(s, i) {
      assert PlaceIndexed(t, i);
      var n := t.vRandom[i];
      assert s.mapInfo[n].nRandomPos == t.mapInfo[n].nRandomPos;
    }
  }

  // ----- Walking a table -----

  /** Slots that come before (b, i) in the order the tables are walked. */
  predicate Before(sl: Slot, b: int, i: int) {
    sl.bucket < b || (sl.bucket == b && sl.pos < i)
  }

  ghost function Seen(table: map<Slot, int>, n: int, b: int, i: int): set<Slot> {
    set sl | sl in table && table[sl] == n && Before(sl, b, i)
  }

  lemma SeenStep(table: map<Slot, int>, n: int, b: nat, i: nat)
    ensures Seen(table, n, b, i + 1) ==
      Seen(table, n, b, i) + if Slot(b, i) in table && table[Slot(b, i)] == n then {Slot(b, i)} else {}
  {
  }

  lemma SeenRow(table: map<Slot, int>, n: int, b: nat, width: nat)
    requires forall sl | sl in table :: sl.pos < width
    ensures Seen(table, n, b + 1, 0) == Seen(table, n, b, width)
  {
  }

  lemma SeenAll(table: map<Slot, int>, n: int, rows: nat)
    requires forall sl | sl in table :: sl.bucket < rows
    ensures Seen(table, n, rows, 0) == Refs(table, n) && Seen(table, n, 0, 0) == {}
  {
  }
}
