/** The address manager as the source has it: an object whose methods update its maps,
    its random order and its two fixed bucket tables in place. Every method is proved
    equal to the corresponding function on the state as a value. */
module AddrManagers {
  import opened Bits
  import opened Common
  import opened AddrTables
  import opened AddrUpdates
  import opened AddrMoves
  import opened AddrOps
  import opened AddrRuns

  /** The occupied slots of a bucket table; -1 marks a free one. */
  ghost function Occupied(a: array2<int>): map<Slot, int>
    reads a
  {
    map b: nat, i: nat | b < a.Length0 && i < a.Length1 && a[b, i] != -1 :: Slot(b, i) := a[b, i]
  }

  method Put(a: array2<int>, b: nat, i: nat, v: int)
    requires b < a.Length0 && i < a.Length1
    modifies a
    ensures a[b, i] == v
    ensures Occupied(a) == if v == -1 then old(Occupied(a)) - {Slot(b, i)} else old(Occupied(a))[Slot(b, i) := v]
  {
    a[b, i] := v;
  }

  method AnyOf(s: set<int>) returns (n: int)
    requires s != {}
    ensures n in s
  {
    assert (forall x: int :: x !in s) ==> s == {};
    n :| n in s;
  }

  /** The references of an entry in the first k buckets. */
  ghost function RefsBelow(table: map<Slot, int>, n: int, k: nat): set<Slot> {
    set sl | sl in table && table[sl] == n && sl.bucket < k
  }

  /** The state after the references of an entry in the first k buckets are withdrawn. */
  ghost function WithdrawBelow(t: Tables, n: int, k: nat): Tables
    requires n in t.mapInfo
  {
    var gone := RefsBelow(t.vvNew, n, k);
    t.(mapInfo := t.mapInfo[n := t.mapInfo[n].(nRefCount := t.mapInfo[n].nRefCount - |gone|)], vvNew := t.vvNew - gone)
  }

  /** One more bucket: it holds a reference exactly at the position the entry hashes to. */
  lemma RefsStep(h: Hasher, t: Tables, n: int, k: nat)
    requires NewConsistent(h, t, {}) && n in t.mapInfo
    ensures var sl := Slot(k, h.Position(t.nKey, true, k, t.mapInfo[n].addr.service));
      var s := WithdrawBelow(t, n, k);
      WithdrawBelow(t, n, k + 1) == if sl in s.vvNew && s.vvNew[sl] == n then Unlink(s, sl) else s
  {
    var sl := Slot(k, h.Position(t.nKey, true, k, t.mapInfo[n].addr.service));
    var before, after := RefsBelow(t.vvNew, n, k), RefsBelow(t.vvNew, n, k + 1);
    forall x | x in t.vvNew && t.vvNew[x] == n && x.bucket == k ensures x == sl { assert NewSlotOk(h, t, x); }
    if sl in t.vvNew && t.vvNew[sl] == n {
      assert after == before + {sl};
      LessOne(t.vvNew, before, sl);
    } else {
      assert after == before;
    }
  }

  lemma LessOne(m: map<Slot, int>, a: set<Slot>, sl: Slot)
    ensures m - (a + {sl}) == m - a - {sl}
  {
  }

  lemma WithdrawEnds(h: Hasher, t: Tables, n: int)
    requires NewConsistent(h, t, {}) && n in t.mapInfo
    ensures WithdrawBelow(t, n, 0) == t
    ensures WithdrawBelow(t, n, NEW_BUCKET_COUNT).(nNew := t.nNew - 1) == Withdraw(t, n)
  {
    assert RefsBelow(t.vvNew, n, 0) == {} && t.vvNew - {} == t.vvNew && t.mapInfo[n := t.mapInfo[n]] == t.mapInfo;
    forall sl | sl in Refs(t.vvNew, n) ensures sl.bucket < NEW_BUCKET_COUNT { assert NewSlotOk(h, t, sl); }
    assert RefsBelow(t.vvNew, n, NEW_BUCKET_COUNT) == Refs(t.vvNew, n);
  }

  /** An address without an entry is looked up in vain. */
  lemma LookupOk(t: Tables, a: Service)
    requires Indexed(t)
    ensures -1 !in t.mapInfo && (a.net in t.mapAddr ==> t.mapAddr[a.net] in t.mapInfo)
  {
    assert -1 in t.mapInfo ==> EntryIndexed(t, -1);
    assert a.net in t.mapAddr ==> AddrIndexed(t, a.net);
  }

  /** What the steps of an eviction rely on. */
  lemma EvictReady(h: Hasher, t: Tables, sl: Slot, flight: set<int>, d: int)
    requires Transit(h, t, flight, d) && sl in t.vvTried
    ensures var e := t.vvTried[sl]; e in t.mapInfo && e >= 0
    ensures var e := t.vvTried[sl];
      var us := h.NewSlot(t.nKey, t.mapInfo[e].addr.service, t.mapInfo[e].source);
      var s := Demote(t, sl);
      && Indexed(s)
      && (us in s.vvNew ==> var n := s.vvNew[us]; n in s.mapInfo && !s.mapInfo[n].fInTried && s.mapInfo[n].nRefCount > 0)
      && e in ClearNew(s, us).mapInfo && ClearNew(s, us).mapInfo[e].nRefCount == 0
  {
    assert TriedSlotOk(h, t, sl);
    var e := t.vvTried[sl];
    assert e in TriedIds(t) && TriedEntryOk(h, t, e) && EntryIndexed(t, e);
    var us := h.NewSlot(t.nKey, t.mapInfo[e].addr.service, t.mapInfo[e].source);
    DemoteKeeps(h, t, sl, flight, d);
    ClearNewKeeps(h, Demote(t, sl), us, flight + {e}, d + 1);
    ClearedKeepsFlight(h, Demote(t, sl), us, flight + {e}, d + 1, e);
  }

  class AddrMan {
    const h: Hasher
    var nKey: nat
    var nIdCount: int
    var mapInfo: map<int, AddrInfo>
    var mapAddr: map<NetAddr, int>
    var vRandom: seq<int>
    var nTried: int
    const vvTried: array2<int>
    var nNew: int
    const vvNew: array2<int>

    ghost predicate Shaped() {
      && vvTried.Length0 == TRIED_BUCKET_COUNT && vvTried.Length1 == BUCKET_SIZE
      && vvNew.Length0 == NEW_BUCKET_COUNT && vvNew.Length1 == BUCKET_SIZE
      && vvTried != vvNew
    }

    ghost function State(): Tables
      reads this, vvTried, vvNew
    {
      Tables(nKey, nIdCount, mapInfo, mapAddr, vRandom, nTried, Occupied(vvTried), nNew, Occupied(vvNew))
    }

    ghost predicate Valid()
      reads this, vvTried, vvNew
    {
      Shaped() && Consistent(h, State())
    }

    constructor (h: Hasher, key: nat)
      ensures Valid() && State() == Empty(key) && this.h == h && fresh(vvTried) && fresh(vvNew)
    {
      this.h := h;
      nKey, nIdCount, mapInfo, mapAddr, vRandom, nTried, nNew := key, 0, map[], map[], [], 0, 0;
      var tried := new int[TRIED_BUCKET_COUNT, BUCKET_SIZE]((b, i) => -1);
      var unknown := new int[NEW_BUCKET_COUNT, BUCKET_SIZE]((b, i) => -1);
      vvTried, vvNew := tried, unknown;
      new;
      assert Occupied(vvTried) == map[] && Occupied(vvNew) == map[];
      RunConsistent(h, key, []);
    }

    method Find(addr: NetAddr) returns (found: bool, nId: int)
      ensures found <==> addr in mapAddr && mapAddr[addr] in mapInfo
      ensures found ==> nId == mapAddr[addr]
    {
      found, nId := false, -1;
      if addr in mapAddr {
        nId := mapAddr[addr];
        found := nId in mapInfo;
      }
    }

    method CreateEntry(addr: Address, addrSource: NetAddr) returns (nId: int)
      modifies this
      ensures nId == old(nIdCount) && State() == Create(old(State()), addr, addrSource)
    {
      nId := nIdCount;
      nIdCount := nIdCount + 1;
      mapInfo := mapInfo[nId := AddrInfo(addr, addrSource, 0, 0, 0, 0, false, -1)];
      mapAddr := mapAddr[addr.service.net := nId];
      mapInfo := mapInfo[nId := mapInfo[nId].(nRandomPos := |vRandom|)];
      vRandom := vRandom + [nId];
    }

    method Swap(nRndPos1: int, nRndPos2: int)
      requires nRndPos1 != nRndPos2 ==> 0 <= nRndPos1 < |vRandom| && 0 <= nRndPos2 < |vRandom|
      requires nRndPos1 != nRndPos2 ==> vRandom[nRndPos1] in mapInfo && vRandom[nRndPos2] in mapInfo
      modifies this
      ensures State() == SwapRandom(old(State()), nRndPos1, nRndPos2)
    {
      if nRndPos1 == nRndPos2 { return; }
      var nId1, nId2 := vRandom[nRndPos1], vRandom[nRndPos2];
      mapInfo := mapInfo[nId1 := mapInfo[nId1].(nRandomPos := nRndPos2)];
      mapInfo := mapInfo[nId2 := mapInfo[nId2].(nRandomPos := nRndPos1)];
      vRandom := vRandom[nRndPos1 := nId2];
      vRandom := vRandom[nRndPos2 := nId1];
    }

    method Remove(nId: int)
      requires Removable(State(), nId)
      modifies this
      ensures State() == Delete(old(State()), nId)
    {
      var info := mapInfo[nId];
      Swap(info.nRandomPos, |vRandom| - 1);
      vRandom := vRandom[..|vRandom| - 1];
      mapAddr := mapAddr - {info.Net()};
      mapInfo := mapInfo - {nId};
      nNew := nNew - 1;
    }

    method ClearSlot(nUBucket: nat, nUBucketPos: nat)
      requires Shaped() && nUBucket < NEW_BUCKET_COUNT && nUBucketPos < BUCKET_SIZE
      requires Indexed(State())
      requires vvNew[nUBucket, nUBucketPos] != -1 ==>
        var n := vvNew[nUBucket, nUBucketPos]; n in mapInfo && !mapInfo[n].fInTried && mapInfo[n].nRefCount > 0
      modifies this, vvNew
      ensures State() == ClearNew(old(State()), Slot(nUBucket, nUBucketPos))
    {
      if vvNew[nUBucket, nUBucketPos] != -1 {
        var nIdDelete := vvNew[nUBucket, nUBucketPos];
        UnlinkIndexed(State(), Slot(nUBucket, nUBucketPos));
        mapInfo := mapInfo[nIdDelete := mapInfo[nIdDelete].(nRefCount := mapInfo[nIdDelete].nRefCount - 1)];
        Put(vvNew, nUBucket, nUBucketPos, -1);
        if mapInfo[nIdDelete].nRefCount == 0 {
          IndexedRemovable(State(), nIdDelete);
          Remove(nIdDelete);
        }
      }
    }

    /** The loop of MakeTried over all new buckets. */
    method WithdrawAll(nId: int)
      requires Valid() && nId in NewIds(State())
      modifies this, vvNew
      ensures State() == Withdraw(old(State()), nId)
    {
      ghost var t := State();
      assert nId >= 0 by { assert EntryIndexed(t, nId); }
      WithdrawEnds(h, t, nId);
      WithdrawUpTo(nId, t);
      ghost var s := State();
      nNew := nNew - 1;
      assert State() == s.(nNew := t.nNew - 1);
    }

    method WithdrawUpTo(nId: int, ghost t: Tables)
      requires Shaped() && nId >= 0 && NewConsistent(h, t, {}) && nId in t.mapInfo && State() == WithdrawBelow(t, nId, 0)
      modifies this, vvNew
      ensures State() == WithdrawBelow(t, nId, NEW_BUCKET_COUNT)
    {
      for bucket := 0 to NEW_BUCKET_COUNT
        invariant State() == WithdrawBelow(t, nId, bucket)
      {
        WithdrawFrom(bucket, nId, t);
      }
    }

    method WithdrawFrom(bucket: nat, nId: int, ghost t: Tables)
      requires Shaped() && bucket < NEW_BUCKET_COUNT && nId >= 0
      requires NewConsistent(h, t, {}) && nId in t.mapInfo && State() == WithdrawBelow(t, nId, bucket)
      modifies this, vvNew
      ensures State() == WithdrawBelow(t, nId, bucket + 1)
    {
      RefsStep(h, t, nId, bucket);
      var pos := h.Position(nKey, true, bucket, mapInfo[nId].addr.service);
      if vvNew[bucket, pos] == nId {
        Withhold(bucket, pos, nId);
      }
    }

    method Withhold(bucket: nat, pos: nat, nId: int)
      requires Shaped() && bucket < NEW_BUCKET_COUNT && pos < BUCKET_SIZE && nId in mapInfo && vvNew[bucket, pos] == nId != -1
      modifies this, vvNew
      ensures State() == Unlink(old(State()), Slot(bucket, pos))
    {
      Put(vvNew, bucket, pos, -1);
      mapInfo := mapInfo[nId := mapInfo[nId].(nRefCount := mapInfo[nId].nRefCount - 1)];
    }

    /** Take the entry of an occupied tried slot out of the tried table. */
    method DemoteEntry(nKBucket: nat, nKBucketPos: nat) returns (nIdEvict: int)
      requires Shaped() && nKBucket < TRIED_BUCKET_COUNT && nKBucketPos < BUCKET_SIZE
      requires vvTried[nKBucket, nKBucketPos] != -1 && vvTried[nKBucket, nKBucketPos] in mapInfo
      modifies this, vvTried
      ensures nIdEvict == old(vvTried[nKBucket, nKBucketPos])
      ensures State() == Demote(old(State()), Slot(nKBucket, nKBucketPos))
    {
      nIdEvict := vvTried[nKBucket, nKBucketPos];
      mapInfo := mapInfo[nIdEvict := mapInfo[nIdEvict].(fInTried := false)];
      Put(vvTried, nKBucket, nKBucketPos, -1);
      nTried := nTried - 1;
    }

    /** Put an entry without references into a free slot of the new table. */
    method ReenterNew(nUBucket: nat, nUBucketPos: nat, nId: int)
      requires Shaped() && nUBucket < NEW_BUCKET_COUNT && nUBucketPos < BUCKET_SIZE
      requires nId in mapInfo && nId != -1 && mapInfo[nId].nRefCount == 0
      modifies this, vvNew
      ensures State() == var s := Link(old(State()), Slot(nUBucket, nUBucketPos), nId); s.(nNew := s.nNew + 1)
    {
      mapInfo := mapInfo[nId := mapInfo[nId].(nRefCount := 1)];
      Put(vvNew, nUBucket, nUBucketPos, nId);
      nNew := nNew + 1;
    }

    /** The eviction inside MakeTried. */
    method EvictEntry(nKBucket: nat, nKBucketPos: nat, ghost flight: set<int>, ghost d: int)
      requires Shaped() && Transit(h, State(), flight, d)
      requires nKBucket < TRIED_BUCKET_COUNT && nKBucketPos < BUCKET_SIZE && vvTried[nKBucket, nKBucketPos] != -1
      modifies this, vvNew, vvTried
      ensures State() == Evict(h, old(State()), Slot(nKBucket, nKBucketPos), flight, d)
    {
      ghost var t, sl := State(), Slot(nKBucket, nKBucketPos);
      EvictReady(h, t, sl, flight, d);
      var nIdEvict := DemoteEntry(nKBucket, nKBucketPos);
      var service := mapInfo[nIdEvict].addr.service;
      var nUBucket := h.NewBucket(nKey, service, mapInfo[nIdEvict].source);
      var nUBucketPos := h.Position(nKey, true, nUBucket, service);
      ClearSlot(nUBucket, nUBucketPos);
      ReenterNew(nUBucket, nUBucketPos, nIdEvict);
    }

    /** Put an entry into a free tried slot. */
    method EnterTried(nKBucket: nat, nKBucketPos: nat, nId: int)
      requires Shaped() && nKBucket < TRIED_BUCKET_COUNT && nKBucketPos < BUCKET_SIZE && nId in mapInfo && nId != -1
      modifies this, vvTried
      ensures State() == Enter(old(State()), Slot(nKBucket, nKBucketPos), nId)
    {
      Put(vvTried, nKBucket, nKBucketPos, nId);
      nTried := nTried + 1;
      mapInfo := mapInfo[nId := mapInfo[nId].(fInTried := true)];
    }

    method MoveToTried(nId: int)
      requires Valid() && nId in NewIds(State())
      modifies this, vvNew, vvTried
      ensures Valid() && State() == MakeTried(h, old(State()), nId)
    {
      ghost var t := State();
      MakeTriedKeeps(h, t, nId);
      WithdrawKeeps(h, t, nId);
      assert EntryIndexed(t, nId);
      WithdrawAll(nId);
      var service := mapInfo[nId].addr.service;
      var nKBucket := h.TriedBucket(nKey, service);
      var nKBucketPos := h.Position(nKey, false, nKBucket, service);
      if vvTried[nKBucket, nKBucketPos] != -1 {
        EvictEffect(h, State(), Slot(nKBucket, nKBucketPos), {nId}, 1);
        EvictEntry(nKBucket, nKBucketPos, {nId}, 1);
      }
      EnterTried(nKBucket, nKBucketPos, nId);
    }

    method StampEntry(nId: int, nTime: int)
      requires nId in mapInfo
      modifies this
      ensures State() == old(State()).(mapInfo := old(mapInfo)[nId := Stamp(old(mapInfo)[nId], nTime)])
    {
      mapInfo := mapInfo[nId := mapInfo[nId].(nLastSuccess := nTime)];
      mapInfo := mapInfo[nId := mapInfo[nId].(nLastTry := nTime)];
      mapInfo := mapInfo[nId := mapInfo[nId].(nAttempts := 0)];
    }

    method Good_(addr: Service, nTime: int, draw: nat)
      requires Valid()
      modifies this, vvNew, vvTried
      ensures Valid() && State() == Good(h, old(State()), addr, nTime)
    {
      ghost var t := State();
      GoodReachesTried(h, t, addr, nTime);
      var found, nId := Find(addr.net);
      assert found ==> EntryIndexed(t, nId);
      assert -1 in mapInfo ==> EntryIndexed(t, -1);
      if !found || mapInfo[nId].addr.service != addr { return; }
      StampEntry(nId, nTime);
      RestateKeeps(h, t, nId, Stamp(t.mapInfo[nId], nTime), {}, 0);
      if mapInfo[nId].fInTried { return; }
      var nUBucket := FindBucket(nId, draw);
      if nUBucket == -1 { return; }
      MoveToTried(nId);
    }

    /** The search of Good_ for a bucket the entry is in, from a random bucket on. */
    method FindBucket(nId: int, draw: nat) returns (nUBucket: int)
      requires Valid() && nId in NewIds(State())
      ensures nUBucket == -1 <==> Refs(State().vvNew, nId) == {}
    {
      ghost var t := State();
      assert EntryIndexed(t, nId);
      var service := mapInfo[nId].addr.service;
      var nRnd := draw % NEW_BUCKET_COUNT;
      nUBucket := -1;
      for n := 0 to NEW_BUCKET_COUNT
        invariant nUBucket == -1
        invariant forall b: nat | b < NEW_BUCKET_COUNT && Distance(nRnd, b) < n ::
          vvNew[b, h.Position(nKey, true, b, service)] != nId
      {
        var nB := (n + nRnd) % NEW_BUCKET_COUNT;
        var nBpos := h.Position(nKey, true, nB, service);
        if vvNew[nB, nBpos] == nId {
          nUBucket := nB;
          assert Slot(nB, nBpos) in Refs(t.vvNew, nId);
          return;
        }
      }
      forall sl | sl in t.vvNew ensures t.vvNew[sl] != nId {
        assert NewSlotOk(h, t, sl) && Distance(nRnd, sl.bucket) < NEW_BUCKET_COUNT;
      }
    }

    /** Update what is known of an address. */
    method RefreshEntry(nId: int, addr: Address, nTimePenalty: int, now: int)
      requires nId in mapInfo
      modifies this
      ensures State() == old(State()).(mapInfo := old(mapInfo)[nId := Refresh(old(mapInfo)[nId], addr, nTimePenalty, now)])
    {
      var fCurrentlyOnline := now - addr.nTime < 24 * 60 * 60;
      var nUpdateInterval := if fCurrentlyOnline then 60 * 60 else 24 * 60 * 60;
      var info := mapInfo[nId];
      if addr.nTime != 0 && (info.addr.nTime == 0 || info.addr.nTime < addr.nTime - nUpdateInterval - nTimePenalty) {
        info := info.(addr := info.addr.(nTime := Max(0, addr.nTime - nTimePenalty)));
      }
      info := info.(addr := info.addr.(nServices := info.addr.nServices + addr.nServices));
      mapInfo := mapInfo[nId := info];
    }

    /** Whether Add_ leaves the references of a known entry alone. */
    method Settled(info: AddrInfo, addr: Address, draw: nat) returns (alone: bool)
      ensures alone <==> LeftAlone(info, addr, draw)
    {
      if addr.nTime == 0 || (info.addr.nTime != 0 && addr.nTime <= info.addr.nTime) { return true; }
      if info.fInTried { return true; }
      if info.nRefCount == NEW_BUCKETS_PER_ADDRESS { return true; }
      var nFactor := 1;
      var n := 0;
      while n < info.nRefCount
        invariant 0 <= n <= Max(0, info.nRefCount) && nFactor == Pow2(n)
      {
        nFactor := nFactor * 2;
        n := n + 1;
      }
      alone := nFactor > 1 && draw % nFactor != 0;
    }

    method LinkEntry(nUBucket: nat, nUBucketPos: nat, nId: int)
      requires Shaped() && nUBucket < NEW_BUCKET_COUNT && nUBucketPos < BUCKET_SIZE && nId in mapInfo && nId != -1
      modifies this, vvNew
      ensures State() == Link(old(State()), Slot(nUBucket, nUBucketPos), nId)
    {
      mapInfo := mapInfo[nId := mapInfo[nId].(nRefCount := mapInfo[nId].nRefCount + 1)];
      Put(vvNew, nUBucket, nUBucketPos, nId);
    }

    /** The last part of Add_: give the entry a reference in a slot of the new table. */
    method InsertEntry(nUBucket: nat, nUBucketPos: nat, nId: int, now: int, ghost flight: set<int>)
      requires Shaped() && Transit(h, State(), flight, 0) && nId in NewIds(State()) && flight <= {nId}
      requires nUBucket < NEW_BUCKET_COUNT && nUBucketPos < BUCKET_SIZE
      modifies this, vvNew
      ensures State() == Insert(h, old(State()), Slot(nUBucket, nUBucketPos), nId, now, flight)
    {
      ghost var t, sl := State(), Slot(nUBucket, nUBucketPos);
      ClearNewKeeps(h, t, sl, flight, 0);
      assert EntryIndexed(t, nId);
      if vvNew[nUBucket, nUBucketPos] != nId {
        var fInsert := vvNew[nUBucket, nUBucketPos] == -1;
        if !fInsert {
          var existing := mapInfo[vvNew[nUBucket, nUBucketPos]];
          if IsTerrible(existing, now) || (existing.nRefCount > 1 && mapInfo[nId].nRefCount == 0) {
            fInsert := true;
          }
        }
        if fInsert {
          ClearKeepsOther(h, t, sl, flight, nId);
          ClearSlot(nUBucket, nUBucketPos);
          LinkEntry(nUBucket, nUBucketPos, nId);
        } else if mapInfo[nId].nRefCount == 0 {
          IndexedRemovable(State(), nId);
          Remove(nId);
        }
      }
    }

    method Add_(addr: Address, source: NetAddr, nTimePenalty: int, now: int, draw: nat) returns (fNew: bool)
      requires Valid()
      modifies this, vvNew
      ensures Valid() && (State(), fNew) == Add(h, old(State()), addr, source, nTimePenalty, now, draw)
    {
      ghost var t := State();
      AddKeeps(h, t, addr, source, nTimePenalty, now, draw);
      fNew := false;
      if !h.routable(addr.service.net) { return; }
      assert addr.service.net in mapAddr ==> AddrIndexed(t, addr.service.net);
      var found, nId := Find(addr.service.net);
      if found {
        RefreshKeeps(h, t, nId, addr, nTimePenalty, now);
        RefreshEntry(nId, addr, nTimePenalty, now);
        var alone := Settled(mapInfo[nId], addr, draw);
        if alone { return; }
      } else {
        FreshKeeps(h, t, addr, source, nTimePenalty);
        nId := FreshEntry(addr, source, nTimePenalty);
        fNew := true;
      }
      var service := mapInfo[nId].addr.service;
      var nUBucket := h.NewBucket(nKey, service, source);
      var nUBucketPos := h.Position(nKey, true, nUBucket, service);
      InsertEntry(nUBucket, nUBucketPos, nId, now, if found then {} else {nId});
    }

    method FreshEntry(addr: Address, source: NetAddr, nTimePenalty: int) returns (nId: int)
      modifies this
      ensures nId == old(nIdCount) && State() == Fresh(old(State()), addr, source, nTimePenalty)
    {
      nId := CreateEntry(addr, source);
      var info := mapInfo[nId];
      mapInfo := mapInfo[nId := info.(addr := info.addr.(nTime := Max(0, info.addr.nTime - nTimePenalty)))];
      nNew := nNew + 1;
    }

    method Attempt_(addr: Service, nTime: int)
      requires Valid()
      modifies this
      ensures Valid() && State() == Step(h, old(State()), AttemptOp(addr, nTime))
    {
      ghost var t := State();
      StepKeeps(h, t, AttemptOp(addr, nTime));
      LookupOk(t, addr);
      var found, nId := Find(addr.net);
      if !found || mapInfo[nId].addr.service != addr { return; }
      mapInfo := mapInfo[nId := mapInfo[nId].(nLastTry := nTime, nAttempts := mapInfo[nId].nAttempts + 1)];
    }

    method Connected_(addr: Service, nTime: int)
      requires Valid()
      modifies this
      ensures Valid() && State() == Step(h, old(State()), ConnectedOp(addr, nTime))
    {
      ghost var t := State();
      StepKeeps(h, t, ConnectedOp(addr, nTime));
      LookupOk(t, addr);
      var found, nId := Find(addr.net);
      if !found || mapInfo[nId].addr.service != addr { return; }
      var info := mapInfo[nId];
      assert t.mapInfo[nId := info] == t.mapInfo;
      if nTime - info.addr.nTime > 20 * 60 {
        mapInfo := mapInfo[nId := info.(addr := info.addr.(nTime := nTime))];
      }
    }

    method SetServices_(addr: Service, nServices: set<nat>)
      requires Valid()
      modifies this
      ensures Valid() && State() == Step(h, old(State()), SetServicesOp(addr, nServices))
    {
      ghost var t := State();
      StepKeeps(h, t, SetServicesOp(addr, nServices));
      LookupOk(t, addr);
      var found, nId := Find(addr.net);
      if !found || mapInfo[nId].addr.service != addr { return; }
      mapInfo := mapInfo[nId := mapInfo[nId].(addr := mapInfo[nId].addr.(nServices := nServices))];
    }

    method GetAddr_(draws: nat -> nat, now: int) returns (vAddr: seq<Address>)
      requires Valid()
      modifies this
      ensures Valid() && (State(), vAddr) == GetAddr(old(State()), draws, now)
    {
      ghost var goal := GetAddr(State(), draws, now);
      assert Consistent(h, goal.0) by { GetAddrResult(h, State(), draws, now); }
      var nNodes := GETADDR_MAX_PCT * |vRandom| / 100;
      if nNodes > GETADDR_MAX { nNodes := GETADDR_MAX; }
      vAddr := [];
      var n := 0;
      while n < |vRandom| && |vAddr| < nNodes
        invariant Indexed(State()) && n <= |vRandom|
        invariant Draw(State(), n, nNodes, draws, now, vAddr) == goal
      {
        vAddr := OfferAt(n, draws(n), now, vAddr);
        n := n + 1;
      }
    }

    /** Brings a random entry to index n and offers its address. */
    method OfferAt(n: nat, draw: nat, now: int, vAddr: seq<Address>) returns (r: seq<Address>)
      requires Indexed(State()) && n < |vRandom|
      modifies this
      ensures State() == Shuffle(old(State()), n, draw) && r == vAddr + Offer(State(), n, now)
    {
      ShuffleAt(n, draw);
      var info := mapInfo[vRandom[n]];
      r := vAddr;
      if !IsTerrible(info, now) {
        r := r + [info.addr];
      }
    }

    method ShuffleAt(n: nat, draw: nat)
      requires Indexed(State()) && n < |vRandom|
      modifies this
      ensures State() == Shuffle(old(State()), n, draw)
    {
      var nRndPos := draw % (|vRandom| - n) + n;
      SwapIndexed(State(), n, nRndPos);
      Swap(n, nRndPos);
    }
  }

  /** How many buckets lie between a start and a bucket, going round. */
  function Distance(start: nat, b: nat): (d: nat)
    requires start < NEW_BUCKET_COUNT && b < NEW_BUCKET_COUNT
    ensures d < NEW_BUCKET_COUNT && (d + start) % NEW_BUCKET_COUNT == b
  {
    if b >= start then b - start else b + NEW_BUCKET_COUNT - start
  }
}
