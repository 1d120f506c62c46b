/** Add_, GetAddr_ and the small updates of the address manager, and the invariant over
    every run of its operations from a fresh manager. */
module AddrRuns {
  import opened Bits
  import opened Common
  import opened AddrTables
  import opened AddrUpdates
  import opened AddrOps

  // ----- Add_ -----

  /** The refresh of nTime and nServices of an entry already known. */
  function Refresh(info: AddrInfo, addr: Address, penalty: int, now: int): AddrInfo {
    var interval := if now - addr.nTime < 24 * 60 * 60 then 60 * 60 else 24 * 60 * 60;
    var nTime :=
      if addr.nTime != 0 && (info.addr.nTime == 0 || info.addr.nTime < addr.nTime - interval - penalty)
      then Max(0, addr.nTime - penalty) else info.addr.nTime;
    info.(addr := info.addr.(nTime := nTime, nServices := info.addr.nServices + addr.nServices))
  }

  /** No new information, tried already, enough references, or unlucky. */
  predicate LeftAlone(info: AddrInfo, addr: Address, draw: nat) {
    || addr.nTime == 0 || (info.addr.nTime != 0 && addr.nTime <= info.addr.nTime)
    || info.fInTried
    || info.nRefCount == NEW_BUCKETS_PER_ADDRESS
    || (Pow2(Max(0, info.nRefCount)) > 1 && draw % Pow2(Max(0, info.nRefCount)) != 0)
  }

  /** May entry n take over this slot of the new table? */
  predicate MayTake(t: Tables, sl: Slot, n: int, now: int)
    requires n in t.mapInfo && (sl in t.vvNew ==> t.vvNew[sl] in t.mapInfo)
  {
    sl in t.vvNew ==>
      var held := t.mapInfo[t.vvNew[sl]];
      IsTerrible(held, now) || (held.nRefCount > 1 && t.mapInfo[n].nRefCount == 0)
  }

  /** Give entry n a reference in a slot, if the slot is free or its occupant weaker. */
  function Insert(h: Hasher, t: Tables, sl: Slot, n: int, now: int, ghost flight: set<int>): Tables
    requires Transit(h, t, flight, 0) && n in NewIds(t) && flight <= {n}
  {
    ClearNewKeeps(h, t, sl, flight, 0);
    if sl in t.vvNew && t.vvNew[sl] == n then t
    else if MayTake(t, sl, n, now) then
      ClearKeepsOther(h, t, sl, flight, n);
      Link(ClearNew(t, sl), sl, n)
    else if t.mapInfo[n].nRefCount == 0 then
      IndexedRemovable(t, n);
      Delete(t, n)
    else t
  }

  lemma ClearKeepsOther(h: Hasher, t: Tables, sl: Slot, flight: set<int>, n: int)
    requires Transit(h, t, flight, 0) && n in NewIds(t) && (sl in t.vvNew ==> t.vvNew[sl] != n)
    ensures sl in t.vvNew ==>
      var k := t.vvNew[sl]; k in t.mapInfo && !t.mapInfo[k].fInTried && t.mapInfo[k].nRefCount > 0
    ensures var s := ClearNew(t, sl); n in NewIds(s) && SameEntry(t.mapInfo[n], s.mapInfo[n]) && s.nKey == t.nKey
  {
    ClearNewKeeps(h, t, sl, flight, 0);
  }

  lemma InsertKeeps(h: Hasher, t: Tables, sl: Slot, n: int, now: int, flight: set<int>)
    requires Transit(h, t, flight, 0) && n in NewIds(t) && flight <= {n}
    requires t.mapInfo[n].nRefCount < NEW_BUCKETS_PER_ADDRESS
    requires sl.bucket < NEW_BUCKET_COUNT
    requires sl.pos == h.Position(t.nKey, true, sl.bucket, t.mapInfo[n].addr.service)
    ensures Consistent(h, Insert(h, t, sl, n, now, flight))
  {
    ClearNewKeeps(h, t, sl, flight, 0);
    assert NewEntryOk(t, n, flight);
    if sl in t.vvNew && t.vvNew[sl] == n {
      assert flight == {};
    } else if MayTake(t, sl, n, now) {
      ClearKeepsOther(h, t, sl, flight, n);
      LinkKeeps(h, ClearNew(t, sl), sl, n, flight, 0);
      assert flight - {n} == {};
    } else if t.mapInfo[n].nRefCount == 0 {
      DeleteKeeps(h, t, n, flight, 0);
      assert flight - {n} == {};
    } else {
      assert flight == {};
    }
  }

  function Add(h: Hasher, t: Tables, addr: Address, source: NetAddr, penalty: int, now: int, draw: nat): (Tables, bool)
    requires Consistent(h, t)
  {
    var net := addr.service.net;
    if !h.routable(net) then (t, false)
    else if net in t.mapAddr then
      assert AddrIndexed(t, net);
      var n := t.mapAddr[net];
      RefreshKeeps(h, t, n, addr, penalty, now);
      var info := Refresh(t.mapInfo[n], addr, penalty, now);
      var s := t.(mapInfo := t.mapInfo[n := info]);
      if LeftAlone(info, addr, draw) then (s, false)
      else (Insert(h, s, h.NewSlot(s.nKey, info.addr.service, source), n, now, {}), false)
    else
      FreshKeeps(h, t, addr, source, penalty);
      var s := Fresh(t, addr, source, penalty);
      (Insert(h, s, h.NewSlot(s.nKey, addr.service, source), t.nIdCount, now, {t.nIdCount}), true)
  }

  lemma RefreshKeeps(h: Hasher, t: Tables, n: int, addr: Address, penalty: int, now: int)
    requires Consistent(h, t) && n in t.mapInfo
    ensures var s := t.(mapInfo := t.mapInfo[n := Refresh(t.mapInfo[n], addr, penalty, now)]);
      Consistent(h, s) && NewIds(s) == NewIds(t) && TriedIds(s) == TriedIds(t)
  {
    assert n in TriedIds(t) ==> TriedEntryOk(h, t, n);
    RestateKeeps(h, t, n, Refresh(t.mapInfo[n], addr, penalty, now), {}, 0);
  }

  /** The new entry, not yet in any bucket. */
  function Fresh(t: Tables, addr: Address, source: NetAddr, penalty: int): Tables {
    var s := Create(t, addr, source);
    var info := s.mapInfo[t.nIdCount];
    s.(mapInfo := s.mapInfo[t.nIdCount := info.(addr := addr.(nTime := Max(0, addr.nTime - penalty)))], nNew := s.nNew + 1)
  }

  lemma FreshKeeps(h: Hasher, t: Tables, addr: Address, source: NetAddr, penalty: int)
    requires Consistent(h, t) && addr.service.net !in t.mapAddr
    ensures var s := Fresh(t, addr, source, penalty);
      && Transit(h, s, {t.nIdCount}, 0) && t.nIdCount in NewIds(s) && s.mapInfo[t.nIdCount].nRefCount == 0
      && s.mapInfo[t.nIdCount].addr.service == addr.service
  {
    CreateKeeps(h, t, addr, source);
    var c := Create(t, addr, source);
    var m := c.(nNew := c.nNew + 1);
    var info := c.mapInfo[t.nIdCount];
    RestateKeeps(h, m, t.nIdCount, info.(addr := addr.(nTime := Max(0, addr.nTime - penalty))), {t.nIdCount}, 0);
  }

  lemma AddKeeps(h: Hasher, t: Tables, addr: Address, source: NetAddr, penalty: int, now: int, draw: nat)
    requires Consistent(h, t)
    ensures Consistent(h, Add(h, t, addr, source, penalty, now, draw).0)
  {
    var net := addr.service.net;
    if h.routable(net) && net in t.mapAddr {
      assert AddrIndexed(t, net);
      var n := t.mapAddr[net];
      RefreshKeeps(h, t, n, addr, penalty, now);
      var info := Refresh(t.mapInfo[n], addr, penalty, now);
      var s := t.(mapInfo := t.mapInfo[n := info]);
      if !LeftAlone(info, addr, draw) {
        assert NewEntryOk(s, n, {});
        InsertKeeps(h, s, h.NewSlot(s.nKey, info.addr.service, source), n, now, {});
      }
    } else if h.routable(net) {
      FreshKeeps(h, t, addr, source, penalty);
      var s := Fresh(t, addr, source, penalty);
      InsertKeeps(h, s, h.NewSlot(s.nKey, addr.service, source), t.nIdCount, now, {t.nIdCount});
    }
  }

  /** Clearing a slot forgets exactly the entry whose only reference was there. */
  lemma ClearEffect(h: Hasher, t: Tables, sl: Slot, flight: set<int>)
    requires Transit(h, t, flight, 0)
    ensures sl in t.vvNew ==>
      var k := t.vvNew[sl]; k in t.mapInfo && !t.mapInfo[k].fInTried && t.mapInfo[k].nRefCount > 0
    ensures var c := ClearNew(t, sl);
      && TriedIds(c) == TriedIds(t) && c.mapInfo.Keys == t.mapInfo.Keys - Sole(t, sl)
      && (forall k | k in c.mapInfo :: SameRecord(t.mapInfo[k], c.mapInfo[k]))
  {
    ClearNewKeeps(h, t, sl, flight, 0);
    if sl in t.vvNew {
      var n := t.vvNew[sl];
      if t.mapInfo[n].nRefCount == 1 {
        SameSets(t, ClearNew(t, sl), {n});
      } else {
        assert TriedIds(Unlink(t, sl)) == TriedIds(t);
      }
    }
  }

  /** Inserting loses at most the entry whose only reference was in the slot, and only if
      it is terrible; the inserted entry itself is lost if it had no reference and got none. */
  lemma InsertEffect(h: Hasher, t: Tables, sl: Slot, n: int, now: int, flight: set<int>)
    requires Transit(h, t, flight, 0) && n in NewIds(t) && flight <= {n}
    ensures sl in t.vvNew ==> t.vvNew[sl] in t.mapInfo
    ensures var s := Insert(h, t, sl, n, now, flight);
      && TriedIds(s) == TriedIds(t) && s.mapInfo.Keys <= t.mapInfo.Keys
      && (forall k | k in t.mapInfo && k !in s.mapInfo && k != n :: k in Sole(t, sl) && IsTerrible(t.mapInfo[k], now))
      && (forall k | k in s.mapInfo :: SameRecord(t.mapInfo[k], s.mapInfo[k]))
      && (n in s.mapInfo <==> t.mapInfo[n].nRefCount > 0 || MayTake(t, sl, n, now))
  {
    ClearNewKeeps(h, t, sl, flight, 0);
    assert NewEntryOk(t, n, flight);
    if sl in t.vvNew && t.vvNew[sl] == n {
      assert sl in Refs(t.vvNew, n);
    } else if MayTake(t, sl, n, now) {
      TakeEffect(h, t, sl, n, now, flight);
    } else if t.mapInfo[n].nRefCount == 0 {
      DeleteKeeps(h, t, n, flight, 0);
      SameSets(t, Delete(t, n), {n});
    }
  }

  lemma TakeEffect(h: Hasher, t: Tables, sl: Slot, n: int, now: int, flight: set<int>)
    requires Transit(h, t, flight, 0) && n in NewIds(t) && flight <= {n} && (sl in t.vvNew ==> t.vvNew[sl] in t.mapInfo && t.vvNew[sl] != n)
    requires MayTake(t, sl, n, now)
    ensures var s := Insert(h, t, sl, n, now, flight);
      && TriedIds(s) == TriedIds(t) && s.mapInfo.Keys == t.mapInfo.Keys - Sole(t, sl) && n in s.mapInfo
      && (forall k | k in Sole(t, sl) :: IsTerrible(t.mapInfo[k], now))
      && (forall k | k in s.mapInfo :: SameRecord(t.mapInfo[k], s.mapInfo[k]))
  {
    ClearEffect(h, t, sl, flight);
    ClearKeepsOther(h, t, sl, flight, n);
    var c := ClearNew(t, sl);
    assert TriedIds(Link(c, sl, n)) == TriedIds(c);
  }

  /** Add_ reports an address as new exactly if it is routable and was not known, never
      touches the tried set, forgets only terrible entries, and keeps what it already
      knew of the address; a new address is kept exactly if its slot could be taken. */
  lemma AddEffect(h: Hasher, t: Tables, addr: Address, source: NetAddr, penalty: int, now: int, draw: nat)
    requires Consistent(h, t)
    ensures var (s, fNew) := Add(h, t, addr, source, penalty, now, draw);
      var net := addr.service.net;
      && (fNew <==> h.routable(net) && net !in t.mapAddr)
      && TriedIds(s) == TriedIds(t)
      && s.mapInfo.Keys <= t.mapInfo.Keys + {t.nIdCount}
      && (forall k | k in t.mapInfo && k !in s.mapInfo :: t.mapInfo[k].nRefCount == 1 && IsTerrible(t.mapInfo[k], now))
      && (net in t.mapAddr ==> t.mapAddr[net] in s.mapInfo)
  {
    var net := addr.service.net;
    if h.routable(net) && net in t.mapAddr {
      assert AddrIndexed(t, net);
      var n := t.mapAddr[net];
      RefreshKeeps(h, t, n, addr, penalty, now);
      var info := Refresh(t.mapInfo[n], addr, penalty, now);
      var s := t.(mapInfo := t.mapInfo[n := info]);
      if !LeftAlone(info, addr, draw) {
        assert NewEntryOk(s, n, {});
        InsertEffect(h, s, h.NewSlot(s.nKey, info.addr.service, source), n, now, {});
      }
    } else if h.routable(net) {
      FreshKeeps(h, t, addr, source, penalty);
      CreateKeeps(h, t, addr, source);
      var s := Fresh(t, addr, source, penalty);
      assert TriedIds(s) == TriedIds(t);
      InsertEffect(h, s, h.NewSlot(s.nKey, addr.service, source), t.nIdCount, now, {t.nIdCount});
    } else {
      assert net in t.mapAddr ==> AddrIndexed(t, net);
    }
  }

  // ----- GetAddr_ -----

  const GETADDR_MAX_PCT: nat := 23
  const GETADDR_MAX: nat := 2500

  function Limit(t: Tables): nat {
    var n := GETADDR_MAX_PCT * |t.vRandom| / 100;
    if n > GETADDR_MAX then GETADDR_MAX else n
  }

  /** Bring a random entry, of those at index k or later, to index k. */
  function Shuffle(t: Tables, k: nat, draw: nat): (s: Tables)
    requires Indexed(t) && k < |t.vRandom|
    ensures Indexed(s) && |s.vRandom| == |t.vRandom| && s.vRandom[k] in s.mapInfo
  {
    var j := draw % (|t.vRandom| - k) + k;
    SwapIndexed(t, k, j);
    assert PlaceIndexed(SwapRandom(t, k, j), k);
    SwapRandom(t, k, j)
  }

  /** The address at index k, unless its entry is terrible. */
  function Offer(t: Tables, k: nat, now: int): seq<Address>
    requires k < |t.vRandom| && t.vRandom[k] in t.mapInfo
  {
    var info := t.mapInfo[t.vRandom[k]];
    if IsTerrible(info, now) then [] else [info.addr]
  }

  /** The loop of GetAddr_ from index k on. */
  function Draw(t: Tables, k: nat, limit: nat, draws: nat -> nat, now: int, out: seq<Address>): (Tables, seq<Address>)
    requires Indexed(t)
    decreases |t.vRandom| - k
  {
    if k >= |t.vRandom| || |out| >= limit then (t, out) else
      var s := Shuffle(t, k, draws(k));
      Draw(s, k + 1, limit, draws, now, out + Offer(s, k, now))
  }

  function GetAddr(t: Tables, draws: nat -> nat, now: int): (Tables, seq<Address>)
    requires Indexed(t)
  {
    Draw(t, 0, Limit(t), draws, now, [])
  }

  /** The addresses of the first k entries of vRandom that are not terrible. */
  function Decent(t: Tables, k: nat, now: int): (out: seq<Address>)
    requires Indexed(t) && k <= |t.vRandom|
  {
    if k == 0 then [] else
      assert PlaceIndexed(t, k - 1);
      Decent(t, k - 1, now) + Offer(t, k - 1, now)
  }

  lemma {:induction false} DecentPrefix(t: Tables, s: Tables, k: nat, now: int)
    requires Indexed(t) && Indexed(s) && k <= |t.vRandom| && k <= |s.vRandom|
    requires t.vRandom[..k] == s.vRandom[..k] && Frame(t, s, {})
    ensures Decent(t, k, now) == Decent(s, k, now)
  {
    if k > 0 {
      assert t.vRandom[..k][k - 1] == s.vRandom[..k][k - 1] && t.vRandom[..k - 1] == t.vRandom[..k][..k - 1];
      DecentPrefix(t, s, k - 1, now);
      assert PlaceIndexed(t, k - 1);
      var n := s.vRandom[k - 1];
      assert SameEntry(t.mapInfo[n], s.mapInfo[n]) by { assert n in s.mapInfo; }
    }
  }

  lemma DrawStep(t: Tables, k: nat, draw: nat, now: int)
    requires Indexed(t) && k < |t.vRandom|
    ensures var s := Shuffle(t, k, draw);
      Frame(t, s, {}) && Decent(s, k + 1, now) == Decent(t, k, now) + Offer(s, k, now)
  {
    var j := draw % (|t.vRandom| - k) + k;
    SwapIndexed(t, k, j);
    var s := SwapRandom(t, k, j);
    assert t.vRandom[..k] == s.vRandom[..k];
    DecentPrefix(t, s, k, now);
  }

  /** What the drawing loop returns: m places of vRandom were drawn, and the answer is the
      decent addresses among them. */
  lemma {:induction false} DrawResult(t: Tables, k: nat, limit: nat, draws: nat -> nat, now: int, out: seq<Address>)
    returns (m: nat)
    requires Indexed(t) && k <= |t.vRandom| && out == Decent(t, k, now) && |out| <= limit
    ensures var s := Draw(t, k, limit, draws, now, out).0;
      Indexed(s) && Frame(t, s, {}) && k <= m <= |s.vRandom| == |t.vRandom|
    ensures var (s, res) := Draw(t, k, limit, draws, now, out);
      res == Decent(s, m, now) && |res| <= limit && (m == |s.vRandom| || |res| == limit)
    decreases |t.vRandom| - k
  {
    if k >= |t.vRandom| || |out| >= limit {
      m := k;
    } else {
      DrawStep(t, k, draws(k), now);
      var s := Shuffle(t, k, draws(k));
      m := DrawResult(s, k + 1, limit, draws, now, Decent(s, k + 1, now));
      FrameTrans(t, s, Draw(s, k + 1, limit, draws, now, Decent(s, k + 1, now)).0);
    }
  }

  lemma FrameTrans(t: Tables, s: Tables, r: Tables)
    requires Frame(t, s, {}) && Frame(s, r, {})
    ensures Frame(t, r, {})
  {
  }

  lemma {:induction false} DrawKeeps(h: Hasher, t: Tables, k: nat, limit: nat, draws: nat -> nat, now: int, out: seq<Address>)
    requires Consistent(h, t)
    ensures var s := Draw(t, k, limit, draws, now, out).0; Consistent(h, s) && s.vvNew == t.vvNew
    decreases |t.vRandom| - k
  {
    if k < |t.vRandom| && |out| < limit {
      var j := draws(k) % (|t.vRandom| - k) + k;
      SwapKeeps(h, t, k, j, {}, 0);
      var s := Shuffle(t, k, draws(k));
      DrawKeeps(h, s, k + 1, limit, draws, now, out + Offer(s, k, now));
    }
  }

  /** Every address given out belongs to a known entry that is not terrible. */
  lemma {:induction false} DecentMember(t: Tables, k: nat, now: int, i: nat) returns (p: nat)
    requires Indexed(t) && k <= |t.vRandom| && i < |Decent(t, k, now)|
    ensures p < k && t.vRandom[p] in t.mapInfo
    ensures var info := t.mapInfo[t.vRandom[p]]; info.addr == Decent(t, k, now)[i] && !IsTerrible(info, now)
  {
    assert PlaceIndexed(t, k - 1);
    if i < |Decent(t, k - 1, now)| {
      p := DecentMember(t, k - 1, now, i);
    } else {
      p := k - 1;
    }
  }

  /** No address is given out twice. */
  lemma {:induction false} DecentDistinct(t: Tables, k: nat, now: int, i: nat, j: nat)
    requires Indexed(t) && k <= |t.vRandom| && i < j < |Decent(t, k, now)|
    ensures Decent(t, k, now)[i].service.net != Decent(t, k, now)[j].service.net
  {
    if j < |Decent(t, k - 1, now)| {
      DecentDistinct(t, k - 1, now, i, j);
    } else {
      var p := DecentMember(t, k - 1, now, i);
      assert PlaceIndexed(t, p) && PlaceIndexed(t, k - 1);
      var a, b := t.vRandom[p], t.vRandom[k - 1];
      assert EntryIndexed(t, a) && EntryIndexed(t, b);
    }
  }

  /** The address of some known entry that is not terrible. */
  ghost predicate Presentable(t: Tables, a: Address, now: int) {
    exists n :: n in t.mapInfo && t.mapInfo[n].addr == a && !IsTerrible(t.mapInfo[n], now)
  }

  /** GetAddr_ only reorders vRandom; it gives out at most 23 percent of the known
      addresses and at most 2500, no network address twice, none of them terrible. */
  lemma GetAddrResult(h: Hasher, t: Tables, draws: nat -> nat, now: int)
    requires Consistent(h, t)
    ensures var s := GetAddr(t, draws, now).0; Consistent(h, s) && Frame(t, s, {}) && s.vvNew == t.vvNew
    ensures var res := GetAddr(t, draws, now).1;
      && |res| <= 2500 && 100 * |res| <= 23 * |t.mapInfo|
      && (forall i | 0 <= i < |res| :: Presentable(t, res[i], now))
      && (forall i, j | 0 <= i < j < |res| :: res[i].service.net != res[j].service.net)
  {
    DrawKeeps(h, t, 0, Limit(t), draws, now, []);
    var m := DrawResult(t, 0, Limit(t), draws, now, []);
    DecentKnown(t, GetAddr(t, draws, now).0, m, now);
    PlacesCount(t);
  }

  lemma DecentKnown(t: Tables, s: Tables, m: nat, now: int)
    requires Indexed(s) && Frame(t, s, {}) && m <= |s.vRandom|
    ensures var res := Decent(s, m, now);
      && (forall i | 0 <= i < |res| :: Presentable(t, res[i], now))
      && (forall i, j | 0 <= i < j < |res| :: res[i].service.net != res[j].service.net)
  {
    var res := Decent(s, m, now);
    forall i | 0 <= i < |res| ensures Presentable(t, res[i], now) {
      var p := DecentMember(s, m, now, i);
      var n := s.vRandom[p];
      assert n in s.mapInfo && SameEntry(t.mapInfo[n], s.mapInfo[n]);
    }
    forall i, j | 0 <= i < j < |res| ensures res[i].service.net != res[j].service.net { DecentDistinct(s, m, now, i, j); }
  }

  function Elements(s: seq<int>): set<int> { set n | n in s }

  /** vRandom lists every known id once. */
  lemma PlacesCount(t: Tables)
    requires Indexed(t)
    ensures |t.vRandom| == |t.mapInfo|
  {
    PrefixCount(t, |t.vRandom|);
    assert t.vRandom[..|t.vRandom|] == t.vRandom;
    forall n | n in t.mapInfo ensures n in t.vRandom { assert EntryIndexed(t, n); }
    forall n | n in t.vRandom ensures n in t.mapInfo { var i :| 0 <= i < |t.vRandom| && t.vRandom[i] == n; assert PlaceIndexed(t, i); }
    assert Elements(t.vRandom) == t.mapInfo.Keys;
  }

  lemma {:induction false} PrefixCount(t: Tables, k: nat)
    requires Indexed(t) && k <= |t.vRandom|
    ensures |Elements(t.vRandom[..k])| == k
  {
    if k > 0 {
      PrefixCount(t, k - 1);
      var last := t.vRandom[k - 1];
      assert PlaceIndexed(t, k - 1);
      forall i | 0 <= i < k - 1 ensures t.vRandom[i] != last { assert PlaceIndexed(t, i); }
      assert t.vRandom[..k] == t.vRandom[..k - 1] + [last];
      assert Elements(t.vRandom[..k]) == Elements(t.vRandom[..k - 1]) + {last};
    }
  }

  // ----- Runs -----

  datatype Op =
    | AddOp(addr: Address, source: NetAddr, penalty: int, now: int, draw: nat)
    | GoodOp(who: Service, nTime: int)
    | AttemptOp(who: Service, nTime: int)
    | ConnectedOp(who: Service, nTime: int)
    | SetServicesOp(who: Service, nServices: set<nat>)
    | GetAddrOp(draws: nat -> nat, now: int)

  function Attempted(info: AddrInfo, nTime: int): AddrInfo {
    info.(nLastTry := nTime, nAttempts := info.nAttempts + 1)
  }

  function Noticed(info: AddrInfo, nTime: int): AddrInfo {
    if nTime - info.addr.nTime > 20 * 60 then info.(addr := info.addr.(nTime := nTime)) else info
  }

  function Restate(t: Tables, who: Service, f: AddrInfo -> AddrInfo): Tables {
    var n := Lookup(t, who);
    if n in t.mapInfo then t.(mapInfo := t.mapInfo[n := f(t.mapInfo[n])]) else t
  }

  function Step(h: Hasher, t: Tables, op: Op): Tables
    requires Consistent(h, t)
  {
    match op
    case AddOp(addr, source, penalty, now, draw) => Add(h, t, addr, source, penalty, now, draw).0
    case GoodOp(who, nTime) => Good(h, t, who, nTime)
    case AttemptOp(who, nTime) => Restate(t, who, i => Attempted(i, nTime))
    case ConnectedOp(who, nTime) => Restate(t, who, i => Noticed(i, nTime))
    case SetServicesOp(who, nServices) => Restate(t, who, (i: AddrInfo) => i.(addr := i.addr.(nServices := nServices)))
    case GetAddrOp(draws, now) => GetAddr(t, draws, now).0
  }

  lemma RestateLookup(h: Hasher, t: Tables, who: Service, f: AddrInfo -> AddrInfo)
    requires Consistent(h, t)
    requires forall n | n in t.mapInfo :: Restated(t.mapInfo[n], f(t.mapInfo[n]))
    ensures Consistent(h, Restate(t, who, f)) && TriedIds(Restate(t, who, f)) == TriedIds(t)
    ensures Restate(t, who, f).mapInfo.Keys == t.mapInfo.Keys
  {
    var n := Lookup(t, who);
    if n in t.mapInfo { RestateKeeps(h, t, n, f(t.mapInfo[n]), {}, 0); }
  }

  /** Every operation keeps the invariant, and none forgets an address that is tried. */
  lemma StepKeeps(h: Hasher, t: Tables, op: Op)
    requires Consistent(h, t)
    ensures Consistent(h, Step(h, t, op))
    ensures TriedIds(t) <= Step(h, t, op).mapInfo.Keys
  {
    match op
    case AddOp(addr, source, penalty, now, draw) =>
      AddKeeps(h, t, addr, source, penalty, now, draw);
      AddEffect(h, t, addr, source, penalty, now, draw);
    case GoodOp(who, nTime) =>
      GoodReachesTried(h, t, who, nTime);
      GoodForgets(h, t, who, nTime);
    case AttemptOp(who, nTime) => RestateLookup(h, t, who, i => Attempted(i, nTime));
    case ConnectedOp(who, nTime) => RestateLookup(h, t, who, i => Noticed(i, nTime));
    case SetServicesOp(who, nServices) =>
      RestateLookup(h, t, who, (i: AddrInfo) => i.(addr := i.addr.(nServices := nServices)));
    case GetAddrOp(draws, now) => GetAddrResult(h, t, draws, now);
  }

  lemma MakeTriedForgets(h: Hasher, t: Tables, n: int)
    requires Consistent(h, t) && n in NewIds(t)
    ensures TriedIds(t) <= MakeTried(h, t, n).mapInfo.Keys && |t.mapInfo.Keys - MakeTried(h, t, n).mapInfo.Keys| <= 1
  {
    if h.TriedSlot(t.nKey, t.mapInfo[n].addr.service) in t.vvTried {
      MakeTriedEvicts(h, t, n);
      var s, e := MakeTried(h, t, n), t.vvTried[h.TriedSlot(t.nKey, t.mapInfo[n].addr.service)];
      assert TriedIds(t) <= TriedIds(s) + {e};
    } else {
      MakeTriedPlain(h, t, n);
      assert t.mapInfo.Keys - MakeTried(h, t, n).mapInfo.Keys == {};
    }
  }

  lemma GoodForgets(h: Hasher, t: Tables, who: Service, nTime: int)
    requires Consistent(h, t)
    ensures TriedIds(t) <= Good(h, t, who, nTime).mapInfo.Keys
    ensures |t.mapInfo.Keys - Good(h, t, who, nTime).mapInfo.Keys| <= 1
  {
    var n := Lookup(t, who);
    if n in t.mapInfo {
      var s := t.(mapInfo := t.mapInfo[n := Stamp(t.mapInfo[n], nTime)]);
      RestateKeeps(h, t, n, Stamp(t.mapInfo[n], nTime), {}, 0);
      assert s.mapInfo.Keys == t.mapInfo.Keys;
      assert t.mapInfo.Keys - s.mapInfo.Keys == {};
      if n in NewIds(s) { MakeTriedForgets(h, s, n); }
    }
  }

  function Run(h: Hasher, t: Tables, ops: seq<Op>): (s: Tables)
    requires Consistent(h, t)
    ensures Consistent(h, s)
    decreases |ops|
  {
    if ops == [] then t else
      StepKeeps(h, t, ops[0]);
      Run(h, Step(h, t, ops[0]), ops[1..])
  }

  /** The whole consistency check holds after every run from a fresh manager. */
  lemma RunConsistent(h: Hasher, key: nat, ops: seq<Op>)
    ensures Consistent(h, Empty(key)) && Consistent(h, Run(h, Empty(key), ops))
  {
    assert TriedIds(Empty(key)) == {} && NewIds(Empty(key)) == {};
  }
}
