/** The clock readings an address manager keeps with its entries. The operations write down
    the time they are given without looking at it; the consistency check of the source
    expects none to be negative, and a successful connection on record for every tried
    entry. */
module AddrTimes {
  import opened AddrTables
  import opened AddrUpdates
  import opened AddrOps
  import opened AddrRuns

  predicate InTime(info: AddrInfo) {
    info.nLastTry >= 0 && info.nLastSuccess >= 0 && (info.fInTried ==> info.nLastSuccess != 0)
  }

  predicate Timed(t: Tables) {
    forall n {:trigger InTime(t.mapInfo[n])} | n in t.mapInfo :: InTime(t.mapInfo[n])
  }

  /** What an operation must be told for the times to stay in order. */
  predicate TimeOk(t: Tables, op: Op) {
    match op
    case GoodOp(who, nTime) => Lookup(t, who) in t.mapInfo ==> nTime > 0
    case AttemptOp(who, nTime) => Lookup(t, who) in t.mapInfo ==> nTime >= 0
    case _ => true
  }

  /** Moving entries about, without making any of them tried, keeps their times. */
  lemma TimedCarries(t: Tables, s: Tables)
    requires Timed(t) && s.mapInfo.Keys <= t.mapInfo.Keys && TriedIds(s) <= TriedIds(t)
    requires forall k | k in s.mapInfo :: SameRecord(t.mapInfo[k], s.mapInfo[k])
    ensures Timed(s)
  {
    forall k | k in s.mapInfo ensures InTime(s.mapInfo[k]) {
      assert InTime(t.mapInfo[k]);
      if s.mapInfo[k].fInTried { assert k in TriedIds(s); }
    }
  }

  lemma TimedUpdate(t: Tables, s: Tables, n: int)
    requires Timed(t) && n in s.mapInfo && s.mapInfo == t.mapInfo[n := s.mapInfo[n]]
    ensures Timed(s) <==> InTime(s.mapInfo[n])
  {
    forall k | k in s.mapInfo && k != n ensures InTime(s.mapInfo[k]) { assert InTime(t.mapInfo[k]); }
  }

  lemma InsertTimed(h: Hasher, t: Tables, sl: Slot, n: int, now: int, flight: set<int>)
    requires Transit(h, t, flight, 0) && n in NewIds(t) && flight <= {n} && Timed(t)
    ensures Timed(Insert(h, t, sl, n, now, flight))
  {
    InsertEffect(h, t, sl, n, now, flight);
    TimedCarries(t, Insert(h, t, sl, n, now, flight));
  }

  lemma AddTimed(h: Hasher, t: Tables, addr: Address, source: NetAddr, penalty: int, now: int, draw: nat)
    requires Consistent(h, t) && Timed(t)
    ensures Timed(Add(h, t, addr, source, penalty, now, draw).0)
  {
    var net := addr.service.net;
    if h.routable(net) && net in t.mapAddr {
      assert AddrIndexed(t, net);
      var n := t.mapAddr[net];
      RefreshKeeps(h, t, n, addr, penalty, now);
      var info := Refresh(t.mapInfo[n], addr, penalty, now);
      var s := t.(mapInfo := t.mapInfo[n := info]);
      assert InTime(t.mapInfo[n]);
      TimedUpdate(t, s, n);
      if !LeftAlone(info, addr, draw) { InsertTimed(h, s, h.NewSlot(s.nKey, info.addr.service, source), n, now, {}); }
    } else if h.routable(net) {
      FreshKeeps(h, t, addr, source, penalty);
      var s := Fresh(t, addr, source, penalty);
      TimedUpdate(t, s, t.nIdCount);
      InsertTimed(h, s, h.NewSlot(s.nKey, addr.service, source), t.nIdCount, now, {t.nIdCount});
    }
  }

  lemma MakeTriedTimed(h: Hasher, t: Tables, n: int)
    requires Consistent(h, t) && n in NewIds(t) && Timed(t) && t.mapInfo[n].nLastSuccess != 0
    ensures Timed(MakeTried(h, t, n))
  {
    var s := MakeTried(h, t, n);
    if h.TriedSlot(t.nKey, t.mapInfo[n].addr.service) in t.vvTried { MakeTriedEvicts(h, t, n); } else { MakeTriedPlain(h, t, n); }
    forall k | k in s.mapInfo ensures InTime(s.mapInfo[k]) {
      assert InTime(t.mapInfo[k]);
      if s.mapInfo[k].fInTried { assert k in TriedIds(s); }
    }
  }

  lemma GoodTimed(h: Hasher, t: Tables, who: Service, nTime: int)
    requires Consistent(h, t) && Timed(t)
    ensures Timed(Good(h, t, who, nTime)) <==> (Lookup(t, who) in t.mapInfo ==> nTime > 0)
  {
    GoodReachesTried(h, t, who, nTime);
    var n := Lookup(t, who);
    if n in t.mapInfo {
      var s := t.(mapInfo := t.mapInfo[n := Stamp(t.mapInfo[n], nTime)]);
      RestateKeeps(h, t, n, Stamp(t.mapInfo[n], nTime), {}, 0);
      if nTime > 0 {
        TimedUpdate(t, s, n);
        if n in NewIds(s) { MakeTriedTimed(h, s, n); }
      } else {
        assert !InTime(Good(h, t, who, nTime).mapInfo[n]);
      }
    }
  }

  lemma RestateTimed(t: Tables, who: Service, f: AddrInfo -> AddrInfo)
    requires Timed(t)
    ensures Timed(Restate(t, who, f)) <==> (Lookup(t, who) in t.mapInfo ==> InTime(f(t.mapInfo[Lookup(t, who)])))
  {
    var n := Lookup(t, who);
    if n in t.mapInfo { TimedUpdate(t, Restate(t, who, f), n); }
  }

  /** An operation keeps the times in order exactly if the time it is given for an address
      the manager knows is positive, or at least not negative for an attempt. */
  lemma StepTimed(h: Hasher, t: Tables, op: Op)
    requires Consistent(h, t) && Timed(t)
    ensures Timed(Step(h, t, op)) <==> TimeOk(t, op)
  {
    match op
    case AddOp(addr, source, penalty, now, draw) => AddTimed(h, t, addr, source, penalty, now, draw);
    case GoodOp(who, nTime) => GoodTimed(h, t, who, nTime);
    case AttemptOp(who, nTime) =>
      RestateTimed(t, who, i => Attempted(i, nTime));
      assert Lookup(t, who) in t.mapInfo ==> InTime(t.mapInfo[Lookup(t, who)]);
    case ConnectedOp(who, nTime) =>
      RestateTimed(t, who, i => Noticed(i, nTime));
      assert Lookup(t, who) in t.mapInfo ==> InTime(t.mapInfo[Lookup(t, who)]);
    case SetServicesOp(who, nServices) =>
      RestateTimed(t, who, (i: AddrInfo) => i.(addr := i.addr.(nServices := nServices)));
      assert Lookup(t, who) in t.mapInfo ==> InTime(t.mapInfo[Lookup(t, who)]);
    case GetAddrOp(draws, now) =>
      GetAddrResult(h, t, draws, now);
      SameSets(t, Step(h, t, op), {});
      TimedCarries(t, Step(h, t, op));
  }

  /** Clock readings are positive. */
  predicate Positive(op: Op) {
    op.GoodOp? || op.AttemptOp? ==> op.nTime > 0
  }

  lemma {:induction false} RunTimed(h: Hasher, t: Tables, ops: seq<Op>)
    requires Consistent(h, t) && Timed(t) && forall i | 0 <= i < |ops| :: Positive(ops[i])
    ensures Timed(Run(h, t, ops))
    decreases |ops|
  {
    if ops != [] {
      assert Positive(ops[0]);
      StepKeeps(h, t, ops[0]);
      StepTimed(h, t, ops[0]);
      RunTimed(h, Step(h, t, ops[0]), ops[1..]);
    }
  }
}
