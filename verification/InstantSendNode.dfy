/** CInstantSend as the source has it: an object that updates its maps in place. Every
    method is proved equal to the corresponding step on the state as a value. */
module InstantSendNodes {
  import opened Common
  import opened InstantSend
  import opened InstantSendLists

  // ----- Loops over maps -----

  method IsAllOutPointsReady(c: Candidate) returns (r: bool)
    ensures r == c.IsAllOutPointsReady()
  {
    if c.locks == map[] { return false; }
    var todo := c.locks.Keys;
    while todo != {}
      invariant todo <= c.locks.Keys && forall o | o in c.locks && o !in todo :: c.locks[o].IsReady()
      decreases todo
    {
      var o :| o in todo;
      if !c.locks[o].IsReady() { return false; }
      todo := todo - {o};
    }
    r := true;
  }

  /** Count orphan votes for a transaction and an outpoint up to the number required. */
  method EnoughFor(orphans: map<Vote, int>, tx: TxHash, o: OutPoint) returns (r: bool)
    ensures r <==> |OrphansFor(orphans, tx, o)| >= SIGNATURES_REQUIRED
  {
    ghost var all := OrphansFor(orphans, tx, o);
    var nCountVotes := 0;
    var todo := orphans.Keys;
    while todo != {}
      invariant todo <= orphans.Keys && nCountVotes == |all - todo| && nCountVotes < SIGNATURES_REQUIRED
      decreases todo
    {
      var v :| v in todo;
      if v.tx == tx && v.outpoint == o {
        assert all - (todo - {v}) == (all - todo) + {v};
        nCountVotes := nCountVotes + 1;
        if nCountVotes >= SIGNATURES_REQUIRED {
          assert all == (all - (todo - {v})) + (all * (todo - {v}));
          return true;
        }
      } else {
        assert all - (todo - {v}) == all - todo;
      }
      todo := todo - {v};
    }
    assert all - todo == all;
    r := false;
  }

  method EnoughForAll(s: map<Vote, int>, r: Request) returns (enough: bool)
    ensures enough <==> forall o | o in r.vin :: |OrphansFor(s, r.hash, o)| >= SIGNATURES_REQUIRED
  {
    for i := 0 to |r.vin|
      invariant forall j | 0 <= j < i :: |OrphansFor(s, r.hash, r.vin[j])| >= SIGNATURES_REQUIRED
    {
      enough := EnoughFor(s, r.hash, r.vin[i]);
      if !enough { return; }
    }
    enough := true;
  }

  lemma MarkMore(cs: map<TxHash, Candidate>, hs: set<TxHash>, h: TxHash, o: OutPoint)
    requires h in cs
    ensures MarkAll(cs, hs + {h}, o) == MarkAll(cs, hs, o)[h := MarkAll(cs, hs, o)[h].MarkAsAttacked(o)]
  {
    var c := cs[h].MarkAsAttacked(o);
    assert c.MarkAsAttacked(o).locks == c.locks;
  }

  class InstantSendNode {
    var nCachedBlockHeight: int
    var mapLockRequestAccepted: map<TxHash, Request>
    var mapLockRequestRejected: map<TxHash, Request>
    var mapTxLockVotesOrphan: map<Vote, int>
    var mapTxLockCandidates: map<TxHash, Candidate>
    var mapVotedOutpoints: map<OutPoint, set<TxHash>>
    var mapLockedOutpoints: map<OutPoint, TxHash>
    ghost var forgotten: set<OutPoint>

    ghost function State(): Node
      reads this
    {
      Node(mapTxLockCandidates, mapVotedOutpoints, mapLockedOutpoints, mapLockRequestAccepted, mapLockRequestRejected,
           mapTxLockVotesOrphan, nCachedBlockHeight, forgotten)
    }

    constructor ()
      ensures State() == Fresh()
    {
      nCachedBlockHeight := 0;
      mapLockRequestAccepted, mapLockRequestRejected, mapTxLockVotesOrphan := map[], map[], map[];
      mapTxLockCandidates, mapVotedOutpoints, mapLockedOutpoints, forgotten := map[], map[], map[], {};
    }

    method IsLockedInstantSendTransaction(tx: TxHash) returns (r: bool)
      ensures r == IsLocked(State(), tx)
    {
      if tx !in mapTxLockCandidates || mapTxLockCandidates[tx].locks == map[] { return false; }
      var locks := mapTxLockCandidates[tx].locks;
      var todo := locks.Keys;
      while todo != {}
        invariant todo <= locks.Keys
        invariant forall o | o in locks && o !in todo :: o in mapLockedOutpoints && mapLockedOutpoints[o] == tx
        decreases todo
      {
        var o :| o in todo;
        if o !in mapLockedOutpoints || mapLockedOutpoints[o] != tx { return false; }
        todo := todo - {o};
      }
      r := true;
    }

    method LockTransactionInputs(tx: TxHash, c: Candidate)
      modifies this
      ensures State() == old(State()).(locked := LockAll(old(State()).locked, c.locks.Keys, tx))
    {
      ghost var before := mapLockedOutpoints;
      var todo := c.locks.Keys;
      while todo != {}
        invariant todo <= c.locks.Keys
        invariant mapLockedOutpoints == LockAll(before, c.locks.Keys - todo, tx)
        invariant State() == old(State()).(locked := mapLockedOutpoints)
        decreases todo
      {
        var o :| o in todo;
        if o !in mapLockedOutpoints { mapLockedOutpoints := mapLockedOutpoints[o := tx]; }
        todo := todo - {o};
      }
      assert c.locks.Keys - todo == c.locks.Keys;
    }

    /** Drop a candidate, and what is known of its outpoints and its request. */
    method DropCandidate(h: TxHash)
      requires h in mapTxLockCandidates
      modifies this
      ensures State() == WithoutOne(old(State()), h, old(mapTxLockCandidates[h]))
    {
      var c := mapTxLockCandidates[h];
      mapLockedOutpoints := mapLockedOutpoints - c.locks.Keys;
      mapVotedOutpoints := mapVotedOutpoints - c.locks.Keys;
      if c.request.Some? {
        mapLockRequestAccepted := mapLockRequestAccepted - {c.request.value.hash};
        mapLockRequestRejected := mapLockRequestRejected - {c.request.value.hash};
      }
      mapTxLockCandidates := mapTxLockCandidates - {h};
      forgotten := forgotten + c.locks.Keys;
    }

    method RemoveExpired(w: World)
      modifies this
      ensures State() == Without(old(State()), Expired(old(State()), w))
    {
      ghost var s := State();
      var todo := mapTxLockCandidates.Keys;
      ghost var gone := Expired(s, w) - todo;
      WithoutNone(s, gone);
      while todo != {}
        invariant todo <= s.candidates.Keys && gone == Expired(s, w) - todo
        invariant State() == Without(s, gone)
        decreases todo
      {
        var h :| h in todo;
        assert mapTxLockCandidates[h] == s.candidates[h];
        if mapTxLockCandidates[h].IsExpired(nCachedBlockHeight, w.keepLock) {
          WithoutMore(s, gone, h);
          DropCandidate(h);
          gone := gone + {h};
        }
        todo := todo - {h};
      }
      assert gone == Expired(s, w);
    }

    method CheckAndRemoveAll(w: World)
      modifies this
      ensures State() == CheckAndRemove(old(State()), w)
    {
      if !w.synced { return; }
      RemoveExpired(w);
      mapTxLockVotesOrphan := map v | v in mapTxLockVotesOrphan && !(w.now - mapTxLockVotesOrphan[v] > LOCK_TIMEOUT_SECONDS) :: mapTxLockVotesOrphan[v];
    }

    /** The scan of ResolveConflicts over the inputs. */
    method ScanInputs(tx: TxHash, vin: seq<OutPoint>, w: World) returns (r: Verdict)
      ensures r == Scan(State(), tx, vin, w)
    {
      var i := 0;
      while i < |vin|
        invariant i <= |vin| && Scan(State(), tx, vin[i..], w) == Scan(State(), tx, vin, w)
      {
        var o := vin[i];
        if o in mapLockedOutpoints && mapLockedOutpoints[o] != tx { return LockedBy(mapLockedOutpoints[o]); }
        if w.poolConflict(o) { return InPool; }
        assert vin[i..][1..] == vin[i + 1..];
        i := i + 1;
      }
      r := Clear;
    }

    method ResolveConflicts(tx: TxHash, w: World) returns (ok: bool)
      requires tx in mapTxLockCandidates && mapTxLockCandidates[tx].request.Some?
      modifies this
      ensures var s := old(State());
        match Scan(s, tx, s.candidates[tx].request.value.vin, w)
        case LockedBy(other) => !ok && State() == if other in s.candidates then DropBoth(s, tx, other, w) else s
        case InPool => !ok && State() == s
        case Clear => ok == Settled(s.candidates[tx].request.value.vin, w) && State() == s
    {
      var verdict := ScanInputs(tx, mapTxLockCandidates[tx].request.value.vin, w);
      match verdict
      case LockedBy(other) =>
        if other in mapTxLockCandidates {
          var r1, r2 := mapTxLockCandidates[tx].request, mapTxLockCandidates[other].request;
          mapTxLockCandidates := mapTxLockCandidates[tx := mapTxLockCandidates[tx].(confirmedHeight := 0)];
          mapTxLockCandidates := mapTxLockCandidates[other := mapTxLockCandidates[other].(confirmedHeight := 0)];
          CheckAndRemoveAll(w);
          mapLockRequestRejected := InsertNew(mapLockRequestRejected, tx, r1);
          mapLockRequestRejected := InsertNew(mapLockRequestRejected, other, r2);
        }
        ok := false;
      case InPool => ok := false;
      case Clear => ok := HaveSettled(mapTxLockCandidates[tx].request.value.vin, w);
    }

    method TryToFinalizeLockCandidate(tx: TxHash, w: World)
      requires tx in mapTxLockCandidates && mapTxLockCandidates[tx].request.Some?
      modifies this
      ensures State() == TryToFinalize(old(State()), tx, w)
    {
      var c := mapTxLockCandidates[tx];
      var ready := IsAllOutPointsReady(c);
      var locked := IsLockedInstantSendTransaction(tx);
      if ready && !locked {
        var ok := ResolveConflicts(tx, w);
        if ok { LockTransactionInputs(tx, c); }
      }
    }

    // ----- Requests -----

    method CreateTxLockCandidate(r: Request, valid: bool, w: World) returns (ok: bool)
      modifies this
      ensures (State(), ok) == if valid then CreateCandidate(old(State()), r, w) else (old(State()), false)
    {
      if !valid { return false; }
      if r.hash !in mapTxLockCandidates {
        var locks := AddOutPointLocks(map[], r.vin);
        mapTxLockCandidates := mapTxLockCandidates[r.hash := Candidate(Some(r), locks, w.now, -1)];
      } else if mapTxLockCandidates[r.hash].request.None? {
        var c := mapTxLockCandidates[r.hash].(request := Some(r));
        if c.IsTimedOut(w.now) {
          mapTxLockCandidates := mapTxLockCandidates[r.hash := c];
          return false;
        }
        var locks := AddOutPointLocks(c.locks, r.vin);
        mapTxLockCandidates := mapTxLockCandidates[r.hash := c.(locks := locks)];
      }
      ok := true;
    }

    method ProcessTxLockRequest(r: Request, valid: bool, w: World) returns (ok: bool)
      modifies this
      ensures (State(), ok) == ProcessRequest(old(State()), r, valid, w)
    {
      ok := CreateTxLockCandidate(r, valid, w);
      if ok { TryToFinalizeLockCandidate(r.hash, w); }
    }

    // ----- Votes -----

    /** Look for other candidates the masternode voted for on the outpoint, and mark the
        outpoint as attacked in them and in this one. */
    method NoteVote(v: Vote)
      requires v.tx in mapTxLockCandidates
      modifies this
      ensures State() == Note(old(State()), v)
    {
      ghost var s := State();
      var o := v.outpoint;
      if o in mapVotedOutpoints {
        MarkRivals(v);
        mapVotedOutpoints := mapVotedOutpoints[o := mapVotedOutpoints[o] + {v.tx}];
      } else {
        MarkNone(s.candidates, o);
        assert {} + {v.tx} == {v.tx};
        mapVotedOutpoints := mapVotedOutpoints[o := {v.tx}];
      }
    }

    method MarkRivals(v: Vote)
      requires v.tx in mapTxLockCandidates && v.outpoint in mapVotedOutpoints
      modifies this
      ensures var s := old(State()); var rivals := Rivals(s, v);
        State() == s.(candidates := MarkAll(s.candidates, if rivals == {} then {} else rivals + {v.tx}, v.outpoint))
    {
      ghost var s := State();
      ghost var cs, o := s.candidates, v.outpoint;
      ghost var rivals := Rivals(s, v);
      MarkNone(cs, o);
      var todo := mapVotedOutpoints[v.outpoint];
      ghost var done := rivals - todo;
      while todo != {}
        invariant todo <= s.voted[o] && done == rivals - todo
        invariant State() == s.(candidates := MarkAll(cs, if done == {} then {} else done + {v.tx}, o))
        decreases todo
      {
        var h :| h in todo;
        ghost var marked := if done == {} then {} else done + {v.tx};
        if h != v.tx && h in mapTxLockCandidates && mapTxLockCandidates[h].HasVoted(v.outpoint, v.mn) {
          MarkMore(cs, marked, v.tx, o);
          MarkMore(cs, marked + {v.tx}, h, o);
          assert marked + {v.tx} + {h} == done + {h} + {v.tx};
          mapTxLockCandidates := mapTxLockCandidates[v.tx := mapTxLockCandidates[v.tx].MarkAsAttacked(v.outpoint)];
          mapTxLockCandidates := mapTxLockCandidates[h := mapTxLockCandidates[h].MarkAsAttacked(v.outpoint)];
          done := done + {h};
        }
        todo := todo - {h};
      }
      assert done == rivals;
    }

    method AddVoteTo(v: Vote) returns (added: bool)
      requires v.tx in mapTxLockCandidates
      modifies this
      ensures (State(), added) == AddVote(old(State()), v)
    {
      var c := mapTxLockCandidates[v.tx];
      if v.outpoint !in c.locks { return false; }
      var lock := c.locks[v.outpoint];
      if v.mn in lock.votes { return false; }
      mapTxLockCandidates := mapTxLockCandidates[v.tx := c.(locks := c.locks[v.outpoint := lock.(votes := lock.votes + {v.mn})])];
      added := true;
    }

    method ProcessOrphanVote(v: Vote, w: World) returns (ok: bool)
      modifies this
      ensures (State(), ok) == ProcessOrphan(old(State()), v, w)
    {
      if v !in mapTxLockVotesOrphan {
        if v.tx !in mapTxLockCandidates {
          mapTxLockCandidates := mapTxLockCandidates[v.tx := Candidate(None, map[], w.now, -1)];
        }
        mapTxLockVotesOrphan := mapTxLockVotesOrphan[v := w.now];
        var r := None;
        if v.tx in mapLockRequestAccepted {
          r := Some(mapLockRequestAccepted[v.tx]);
        } else if v.tx in mapLockRequestRejected {
          r := Some(mapLockRequestRejected[v.tx]);
        }
        if r.Some? {
          var enough := EnoughForAll(mapTxLockVotesOrphan, r.value);
          if enough {
            var done := ProcessTxLockRequest(r.value, w.requestValid, w);
            return true;
          }
        }
      }
      ok := !w.spamming;
    }

    method ProcessTxLockVote(v: Vote, valid: bool, w: World) returns (ok: bool)
      modifies this
      ensures (State(), ok) == ProcessVote(old(State()), v, valid, w)
    {
      if !valid { return false; }
      if v.tx !in mapTxLockCandidates || mapTxLockCandidates[v.tx].request.None? {
        ok := ProcessOrphanVote(v, w);
        return;
      }
      if mapTxLockCandidates[v.tx].IsTimedOut(w.now) { return false; }
      NoteVote(v);
      ok := AddVoteTo(v);
      if ok { TryToFinalizeLockCandidate(v.tx, w); }
    }

    method ProcessOrphanTxLockVotes(vs: seq<Vote>, valid: Vote -> bool, w: World)
      modifies this
      ensures State() == ProcessOrphans(old(State()), vs, valid, w)
    {
      ghost var goal := ProcessOrphans(State(), vs, valid, w);
      var i := 0;
      while i < |vs|
        invariant i <= |vs| && ProcessOrphans(State(), vs[i..], valid, w) == goal
      {
        assert vs[i..][1..] == vs[i + 1..];
        var done := ProcessTxLockVote(vs[i], valid(vs[i]), w);
        if done { mapTxLockVotesOrphan := mapTxLockVotesOrphan - {vs[i]}; }
        i := i + 1;
      }
    }

    // ----- Own votes -----

    /** Has this masternode voted on the outpoint? The lists must name known candidates:
        the source looks each of them up without checking. */
    method HaveVoted(o: OutPoint, me: Masternode) returns (r: bool)
      requires o in mapVotedOutpoints ==> mapVotedOutpoints[o] <= mapTxLockCandidates.Keys
      ensures r == AlreadyVoted(State(), o, me)
    {
      if o in mapVotedOutpoints {
        var todo := mapVotedOutpoints[o];
        while todo != {}
          invariant todo <= mapVotedOutpoints[o]
          invariant forall h | h in mapVotedOutpoints[o] && h !in todo :: !mapTxLockCandidates[h].HasVoted(o, me)
          decreases todo
        {
          var h :| h in todo;
          if mapTxLockCandidates[h].HasVoted(o, me) { return true; }
          todo := todo - {h};
        }
      }
      r := false;
    }

    method VoteFor(v: Vote) returns (cast: bool)
      requires v.tx in mapTxLockCandidates && !AlreadyVoted(State(), v.outpoint, v.mn)
      modifies this
      ensures (State(), cast) == CastVote(old(State()), v)
    {
      cast := AddVoteTo(v);
      if cast {
        if v.outpoint !in mapVotedOutpoints {
          mapVotedOutpoints := mapVotedOutpoints[v.outpoint := {v.tx}];
          assert {} + {v.tx} == {v.tx};
        } else {
          mapVotedOutpoints := mapVotedOutpoints[v.outpoint := mapVotedOutpoints[v.outpoint] + {v.tx}];
        }
      }
    }

    method VoteOn(tx: TxHash, me: Masternode, os: seq<OutPoint>, b: Ballot, w: World) returns (cast: set<Vote>)
      requires ListsKnown(State())
      modifies this
      ensures (State(), cast) == OwnVote(old(State()), tx, me, os, b, w)
    {
      cast := {};
      if tx !in mapTxLockCandidates || mapTxLockCandidates[tx].request.None? { return; }
      if mapTxLockCandidates[tx].request.value.hash in mapLockRequestAccepted {
        cast := Vote_(tx, me, os, b);
      }
      if tx in mapTxLockCandidates && mapTxLockCandidates[tx].request.Some? {
        TryToFinalizeLockCandidate(tx, w);
      }
    }

    method Vote_(tx: TxHash, me: Masternode, os: seq<OutPoint>, b: Ballot) returns (cast: set<Vote>)
      requires tx in mapTxLockCandidates && ListsKnown(State())
      modifies this
      ensures (State(), cast) == CastVotes(old(State()), tx, me, os, b)
    {
      ghost var goal := CastVotes(State(), tx, me, os, b);
      cast := {};
      var i := 0;
      while i < |os|
        invariant i <= |os| && tx in mapTxLockCandidates && ListsKnown(State())
        invariant goal.0 == CastVotes(State(), tx, me, os[i..], b).0
        invariant goal.1 == cast + CastVotes(State(), tx, me, os[i..], b).1
      {
        var o := os[i];
        assert os[i..][1..] == os[i + 1..];
        if !b.coin(o) { return; }
        if b.eligible(o) {
          var voted := HaveVoted(o, me);
          if !voted {
            if !b.signs(o) { return; }
            CastListsKnown(State(), Vote(tx, o, me));
            var added := VoteFor(Vote(tx, o, me));
            if added { cast := cast + {Vote(tx, o, me)}; }
          }
        }
        i := i + 1;
      }
    }
  }

  /** The last two tests of ResolveConflicts. */
  method HaveSettled(vin: seq<OutPoint>, w: World) returns (ok: bool)
    ensures ok <==> Settled(vin, w)
  {
    if w.mined { return true; }
    var i := 0;
    while i < |vin|
      invariant i <= |vin| && forall j | 0 <= j < i :: w.unspent(vin[j])
    {
      if !w.unspent(vin[i]) { return false; }
      i := i + 1;
    }
    ok := true;
  }

  method AddOutPointLocks(locks: map<OutPoint, OutPointLock>, vin: seq<OutPoint>) returns (r: map<OutPoint, OutPointLock>)
    ensures r == AddLocks(locks, vin)
  {
    r := locks;
    var i := |vin|;
    while i > 0
      invariant 0 <= i <= |vin| && r == AddLocks(locks, vin[i..])
    {
      i := i - 1;
      AddLocksStep(locks, vin, i);
      if vin[i] !in r { r := r[vin[i] := OutPointLock({}, false)]; }
    }
    assert vin[0..] == vin;
  }

  lemma AddLocksStep(locks: map<OutPoint, OutPointLock>, vin: seq<OutPoint>, i: nat)
    requires i < |vin|
    ensures var r := AddLocks(locks, vin[i + 1..]);
      AddLocks(locks, vin[i..]) == if vin[i] in r then r else r[vin[i] := OutPointLock({}, false)]
  {
    assert vin[i..] == [vin[i]] + vin[i + 1..];
    assert forall o :: o in vin[i..] <==> o == vin[i] || o in vin[i + 1..];
  }

  lemma MarkNone(cs: map<TxHash, Candidate>, o: OutPoint)
    ensures MarkAll(cs, {}, o) == cs
  {
  }

  /** The state after removing some candidates. */
  ghost function Without(s: Node, gone: set<TxHash>): Node {
    s.(candidates := s.candidates - gone,
       voted := s.voted - Touched(s, gone),
       locked := s.locked - Touched(s, gone),
       accepted := s.accepted - RequestHashes(s, gone),
       rejected := s.rejected - RequestHashes(s, gone),
       forgotten := s.forgotten + Touched(s, gone))
  }

  /** The state after removing one more, c being the candidate h. */
  ghost function WithoutOne(t: Node, h: TxHash, c: Candidate): Node {
    var hashes := if c.request.Some? then {c.request.value.hash} else {};
    t.(candidates := t.candidates - {h},
       voted := t.voted - c.locks.Keys,
       locked := t.locked - c.locks.Keys,
       accepted := t.accepted - hashes,
       rejected := t.rejected - hashes,
       forgotten := t.forgotten + c.locks.Keys)
  }

  lemma WithoutNone(s: Node, gone: set<TxHash>)
    requires gone == {}
    ensures Without(s, gone) == s
  {
    assert Touched(s, gone) == {} && RequestHashes(s, gone) == {};
  }

  lemma MinusBoth<K, V>(m: map<K, V>, a: set<K>, b: set<K>)
    ensures m - (a + b) == (m - a) - b
  {
  }

  lemma WithoutMore(s: Node, gone: set<TxHash>, h: TxHash)
    requires h in s.candidates && h !in gone
    ensures Without(s, gone + {h}) == WithoutOne(Without(s, gone), h, s.candidates[h])
  {
    var c := s.candidates[h];
    var hashes := if c.request.Some? then {c.request.value.hash} else {};
    var os, rs := Touched(s, gone), RequestHashes(s, gone);
    assert Touched(s, gone + {h}) == os + c.locks.Keys;
    assert RequestHashes(s, gone + {h}) == rs + hashes;
    MinusBoth(s.candidates, gone, {h});
    MinusBoth(s.voted, os, c.locks.Keys);
    MinusBoth(s.locked, os, c.locks.Keys);
    MinusBoth(s.accepted, rs, hashes);
    MinusBoth(s.rejected, rs, hashes);
  }
}
