/** What every step of an InstantSend node keeps, and why two conflicting requests are
    never both ready. */
module InstantSendSafety {
  import opened Common
  import opened InstantSend

  /** The masternode's vote for the transaction on the outpoint is on record. */
  predicate Recorded(s: Node, h: TxHash, o: OutPoint, mn: Masternode) {
    h in s.candidates && s.candidates[h].HasVoted(o, mn)
  }

  predicate Attacked(s: Node, h: TxHash, o: OutPoint) {
    h in s.candidates && o in s.candidates[h].locks && s.candidates[h].locks[o].fAttacked
  }

  predicate Listed(s: Node, h: TxHash, o: OutPoint) {
    o in s.voted && h in s.voted[o]
  }

  /** Every vote on record is one that may exist. */
  ghost predicate Genuine(s: Node, legit: Vote -> bool) {
    forall h, o, mn {:trigger Recorded(s, h, o, mn)} | Recorded(s, h, o, mn) :: legit(Vote(h, o, mn))
  }

  /** Votes are listed under their outpoint, unless that list has been forgotten. */
  ghost predicate AllListed(s: Node) {
    forall h, o, mn {:trigger Recorded(s, h, o, mn)} | o !in s.forgotten && Recorded(s, h, o, mn) :: Listed(s, h, o)
  }

  /** A masternode that voted for two transactions has the outpoint marked in both. */
  ghost predicate Exposed(s: Node) {
    forall h, k, o, mn {:trigger Recorded(s, h, o, mn), Recorded(s, k, o, mn)} |
      h != k && o !in s.forgotten && Recorded(s, h, o, mn) && Recorded(s, k, o, mn) :: Attacked(s, h, o) && Attacked(s, k, o)
  }

  ghost predicate BackedAt(s: Node, o: OutPoint)
    requires o in s.locked
  {
    var h := s.locked[o];
    h in s.candidates && o in s.candidates[h].locks && |s.candidates[h].locks[o].votes| >= SIGNATURES_REQUIRED
  }

  /** A locked outpoint has a candidate with enough votes on it. */
  ghost predicate Backed(s: Node) {
    forall o {:trigger BackedAt(s, o)} | o in s.locked && o !in s.forgotten :: BackedAt(s, o)
  }

  ghost predicate NamedAt(s: Node, h: TxHash)
    requires h in s.candidates
  {
    var c := s.candidates[h];
    && (c.request.Some? ==> c.request.value.hash == h)
    && (forall o | o in c.locks :: c.request.Some? && o in c.request.value.vin)
    && (c.locks != map[] ==> c.request.Some? && forall o | o in c.request.value.vin :: o in c.locks)
  }

  /** Candidates go by the hash of their request, and lock none or all of its inputs. */
  ghost predicate Named(s: Node) {
    && (forall h {:trigger NamedAt(s, h)} | h in s.candidates :: NamedAt(s, h))
    && (forall h | h in s.accepted :: s.accepted[h].hash == h)
    && (forall h | h in s.rejected :: s.rejected[h].hash == h)
  }

  ghost predicate Safe(s: Node, legit: Vote -> bool) {
    Genuine(s, legit) && AllListed(s) && Exposed(s) && Backed(s) && Named(s)
  }

  /** No vote is added, no mark and no listing lost, except for outpoints forgotten. */
  ghost predicate Quiet(s: Node, t: Node) {
    && s.forgotten <= t.forgotten
    && (forall h, o, mn {:trigger Recorded(t, h, o, mn)} | Recorded(t, h, o, mn) ::
          Recorded(s, h, o, mn) && (Attacked(s, h, o) ==> Attacked(t, h, o)))
    && (forall h, o {:trigger Listed(t, h, o)} {:trigger Listed(s, h, o)} | o !in t.forgotten && Listed(s, h, o) :: Listed(t, h, o))
  }

  lemma QuietKeeps(s: Node, t: Node, legit: Vote -> bool)
    requires Genuine(s, legit) && AllListed(s) && Exposed(s) && Quiet(s, t)
    ensures Genuine(t, legit) && AllListed(t) && Exposed(t)
  {
    forall h, o, mn | o !in t.forgotten && Recorded(t, h, o, mn) ensures Listed(t, h, o) {
      assert Recorded(s, h, o, mn) && Listed(s, h, o);
    }
  }

  /** Locks stay backed as long as candidates keep their votes. */
  lemma SameBacking(s: Node, t: Node)
    requires Backed(s) && s.forgotten <= t.forgotten && t.locked == s.locked
    requires forall h, o | h in s.candidates && o in s.candidates[h].locks ::
      h in t.candidates && o in t.candidates[h].locks && s.candidates[h].locks[o].votes <= t.candidates[h].locks[o].votes
    ensures Backed(t)
  {
    forall o | o in t.locked && o !in t.forgotten ensures BackedAt(t, o) {
      assert BackedAt(s, o);
      var h := s.locked[o];
      SubsetSize(s.candidates[h].locks[o].votes, t.candidates[h].locks[o].votes);
    }
  }

  // ----- Removing -----

  lemma RemoveKeeps(s: Node, w: World, legit: Vote -> bool)
    requires Safe(s, legit)
    ensures Safe(CheckAndRemove(s, w), legit)
  {
    var t := CheckAndRemove(s, w);
    assert Quiet(s, t);
    QuietKeeps(s, t, legit);
    forall o | o in t.locked && o !in t.forgotten
      ensures BackedAt(t, o)
    {
      assert BackedAt(s, o);
      var h := s.locked[o];
      assert h in Expired(s, w) ==> o in Touched(s, Expired(s, w));
    }
    forall h | h in t.candidates ensures NamedAt(t, h) { assert NamedAt(s, h); }
  }

  lemma RestampKeeps(s: Node, tx: TxHash, at: int, legit: Vote -> bool)
    requires Safe(s, legit) && tx in s.candidates
    ensures Safe(s.(candidates := s.candidates[tx := s.candidates[tx].(confirmedHeight := at)]), legit)
  {
    var t := s.(candidates := s.candidates[tx := s.candidates[tx].(confirmedHeight := at)]);
    assert Quiet(s, t);
    QuietKeeps(s, t, legit);
    SameBacking(s, t);
    forall h | h in t.candidates ensures NamedAt(t, h) { assert NamedAt(s, h); }
  }

  // ----- Requests -----

  /** A candidate that is new, or has more locks than before, but no more votes. */
  ghost predicate Grown(s: Node, h: TxHash, c: Candidate) {
    && (h in s.candidates ==> forall o | o in s.candidates[h].locks :: o in c.locks && c.locks[o] == s.candidates[h].locks[o])
    && (forall o | o in c.locks :: c.locks[o].votes == {} || (h in s.candidates && o in s.candidates[h].locks))
  }

  lemma GrownQuiet(s: Node, h: TxHash, c: Candidate)
    requires Grown(s, h, c)
    ensures Quiet(s, s.(candidates := s.candidates[h := c]))
  {
    var t := s.(candidates := s.candidates[h := c]);
    forall k, o, mn | Recorded(t, k, o, mn) ensures Recorded(s, k, o, mn) && (Attacked(s, k, o) ==> Attacked(t, k, o)) { }
  }

  lemma GrownKeeps(s: Node, h: TxHash, c: Candidate, legit: Vote -> bool)
    requires Safe(s, legit) && Grown(s, h, c)
    requires NamedAt(s.(candidates := s.candidates[h := c]), h)
    ensures Safe(s.(candidates := s.candidates[h := c]), legit)
  {
    var t := s.(candidates := s.candidates[h := c]);
    GrownQuiet(s, h, c);
    QuietKeeps(s, t, legit);
    SameBacking(s, t);
    forall k | k in t.candidates ensures NamedAt(t, k) { if k != h { assert NamedAt(s, k); } }
  }

  lemma CreateKeeps(s: Node, r: Request, w: World, legit: Vote -> bool)
    requires Safe(s, legit)
    ensures Safe(CreateCandidate(s, r, w).0, legit)
    ensures CreateCandidate(s, r, w).1 ==> var t := CreateCandidate(s, r, w).0; r.hash in t.candidates && t.candidates[r.hash].request.Some?
  {
    if r.hash !in s.candidates {
      GrownKeeps(s, r.hash, Candidate(Some(r), AddLocks(map[], r.vin), w.now, -1), legit);
    } else {
      var c := s.candidates[r.hash];
      assert NamedAt(s, r.hash);
      if c.request.None? {
        assert c.locks == map[];
        GrownKeeps(s, r.hash, if c.IsTimedOut(w.now) then c.(request := Some(r)) else c.(request := Some(r), locks := AddLocks(map[], r.vin)), legit);
      }
    }
  }

  lemma CreateGives(s: Node, r: Request, w: World)
    ensures var (t, ok) := CreateCandidate(s, r, w); ok ==> r.hash in t.candidates && t.candidates[r.hash].request.Some?
  {
  }

  lemma EmptyKeeps(s: Node, v: Vote, w: World, legit: Vote -> bool)
    requires Safe(s, legit)
    ensures var e := CreateEmpty(s, v.tx, w); Safe(e.(orphans := e.orphans[v := w.now]), legit)
  {
    var e := CreateEmpty(s, v.tx, w);
    if v.tx !in s.candidates { GrownKeeps(s, v.tx, e.candidates[v.tx], legit); }
    OrphansKeep(e, e.orphans[v := w.now], legit);
  }

  /** The orphan votes play no part in the invariant. */
  lemma OrphansKeep(s: Node, orphans: map<Vote, int>, legit: Vote -> bool)
    requires Safe(s, legit)
    ensures Safe(s.(orphans := orphans), legit)
  {
    var t := s.(orphans := orphans);
    assert Quiet(s, t);
    QuietKeeps(s, t, legit);
    SameBacking(s, t);
    forall h | h in t.candidates ensures NamedAt(t, h) { assert NamedAt(s, h); }
  }

  lemma LockKeeps(s: Node, tx: TxHash, legit: Vote -> bool)
    requires Safe(s, legit) && tx in s.candidates && s.candidates[tx].IsAllOutPointsReady()
    ensures Safe(s.(locked := LockAll(s.locked, s.candidates[tx].locks.Keys, tx)), legit)
  {
    var t := s.(locked := LockAll(s.locked, s.candidates[tx].locks.Keys, tx));
    assert Quiet(s, t);
    QuietKeeps(s, t, legit);
    forall o | o in t.locked && o !in t.forgotten
      ensures BackedAt(t, o)
    {
      if o in s.locked { assert BackedAt(s, o); } else { assert s.candidates[tx].locks[o].IsReady(); }
    }
    forall h | h in t.candidates ensures NamedAt(t, h) { assert NamedAt(s, h); }
  }

  lemma DropKeeps(s: Node, tx: TxHash, other: TxHash, w: World, legit: Vote -> bool)
    requires Safe(s, legit) && tx in s.candidates && other in s.candidates
    ensures Safe(DropBoth(s, tx, other, w), legit)
  {
    var c := s.candidates[tx := Expire(s.candidates[tx])];
    var t := s.(candidates := c);
    RestampKeeps(s, tx, 0, legit);
    RestampKeeps(t, other, 0, legit);
    var u := t.(candidates := c[other := Expire(c[other])]);
    RemoveKeeps(u, w, legit);
    RejectKeeps(s, CheckAndRemove(u, w), tx, other, legit);
  }

  lemma RejectKeeps(s: Node, t: Node, tx: TxHash, other: TxHash, legit: Vote -> bool)
    requires Safe(t, legit) && Named(s) && tx in s.candidates && other in s.candidates
    ensures Safe(t.(rejected := InsertNew(InsertNew(t.rejected, tx, s.candidates[tx].request), other, s.candidates[other].request)), legit)
  {
    var u := t.(rejected := InsertNew(InsertNew(t.rejected, tx, s.candidates[tx].request), other, s.candidates[other].request));
    assert Quiet(t, u);
    QuietKeeps(t, u, legit);
    SameBacking(t, u);
    forall h | h in u.candidates ensures NamedAt(u, h) { assert NamedAt(t, h); }
    assert NamedAt(s, tx) && NamedAt(s, other);
  }

  lemma FinalizeKeeps(s: Node, tx: TxHash, w: World, legit: Vote -> bool)
    requires Safe(s, legit) && tx in s.candidates && s.candidates[tx].request.Some?
    ensures Safe(TryToFinalize(s, tx, w), legit)
  {
    var c := s.candidates[tx];
    if c.IsAllOutPointsReady() && !IsLocked(s, tx) {
      match Scan(s, tx, c.request.value.vin, w)
      case LockedBy(other) => if other in s.candidates { DropKeeps(s, tx, other, w, legit); }
      case InPool =>
      case Clear => if Settled(c.request.value.vin, w) { LockKeeps(s, tx, legit); }
    }
  }

  lemma RequestKeeps(s: Node, r: Request, valid: bool, w: World, legit: Vote -> bool)
    requires Safe(s, legit)
    ensures Safe(ProcessRequest(s, r, valid, w).0, legit)
  {
    if valid {
      CreateKeeps(s, r, w, legit);
      var (t, ok) := CreateCandidate(s, r, w);
      if ok { FinalizeKeeps(t, r.hash, w, legit); }
    }
  }

  // ----- Votes -----

  lemma NoteKeeps(s: Node, v: Vote, legit: Vote -> bool)
    requires Safe(s, legit)
    ensures Safe(Note(s, v), legit)
  {
    var t := Note(s, v);
    assert Quiet(s, t);
    QuietKeeps(s, t, legit);
    SameBacking(s, t);
    forall h | h in t.candidates ensures NamedAt(t, h) { assert NamedAt(s, h); }
  }

  /** What adding a vote does to the records: one more, and nothing else. */
  lemma AddVoteEffect(s: Node, v: Vote)
    requires v.tx in s.candidates
    ensures var t := AddVote(s, v).0;
      && (forall h, o, mn {:trigger Recorded(t, h, o, mn)} ::
            Recorded(t, h, o, mn) <==> Recorded(s, h, o, mn) || (AddVote(s, v).1 && Vote(h, o, mn) == v))
      && (forall h, o {:trigger Attacked(t, h, o)} :: Attacked(t, h, o) <==> Attacked(s, h, o))
  {
  }

  /** A vote may be added if its masternode's other votes on the outpoint are marked, as
      well as this one's lock. */
  lemma AddVoteKeeps(s: Node, v: Vote, legit: Vote -> bool)
    requires Safe(s, legit) && v.tx in s.candidates && (AddVote(s, v).1 ==> legit(v)) && Listed(s, v.tx, v.outpoint)
    requires forall k {:trigger Recorded(s, k, v.outpoint, v.mn)} | k != v.tx && v.outpoint !in s.forgotten && Recorded(s, k, v.outpoint, v.mn) ::
      Attacked(s, k, v.outpoint) && (v.outpoint in s.candidates[v.tx].locks ==> Attacked(s, v.tx, v.outpoint))
    ensures Safe(AddVote(s, v).0, legit)
  {
    AddVoteEffect(s, v);
    var t := AddVote(s, v).0;
    AddVoteBacked(s, v);
    forall h, k, o, mn | h != k && o !in t.forgotten && Recorded(t, h, o, mn) && Recorded(t, k, o, mn)
      ensures Attacked(t, h, o) && Attacked(t, k, o)
    {
      if Vote(h, o, mn) == v { assert Recorded(s, k, o, mn); }
      else if Vote(k, o, mn) == v { assert Recorded(s, h, o, mn); }
    }
  }

  lemma AddVoteBacked(s: Node, v: Vote)
    requires Backed(s) && Named(s) && v.tx in s.candidates
    ensures Backed(AddVote(s, v).0) && Named(AddVote(s, v).0)
  {
    var t := AddVote(s, v).0;
    SameBacking(s, t);
    AddVoteNamed(s, v);
  }

  lemma AddVoteNamed(s: Node, v: Vote)
    requires Named(s) && v.tx in s.candidates
    ensures Named(AddVote(s, v).0)
  {
    var t := AddVote(s, v).0;
    forall h | h in t.candidates ensures NamedAt(t, h) {
      assert NamedAt(s, h);
      assert t.candidates[h].locks.Keys == s.candidates[h].locks.Keys;
    }
  }

  lemma NoteMarks(s: Node, v: Vote, k: TxHash)
    requires AllListed(s) && v.tx in s.candidates && k != v.tx && v.outpoint !in s.forgotten
    requires Recorded(Note(s, v), k, v.outpoint, v.mn)
    ensures Attacked(Note(s, v), k, v.outpoint)
    ensures v.outpoint in s.candidates[v.tx].locks ==> Attacked(Note(s, v), v.tx, v.outpoint)
  {
    assert Recorded(s, k, v.outpoint, v.mn) && Listed(s, k, v.outpoint);
    assert k in Rivals(s, v);
  }

  lemma ProcessVoteKeeps(s: Node, v: Vote, valid: bool, w: World, legit: Vote -> bool)
    requires Safe(s, legit) && (valid ==> legit(v))
    ensures Safe(ProcessVote(s, v, valid, w).0, legit)
  {
    if valid {
      if v.tx !in s.candidates || s.candidates[v.tx].request.None? {
        OrphanKeeps(s, v, w, legit);
      } else if !s.candidates[v.tx].IsTimedOut(w.now) {
        var n := Note(s, v);
        NoteKeeps(s, v, legit);
        forall k | k != v.tx && v.outpoint !in n.forgotten && Recorded(n, k, v.outpoint, v.mn)
          ensures Attacked(n, k, v.outpoint) && (v.outpoint in n.candidates[v.tx].locks ==> Attacked(n, v.tx, v.outpoint))
        {
          NoteMarks(s, v, k);
        }
        AddVoteKeeps(n, v, legit);
        var (t, added) := AddVote(n, v);
        if added { FinalizeKeeps(t, v.tx, w, legit); }
      }
    }
  }

  lemma OrphanKeeps(s: Node, v: Vote, w: World, legit: Vote -> bool)
    requires Safe(s, legit)
    ensures Safe(ProcessOrphan(s, v, w).0, legit)
  {
    if v !in s.orphans {
      EmptyKeeps(s, v, w, legit);
      var e := CreateEmpty(s, v.tx, w);
      var t := e.(orphans := e.orphans[v := w.now]);
      var r := if v.tx in t.accepted then Some(t.accepted[v.tx]) else if v.tx in t.rejected then Some(t.rejected[v.tx]) else None;
      if r.Some? && EnoughOrphans(t, r.value) { RequestKeeps(t, r.value, w.requestValid, w, legit); }
    }
  }

  // ----- Own votes -----

  lemma CastVoteKeeps(s: Node, v: Vote, legit: Vote -> bool)
    requires Safe(s, legit) && v.tx in s.candidates && (CastVote(s, v).1 ==> legit(v))
    ensures Safe(CastVote(s, v).0, legit) && v.tx in CastVote(s, v).0.candidates
    ensures CastVote(s, v).1 ==> Recorded(CastVote(s, v).0, v.tx, v.outpoint, v.mn)
    ensures CastVote(s, v).1 && v.outpoint !in s.forgotten ==> forall k {:trigger Recorded(s, k, v.outpoint, v.mn)} :: !Recorded(s, k, v.outpoint, v.mn)
  {
    if !AlreadyVoted(s, v.outpoint, v.mn) {
      forall k | v.outpoint !in s.forgotten ensures !Recorded(s, k, v.outpoint, v.mn) {
        assert Recorded(s, k, v.outpoint, v.mn) ==> Listed(s, k, v.outpoint);
      }
      var n := s.(voted := Noted(s.voted, v.outpoint, v.tx));
      NotedKeeps(s, v, legit);
      AddVoteKeeps(n, v, legit);
      assert AddVote(n, v).0 == AddVote(s, v).0.(voted := n.voted);
    }
  }

  lemma NotedKeeps(s: Node, v: Vote, legit: Vote -> bool)
    requires Safe(s, legit)
    ensures var t := s.(voted := Noted(s.voted, v.outpoint, v.tx));
      Safe(t, legit) && forall h, o, mn {:trigger Recorded(t, h, o, mn)} :: Recorded(t, h, o, mn) <==> Recorded(s, h, o, mn)
  {
    var t := s.(voted := Noted(s.voted, v.outpoint, v.tx));
    assert Quiet(s, t);
    QuietKeeps(s, t, legit);
    SameBacking(s, t);
    forall h | h in t.candidates ensures NamedAt(t, h) { assert NamedAt(s, h); }
  }

  /** Casting votes keeps the invariant, and records every vote cast; none of them is on an
      outpoint the masternode had voted on before. */
  lemma {:induction false} CastVotesKeep(s: Node, tx: TxHash, me: Masternode, os: seq<OutPoint>, b: Ballot, legit: Vote -> bool)
    requires Safe(s, legit) && tx in s.candidates && forall v | v in CastVotes(s, tx, me, os, b).1 :: legit(v)
    ensures Safe(CastVotes(s, tx, me, os, b).0, legit) && tx in CastVotes(s, tx, me, os, b).0.candidates
    decreases |os|
  {
    if os == [] || !b.coin(os[0]) {
    } else if !b.eligible(os[0]) || AlreadyVoted(s, os[0], me) {
      CastVotesKeep(s, tx, me, os[1..], b, legit);
    } else if b.signs(os[0]) {
      var v := Vote(tx, os[0], me);
      CastVoteKeeps(s, v, legit);
      CastVotesKeep(CastVote(s, v).0, tx, me, os[1..], b, legit);
    }
  }

  lemma OwnVoteKeeps(s: Node, tx: TxHash, me: Masternode, os: seq<OutPoint>, b: Ballot, w: World, legit: Vote -> bool)
    requires Safe(s, legit) && forall v | v in OwnVote(s, tx, me, os, b, w).1 :: legit(v)
    ensures Safe(OwnVote(s, tx, me, os, b, w).0, legit)
  {
    if tx in s.candidates && s.candidates[tx].request.Some? {
      if s.candidates[tx].request.value.hash in s.accepted { CastVotesKeep(s, tx, me, os, b, legit); }
      var t := if s.candidates[tx].request.value.hash in s.accepted then CastVotes(s, tx, me, os, b).0 else s;
      if tx in t.candidates && t.candidates[tx].request.Some? { FinalizeKeeps(t, tx, w, legit); }
    }
  }

  lemma {:induction false} ProcessOrphansKeep(s: Node, vs: seq<Vote>, valid: Vote -> bool, w: World, legit: Vote -> bool)
    requires Safe(s, legit) && forall v | valid(v) :: legit(v)
    ensures Safe(ProcessOrphans(s, vs, valid, w), legit)
    decreases |vs|
  {
    if vs != [] {
      ProcessVoteKeeps(s, vs[0], valid(vs[0]), w, legit);
      var (t, done) := ProcessVote(s, vs[0], valid(vs[0]), w);
      OrphansKeep(t, t.orphans - {vs[0]}, legit);
      ProcessOrphansKeep(if done then t.(orphans := t.orphans - {vs[0]}) else t, vs[1..], valid, w, legit);
    }
  }

  // ----- Runs -----

  /** Only votes that may exist are taken for valid, and only such votes are cast. */
  ghost predicate Lawful(s: Node, e: Event, legit: Vote -> bool) {
    && (e.GetVote? && e.valid ==> legit(e.v))
    && (e.RetryOrphans? ==> forall v | e.ok(v) :: legit(v))
    && (forall v | v in Step(s, e).1 :: legit(v))
  }

  lemma StepKeeps(s: Node, e: Event, legit: Vote -> bool)
    requires Safe(s, legit) && Lawful(s, e, legit)
    ensures Safe(Step(s, e).0, legit)
  {
    match e
    case Accept(r) => KnownKeeps(s, InsertNew(s.accepted, r.hash, Some(r)), s.rejected, s.height, legit);
    case Reject(r) => KnownKeeps(s, s.accepted, InsertNew(s.rejected, r.hash, Some(r)), s.height, legit);
    case GetRequest(r, valid, w) => RequestKeeps(s, r, valid, w, legit);
    case GetVote(v, valid, w) => ProcessVoteKeeps(s, v, valid, w, legit);
    case CastOwn(tx, me, os, b, w) => OwnVoteKeeps(s, tx, me, os, b, w, legit);
    case RetryOrphans(vs, ok, w) => ProcessOrphansKeep(s, vs, ok, w, legit);
    case Clean(w) => RemoveKeeps(s, w, legit);
    case Confirm(tx, at) => if tx in s.candidates { RestampKeeps(s, tx, at, legit); }
    case Tip(at) => KnownKeeps(s, s.accepted, s.rejected, at, legit);
  }

  lemma KnownKeeps(s: Node, accepted: map<TxHash, Request>, rejected: map<TxHash, Request>, height: int, legit: Vote -> bool)
    requires Safe(s, legit)
    requires (forall h | h in accepted :: accepted[h].hash == h) && (forall h | h in rejected :: rejected[h].hash == h)
    ensures Safe(s.(accepted := accepted, rejected := rejected, height := height), legit)
  {
    var t := s.(accepted := accepted, rejected := rejected, height := height);
    assert Quiet(s, t);
    QuietKeeps(s, t, legit);
    SameBacking(s, t);
    forall h | h in t.candidates ensures NamedAt(t, h) { assert NamedAt(s, h); }
  }

  function Run(s: Node, es: seq<Event>): Node
    decreases |es|
  {
    if es == [] then s else Run(Step(s, es[0]).0, es[1..])
  }

  lemma RunFirst(s: Node, e: Event, es: seq<Event>)
    ensures Run(s, [e] + es) == Run(Step(s, e).0, es)
  {
    assert ([e] + es)[1..] == es;
  }

  ghost predicate LawfulRun(s: Node, es: seq<Event>, legit: Vote -> bool)
    decreases |es|
  {
    es != [] ==> Lawful(s, es[0], legit) && LawfulRun(Step(s, es[0]).0, es[1..], legit)
  }

  lemma {:induction false} RunKeeps(s: Node, es: seq<Event>, legit: Vote -> bool)
    requires Safe(s, legit) && LawfulRun(s, es, legit)
    ensures Safe(Run(s, es), legit)
    decreases |es|
  {
    if es != [] {
      StepKeeps(s, es[0], legit);
      RunKeeps(Step(s, es[0]).0, es[1..], legit);
    }
  }

  // ----- The quorum -----

  /** At most ten masternodes may vote on an outpoint. */
  ghost predicate Bounded(q: OutPoint -> set<Masternode>) {
    forall o :: |q(o)| <= SIGNATURES_TOTAL
  }

  ghost predicate Eligible(legit: Vote -> bool, q: OutPoint -> set<Masternode>) {
    forall v: Vote {:trigger legit(v)} | legit(v) :: v.mn in q(v.outpoint)
  }

  /** Two sets with more than half of the quorum each have a member in common. */
  lemma Overlap(a: set<Masternode>, b: set<Masternode>, q: set<Masternode>) returns (mn: Masternode)
    requires a <= q && b <= q && |a| + |b| > |q|
    ensures mn in a && mn in b
  {
    if a * b == {} {
      assert a + b <= q;
      SubsetSize(a + b, q);
      assert false;
    }
    mn :| mn in a * b;
  }

  lemma SubsetSize(a: set<Masternode>, b: set<Masternode>)
    requires a <= b
    ensures |a| <= |b|
  {
    assert b == a + (b - a);
  }

  lemma VotersEligible(s: Node, legit: Vote -> bool, q: OutPoint -> set<Masternode>, h: TxHash, o: OutPoint)
    requires Genuine(s, legit) && Eligible(legit, q) && h in s.candidates && o in s.candidates[h].locks
    ensures s.candidates[h].locks[o].votes <= q(o)
  {
    forall mn | mn in s.candidates[h].locks[o].votes ensures mn in q(o) {
      assert Recorded(s, h, o, mn);
      assert legit(Vote(h, o, mn));
    }
  }

  /** Two different transactions with enough votes each on one outpoint are both marked as
      attacked there. */
  lemma RivalsAttacked(s: Node, legit: Vote -> bool, q: OutPoint -> set<Masternode>, h: TxHash, k: TxHash, o: OutPoint)
    requires Safe(s, legit) && Eligible(legit, q) && Bounded(q) && o !in s.forgotten && h != k
    requires h in s.candidates && o in s.candidates[h].locks && |s.candidates[h].locks[o].votes| >= SIGNATURES_REQUIRED
    requires k in s.candidates && o in s.candidates[k].locks && |s.candidates[k].locks[o].votes| >= SIGNATURES_REQUIRED
    ensures Attacked(s, h, o) && Attacked(s, k, o)
  {
    VotersEligible(s, legit, q, h, o);
    VotersEligible(s, legit, q, k, o);
    var mn := Overlap(s.candidates[h].locks[o].votes, s.candidates[k].locks[o].votes, q(o));
    assert Recorded(s, h, o, mn) && Recorded(s, k, o, mn);
  }

  /** Two different transactions with a common input are never both ready. */
  lemma NeverBothReady(s: Node, legit: Vote -> bool, q: OutPoint -> set<Masternode>, h: TxHash, k: TxHash, o: OutPoint)
    requires Safe(s, legit) && Eligible(legit, q) && Bounded(q) && o !in s.forgotten && h != k
    requires h in s.candidates && o in s.candidates[h].locks && k in s.candidates && o in s.candidates[k].locks
    ensures !(s.candidates[h].IsAllOutPointsReady() && s.candidates[k].IsAllOutPointsReady())
  {
    if s.candidates[h].locks[o].IsReady() && s.candidates[k].locks[o].IsReady() {
      RivalsAttacked(s, legit, q, h, k, o);
    }
  }

  /** Once an outpoint is locked by one transaction, no other that spends it becomes ready,
      even if the lock's own votes are found out later. */
  lemma LockedExcludes(s: Node, legit: Vote -> bool, q: OutPoint -> set<Masternode>, k: TxHash, o: OutPoint)
    requires Safe(s, legit) && Eligible(legit, q) && Bounded(q) && o !in s.forgotten
    requires o in s.locked && s.locked[o] != k && k in s.candidates && o in s.candidates[k].locks
    ensures !s.candidates[k].IsAllOutPointsReady() && !IsLocked(s, k)
  {
    assert BackedAt(s, o);
    if s.candidates[k].locks[o].IsReady() {
      RivalsAttacked(s, legit, q, s.locked[o], k, o);
    }
  }

  /** In every state a node reaches from the start, two different transactions that share
      an input, of which no candidate has been removed, are not both ready, and the one
      that holds the lock keeps the other from becoming ready. */
  lemma RunSafe(es: seq<Event>, legit: Vote -> bool, q: OutPoint -> set<Masternode>, h: TxHash, k: TxHash, o: OutPoint)
    requires Eligible(legit, q) && Bounded(q) && LawfulRun(Fresh(), es, legit)
    requires var s := Run(Fresh(), es);
      && h != k && o !in s.forgotten
      && h in s.candidates && o in s.candidates[h].locks && k in s.candidates && o in s.candidates[k].locks
    ensures var s := Run(Fresh(), es);
      && !(s.candidates[h].IsAllOutPointsReady() && s.candidates[k].IsAllOutPointsReady())
      && !(IsLocked(s, h) && IsLocked(s, k))
      && (IsLocked(s, h) ==> !s.candidates[k].IsAllOutPointsReady())
  {
    RunKeeps(Fresh(), es, legit);
    NeverBothReady(Run(Fresh(), es), legit, q, h, k, o);
    var s := Run(Fresh(), es);
    if IsLocked(s, h) { LockedExcludes(s, legit, q, k, o); }
  }

  /** A ready candidate never finds one of its inputs locked by another transaction, so the
      branch that drops two completed locks is not reached. */
  lemma {:induction false} ScanFindsNoLock(s: Node, legit: Vote -> bool, q: OutPoint -> set<Masternode>, tx: TxHash, vin: seq<OutPoint>, w: World)
    requires Safe(s, legit) && Eligible(legit, q) && Bounded(q)
    requires tx in s.candidates && s.candidates[tx].IsAllOutPointsReady()
    requires forall o | o in vin :: o in s.candidates[tx].locks && o !in s.forgotten
    ensures !Scan(s, tx, vin, w).LockedBy?
    decreases |vin|
  {
    if vin != [] {
      var o := vin[0];
      if o in s.locked && s.locked[o] != tx { LockedExcludes(s, legit, q, tx, o); }
      forall x | x in vin[1..] ensures x in vin { }
      ScanFindsNoLock(s, legit, q, tx, vin[1..], w);
    }
  }

  /** So finalizing either locks all inputs of a ready candidate that are free or does nothing. */
  lemma FinalizeOnlyLocks(s: Node, legit: Vote -> bool, q: OutPoint -> set<Masternode>, tx: TxHash, w: World)
    requires Safe(s, legit) && Eligible(legit, q) && Bounded(q)
    requires tx in s.candidates && s.candidates[tx].request.Some?
    requires forall o | o in s.candidates[tx].request.value.vin :: o !in s.forgotten
    ensures var t := TryToFinalize(s, tx, w);
      t == s || (t == s.(locked := t.locked) && IsLocked(t, tx) && forall o | o in s.locked :: o in t.locked && t.locked[o] == s.locked[o])
  {
    var c := s.candidates[tx];
    assert NamedAt(s, tx);
    if c.IsAllOutPointsReady() && !IsLocked(s, tx) {
      ScanFindsNoLock(s, legit, q, tx, c.request.value.vin, w);
      forall o | o in c.locks && o in s.locked ensures s.locked[o] == tx {
        if s.locked[o] != tx { LockedExcludes(s, legit, q, tx, o); }
      }
    }
  }
}
