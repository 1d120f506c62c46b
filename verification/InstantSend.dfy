/** The InstantSend lock protocol of one node (src/instantx.cpp) as steps on its state.

    Transactions, outpoints and masternodes are named by numbers. The masternodes that may
    vote on an outpoint, the clock, the mempool and the coins are inputs; the sporks are on.
    A vote is identified by what its hash covers; votes are kept per outpoint lock, as in
    the source, and relaying, wallet notification and orphan rate statistics are left out. */
module InstantSend {
  import opened Common

  type TxHash = nat
  type OutPoint = nat
  type Masternode = nat

  const SIGNATURES_REQUIRED: nat := 6
  const SIGNATURES_TOTAL: nat := 10
  const LOCK_TIMEOUT_SECONDS: int := 15

  datatype Request = Request(hash: TxHash, vin: seq<OutPoint>)
  datatype Vote = Vote(tx: TxHash, outpoint: OutPoint, mn: Masternode)

  datatype OutPointLock = OutPointLock(votes: set<Masternode>, fAttacked: bool)
  {
    function CountVotes(): nat { if fAttacked then 0 else |votes| }
    predicate IsReady() { !fAttacked && CountVotes() >= SIGNATURES_REQUIRED }
  }

  datatype Candidate = Candidate(
    request: Option<Request>, locks: map<OutPoint, OutPointLock>, timeCreated: int, confirmedHeight: int)
  {
    predicate HasVoted(o: OutPoint, mn: Masternode) { o in locks && mn in locks[o].votes }
    predicate IsAllOutPointsReady() { locks != map[] && forall o | o in locks :: locks[o].IsReady() }
    predicate IsTimedOut(now: int) { now - timeCreated > LOCK_TIMEOUT_SECONDS }
    predicate IsExpired(height: int, keepLock: int) { confirmedHeight != -1 && height - confirmedHeight > keepLock }
    function MarkAsAttacked(o: OutPoint): Candidate {
      if o in locks then this.(locks := locks[o := locks[o].(fAttacked := true)]) else this
    }
  }

  datatype Node = Node(
    candidates: map<TxHash, Candidate>,
    voted: map<OutPoint, set<TxHash>>,
    locked: map<OutPoint, TxHash>,
    accepted: map<TxHash, Request>,
    rejected: map<TxHash, Request>,
    orphans: map<Vote, int>,
    height: int,
    forgotten: set<OutPoint>)         // history: outpoints of candidates removed so far

  function Fresh(): Node {
    Node(map[], map[], map[], map[], map[], map[], 0, {})
  }

  /** What a step is told about the world. */
  datatype World = World(
    now: int, keepLock: int, synced: bool,
    poolConflict: OutPoint -> bool,   // another transaction in the mempool spends it
    mined: bool,                      // the transaction is in a block already
    unspent: OutPoint -> bool,        // it is in the set of unspent outputs
    requestValid: bool,               // an accepted request is still valid when reprocessed
    spamming: bool)                   // the orphan vote rate limit strikes

  // ----- Locking -----

  predicate IsLocked(s: Node, tx: TxHash) {
    && tx in s.candidates && s.candidates[tx].locks != map[]
    && forall o | o in s.candidates[tx].locks :: o in s.locked && s.locked[o] == tx
  }

  function Expired(s: Node, w: World): set<TxHash> {
    set h | h in s.candidates && s.candidates[h].IsExpired(s.height, w.keepLock)
  }

  /** The outpoints of some candidates. */
  function Touched(s: Node, hs: set<TxHash>): set<OutPoint> {
    set h, o | h in hs && h in s.candidates && o in s.candidates[h].locks :: o
  }

  /** The hashes expired candidates go by: that of their request. A candidate without a
      request goes by the hash of an empty transaction, which nobody accepts. */
  function RequestHashes(s: Node, hs: set<TxHash>): set<TxHash> {
    set h | h in hs && h in s.candidates && s.candidates[h].request.Some? :: s.candidates[h].request.value.hash
  }

  function CheckAndRemove(s: Node, w: World): Node {
    if !w.synced then s else
      var gone := Expired(s, w);
      var outpoints, hashes := Touched(s, gone), RequestHashes(s, gone);
      s.(candidates := s.candidates - gone,
         voted := s.voted - outpoints,
         locked := s.locked - outpoints,
         accepted := s.accepted - hashes,
         rejected := s.rejected - hashes,
         orphans := map v | v in s.orphans && !(w.now - s.orphans[v] > LOCK_TIMEOUT_SECONDS) :: s.orphans[v],
         forgotten := s.forgotten + outpoints)
  }

  datatype Verdict = Clear | LockedBy(other: TxHash) | InPool

  /** The first input with a conflict, if any. */
  function Scan(s: Node, tx: TxHash, vin: seq<OutPoint>, w: World): Verdict {
    if vin == [] then Clear
    else if vin[0] in s.locked && s.locked[vin[0]] != tx then LockedBy(s.locked[vin[0]])
    else if w.poolConflict(vin[0]) then InPool
    else Scan(s, tx, vin[1..], w)
  }

  function InsertNew(m: map<TxHash, Request>, h: TxHash, r: Option<Request>): map<TxHash, Request> {
    if h in m || r.None? then m else m[h := r.value]
  }

  function Expire(c: Candidate): Candidate { c.(confirmedHeight := 0) }

  /** Two completed locks on one outpoint: both are dropped. */
  function DropBoth(s: Node, tx: TxHash, other: TxHash, w: World): Node
    requires tx in s.candidates && other in s.candidates
  {
    var r1, r2 := s.candidates[tx].request, s.candidates[other].request;
    var c := s.candidates[tx := Expire(s.candidates[tx])];
    var t := CheckAndRemove(s.(candidates := c[other := Expire(c[other])]), w);
    t.(rejected := InsertNew(InsertNew(t.rejected, tx, r1), other, r2))
  }

  /** In a block already, or with all its inputs still unspent. */
  predicate Settled(vin: seq<OutPoint>, w: World) {
    w.mined || forall i | 0 <= i < |vin| :: w.unspent(vin[i])
  }

  /** Finalize candidate tx if it is ready and not locked yet. */
  function TryToFinalize(s: Node, tx: TxHash, w: World): Node
    requires tx in s.candidates && s.candidates[tx].request.Some?
  {
    var c := s.candidates[tx];
    if !c.IsAllOutPointsReady() || IsLocked(s, tx) then s
    else
      match Scan(s, tx, c.request.value.vin, w)
      case LockedBy(other) => if other in s.candidates then DropBoth(s, tx, other, w) else s
      case InPool => s
      case Clear => if Settled(c.request.value.vin, w) then s.(locked := LockAll(s.locked, c.locks.Keys, tx)) else s
  }

  /** Lock outpoints that are not locked yet. */
  function LockAll(locked: map<OutPoint, TxHash>, os: set<OutPoint>, tx: TxHash): map<OutPoint, TxHash> {
    (map o | o in os :: tx) + locked
  }

  // ----- Requests -----

  function AddLocks(locks: map<OutPoint, OutPointLock>, vin: seq<OutPoint>): map<OutPoint, OutPointLock> {
    (map o | o in vin :: OutPointLock({}, false)) + locks
  }

  /** The candidate of a valid request; a candidate made by early votes is completed unless
      it has timed out. */
  function CreateCandidate(s: Node, r: Request, w: World): (Node, bool) {
    if r.hash !in s.candidates then
      (s.(candidates := s.candidates[r.hash := Candidate(Some(r), AddLocks(map[], r.vin), w.now, -1)]), true)
    else
      var c := s.candidates[r.hash];
      if c.request.Some? then (s, true)
      else if c.IsTimedOut(w.now) then (s.(candidates := s.candidates[r.hash := c.(request := Some(r))]), false)
      else (s.(candidates := s.candidates[r.hash := c.(request := Some(r), locks := AddLocks(c.locks, r.vin))]), true)
  }

  function ProcessRequest(s: Node, r: Request, valid: bool, w: World): (Node, bool) {
    if !valid then (s, false) else
      var (t, ok) := CreateCandidate(s, r, w);
      if ok then (TryToFinalize(t, r.hash, w), true) else (t, false)
  }

  // ----- Votes -----

  function CreateEmpty(s: Node, tx: TxHash, w: World): Node {
    if tx in s.candidates then s
    else s.(candidates := s.candidates[tx := Candidate(None, map[], w.now, -1)])
  }

  function OrphansFor(orphans: map<Vote, int>, tx: TxHash, o: OutPoint): set<Vote> {
    set v | v in orphans && v.tx == tx && v.outpoint == o
  }

  predicate EnoughOrphans(s: Node, r: Request) {
    forall o | o in r.vin :: |OrphansFor(s.orphans, r.hash, o)| >= SIGNATURES_REQUIRED
  }

  /** The other candidates the masternode has voted for on the outpoint. */
  function Rivals(s: Node, v: Vote): set<TxHash> {
    if v.outpoint !in s.voted then {} else
      set h | h in s.voted[v.outpoint] && h != v.tx && h in s.candidates && s.candidates[h].HasVoted(v.outpoint, v.mn)
  }

  /** Conflicting votes: the outpoint is marked as attacked in all of them. */
  function MarkAll(cs: map<TxHash, Candidate>, hs: set<TxHash>, o: OutPoint): map<TxHash, Candidate> {
    map h | h in cs :: if h in hs then cs[h].MarkAsAttacked(o) else cs[h]
  }

  function Noted(voted: map<OutPoint, set<TxHash>>, o: OutPoint, tx: TxHash): map<OutPoint, set<TxHash>> {
    voted[o := (if o in voted then voted[o] else {}) + {tx}]
  }

  /** Mark attacks and note that the transaction has been voted for. */
  function Note(s: Node, v: Vote): Node {
    var rivals := Rivals(s, v);
    s.(candidates := MarkAll(s.candidates, if rivals == {} then {} else rivals + {v.tx}, v.outpoint),
       voted := Noted(s.voted, v.outpoint, v.tx))
  }

  function AddVote(s: Node, v: Vote): (Node, bool)
    requires v.tx in s.candidates
  {
    var c := s.candidates[v.tx];
    if v.outpoint !in c.locks || v.mn in c.locks[v.outpoint].votes then (s, false) else
      var lock := c.locks[v.outpoint];
      (s.(candidates := s.candidates[v.tx := c.(locks := c.locks[v.outpoint := lock.(votes := lock.votes + {v.mn})])]), true)
  }

  /** A vote for a request not known yet. */
  function ProcessOrphan(s: Node, v: Vote, w: World): (Node, bool) {
    if v in s.orphans then (s, !w.spamming) else
      var e := CreateEmpty(s, v.tx, w);
      var t := e.(orphans := e.orphans[v := w.now]);
      var r := if v.tx in t.accepted then Some(t.accepted[v.tx]) else if v.tx in t.rejected then Some(t.rejected[v.tx]) else None;
      if r.Some? && EnoughOrphans(t, r.value) then (ProcessRequest(t, r.value, w.requestValid, w).0, true)
      else (t, !w.spamming)
  }

  function ProcessVote(s: Node, v: Vote, valid: bool, w: World): (Node, bool) {
    if !valid then (s, false)
    else if v.tx !in s.candidates || s.candidates[v.tx].request.None? then ProcessOrphan(s, v, w)
    else if s.candidates[v.tx].IsTimedOut(w.now) then (s, false)
    else
      var (t, added) := AddVote(Note(s, v), v);
      if added then (TryToFinalize(t, v.tx, w), true) else (t, false)
  }

  /** This node, as a masternode, has voted on the outpoint before. */
  predicate AlreadyVoted(s: Node, o: OutPoint, me: Masternode) {
    o in s.voted && exists h | h in s.voted[o] :: h in s.candidates && s.candidates[h].HasVoted(o, me)
  }

  /** Vote for one outpoint of a candidate. */
  function CastVote(s: Node, v: Vote): (Node, bool)
    requires v.tx in s.candidates
  {
    if AlreadyVoted(s, v.outpoint, v.mn) then (s, false) else
      var (t, added) := AddVote(s, v);
      if added then (t.(voted := Noted(t.voted, v.outpoint, v.tx)), true) else (t, false)
  }

  /** What a masternode sees of an outpoint it may vote on. */
  datatype Ballot = Ballot(coin: OutPoint -> bool, eligible: OutPoint -> bool, signs: OutPoint -> bool)

  /** Vote for the outpoints of a candidate in some order; the votes cast are returned. */
  function CastVotes(s: Node, tx: TxHash, me: Masternode, os: seq<OutPoint>, b: Ballot): (Node, set<Vote>)
    requires tx in s.candidates
    decreases |os|
  {
    if os == [] || !b.coin(os[0]) then (s, {})
    else if !b.eligible(os[0]) || AlreadyVoted(s, os[0], me) then CastVotes(s, tx, me, os[1..], b)
    else if !b.signs(os[0]) then (s, {})
    else
      var v := Vote(tx, os[0], me);
      var (t, added) := CastVote(s, v);
      var (u, cast) := CastVotes(t, tx, me, os[1..], b);
      (u, if added then cast + {v} else cast)
  }

  /** Vote as a masternode on a candidate whose request the mempool has accepted. */
  function OwnVote(s: Node, tx: TxHash, me: Masternode, os: seq<OutPoint>, b: Ballot, w: World): (Node, set<Vote>) {
    if tx !in s.candidates || s.candidates[tx].request.None? then (s, {}) else
      var (t, cast) :=
        if s.candidates[tx].request.value.hash in s.accepted then CastVotes(s, tx, me, os, b) else (s, {});
      if tx in t.candidates && t.candidates[tx].request.Some? then (TryToFinalize(t, tx, w), cast) else (t, cast)
  }

  /** Process the orphan votes again, in some order; those dealt with are dropped. */
  function ProcessOrphans(s: Node, vs: seq<Vote>, valid: Vote -> bool, w: World): Node
    decreases |vs|
  {
    if vs == [] then s else
      var (t, done) := ProcessVote(s, vs[0], valid(vs[0]), w);
      ProcessOrphans(if done then t.(orphans := t.orphans - {vs[0]}) else t, vs[1..], valid, w)
  }

  // ----- Events -----

  datatype Event =
    | Accept(r: Request)
    | Reject(r: Request)
    | GetRequest(r: Request, valid: bool, w: World)
    | GetVote(v: Vote, valid: bool, w: World)
    | CastOwn(tx: TxHash, me: Masternode, os: seq<OutPoint>, b: Ballot, w: World)
    | RetryOrphans(vs: seq<Vote>, ok: Vote -> bool, w: World)
    | Clean(w: World)
    | Confirm(tx: TxHash, at: int)
    | Tip(at: int)

  /** One step of a node, and the votes it casts in it. */
  function Step(s: Node, e: Event): (Node, set<Vote>) {
    match e
    case Accept(r) => (s.(accepted := InsertNew(s.accepted, r.hash, Some(r))), {})
    case Reject(r) => (s.(rejected := InsertNew(s.rejected, r.hash, Some(r))), {})
    case GetRequest(r, valid, w) => (ProcessRequest(s, r, valid, w).0, {})
    case GetVote(v, valid, w) => (ProcessVote(s, v, valid, w).0, {})
    case CastOwn(tx, me, os, b, w) => OwnVote(s, tx, me, os, b, w)
    case RetryOrphans(vs, ok, w) => (ProcessOrphans(s, vs, ok, w), {})
    case Clean(w) => (CheckAndRemove(s, w), {})
    case Confirm(tx, at) =>
      (if tx in s.candidates then s.(candidates := s.candidates[tx := s.candidates[tx].(confirmedHeight := at)]) else s, {})
    case Tip(at) => (s.(height := at), {})
  }
}
