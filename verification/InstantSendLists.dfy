/** The lists of transactions voted for on an outpoint. Voting looks every transaction on a
    list up without asking whether it still has a candidate, so it is defined only as long
    as the lists name known candidates. This holds as long as every vote noted names an
    outpoint of its candidate, and can fail otherwise. */
module InstantSendLists {
  import opened Common
  import opened InstantSend
  import opened InstantSendSafety

  /** Every transaction listed under an outpoint has a candidate. */
  ghost predicate ListsKnown(s: Node) {
    forall o | o in s.voted :: s.voted[o] <= s.candidates.Keys
  }

  /** The transaction has a candidate with this outpoint. */
  predicate HasLock(s: Node, h: TxHash, o: OutPoint) {
    h in s.candidates && o in s.candidates[h].locks
  }

  /** Every transaction is listed only under outpoints of its candidate. */
  ghost predicate WellListed(s: Node) {
    forall h, o {:trigger Listed(s, h, o)} | Listed(s, h, o) :: HasLock(s, h, o)
  }

  lemma WellListedKnown(s: Node)
    requires WellListed(s)
    ensures ListsKnown(s)
  {
    forall o | o in s.voted ensures s.voted[o] <= s.candidates.Keys {
      forall h | h in s.voted[o] ensures h in s.candidates { assert Listed(s, h, o); }
    }
  }

  lemma CastListsKnown(s: Node, v: Vote)
    requires ListsKnown(s) && v.tx in s.candidates
    ensures ListsKnown(CastVote(s, v).0) && v.tx in CastVote(s, v).0.candidates
  {
  }

  // ----- Steps -----

  /** Nothing new is listed, and what stays listed keeps its lock. */
  ghost predicate NoneListed(s: Node, t: Node) {
    forall h, o {:trigger Listed(t, h, o)} | Listed(t, h, o) :: Listed(s, h, o) && (HasLock(s, h, o) ==> HasLock(t, h, o))
  }

  lemma NoneListedKeeps(s: Node, t: Node)
    requires WellListed(s) && NoneListed(s, t)
    ensures WellListed(t)
  {
  }

  /** A removed candidate takes the lists of its outpoints with it. */
  lemma RemoveWell(s: Node, w: World)
    requires WellListed(s)
    ensures WellListed(CheckAndRemove(s, w))
  {
    var t, gone := CheckAndRemove(s, w), Expired(s, w);
    forall h, o | Listed(t, h, o) ensures HasLock(t, h, o) {
      assert Listed(s, h, o);
      assert HasLock(s, h, o);
      assert h in gone ==> o in Touched(s, gone);
    }
  }

  lemma FinalizeWell(s: Node, tx: TxHash, w: World)
    requires WellListed(s) && tx in s.candidates && s.candidates[tx].request.Some?
    ensures WellListed(TryToFinalize(s, tx, w))
  {
    var t := TryToFinalize(s, tx, w);
    if t.voted == s.voted && t.candidates == s.candidates {
      assert NoneListed(s, t);
    } else {
      var c := s.candidates[tx];
      var other := Scan(s, tx, c.request.value.vin, w).other;
      DropWell(s, tx, other, w);
    }
  }

  lemma DropWell(s: Node, tx: TxHash, other: TxHash, w: World)
    requires WellListed(s) && tx in s.candidates && other in s.candidates
    ensures WellListed(DropBoth(s, tx, other, w))
  {
    var c := s.candidates[tx := Expire(s.candidates[tx])];
    var u := s.(candidates := c[other := Expire(c[other])]);
    assert NoneListed(s, u);
    NoneListedKeeps(s, u);
    RemoveWell(u, w);
    var t := CheckAndRemove(u, w);
    assert NoneListed(t, DropBoth(s, tx, other, w));
  }

  /** Candidates may be replaced by ones with more outpoints. */
  lemma PutWell(s: Node, h: TxHash, c: Candidate)
    requires WellListed(s) && (h in s.candidates ==> s.candidates[h].locks.Keys <= c.locks.Keys)
    ensures WellListed(s.(candidates := s.candidates[h := c]))
  {
    var t := s.(candidates := s.candidates[h := c]);
    assert NoneListed(s, t);
  }

  lemma CreateWell(s: Node, r: Request, w: World)
    requires WellListed(s)
    ensures WellListed(CreateCandidate(s, r, w).0)
  {
    var t := CreateCandidate(s, r, w).0;
    if t != s { PutWell(s, r.hash, t.candidates[r.hash]); }
  }

  lemma RequestWell(s: Node, r: Request, valid: bool, w: World)
    requires WellListed(s)
    ensures WellListed(ProcessRequest(s, r, valid, w).0)
  {
    if valid {
      CreateWell(s, r, w);
      CreateGives(s, r, w);
      var (t, ok) := CreateCandidate(s, r, w);
      if ok { FinalizeWell(t, r.hash, w); }
    }
  }

  /** Noting a vote keeps the lists well exactly if the vote names an outpoint of its
      candidate. Nothing asks this before the vote is noted. */
  lemma NoteWell(s: Node, v: Vote)
    requires WellListed(s) && v.tx in s.candidates
    ensures WellListed(Note(s, v)) <==> v.outpoint in s.candidates[v.tx].locks
  {
    var t := Note(s, v);
    assert Listed(t, v.tx, v.outpoint);
    forall h, o | HasLock(s, h, o) ensures HasLock(t, h, o) { }
    assert HasLock(t, v.tx, v.outpoint) ==> v.outpoint in s.candidates[v.tx].locks;
    forall h, o | Listed(t, h, o) ensures Listed(s, h, o) || (h == v.tx && o == v.outpoint) { }
  }

  /** The vote is not noted, or names an outpoint of its candidate. */
  predicate Fits(s: Node, v: Vote, valid: bool, w: World) {
    valid && v.tx in s.candidates && s.candidates[v.tx].request.Some? && !s.candidates[v.tx].IsTimedOut(w.now) ==>
      v.outpoint in s.candidates[v.tx].locks
  }

  lemma ProcessVoteWell(s: Node, v: Vote, valid: bool, w: World)
    requires WellListed(s)
    ensures WellListed(ProcessVote(s, v, valid, w).0) <==> Fits(s, v, valid, w)
  {
    if valid {
      if v.tx !in s.candidates || s.candidates[v.tx].request.None? {
        OrphanWell(s, v, w);
      } else if !s.candidates[v.tx].IsTimedOut(w.now) {
        NoteWell(s, v);
        var n := Note(s, v);
        var (t, added) := AddVote(n, v);
        if added {
          assert NoneListed(n, t);
          FinalizeWell(t, v.tx, w);
        }
      }
    }
  }

  lemma OrphanWell(s: Node, v: Vote, w: World)
    requires WellListed(s)
    ensures WellListed(ProcessOrphan(s, v, w).0)
  {
    if v !in s.orphans {
      var e := CreateEmpty(s, v.tx, w);
      var t := e.(orphans := e.orphans[v := w.now]);
      assert NoneListed(s, t);
      NoneListedKeeps(s, t);
      var r := if v.tx in t.accepted then Some(t.accepted[v.tx]) else if v.tx in t.rejected then Some(t.rejected[v.tx]) else None;
      if r.Some? && EnoughOrphans(t, r.value) { RequestWell(t, r.value, w.requestValid, w); }
    }
  }

  /** A node's own votes are on outpoints of the candidate. */
  lemma CastWell(s: Node, v: Vote)
    requires WellListed(s) && v.tx in s.candidates
    ensures WellListed(CastVote(s, v).0) && v.tx in CastVote(s, v).0.candidates
  {
    var (t, added) := CastVote(s, v);
    if added {
      forall h, o | Listed(t, h, o) ensures HasLock(t, h, o) {
        assert Listed(s, h, o) || (h == v.tx && o == v.outpoint);
      }
    }
  }

  lemma {:induction false} CastVotesWell(s: Node, tx: TxHash, me: Masternode, os: seq<OutPoint>, b: Ballot)
    requires WellListed(s) && tx in s.candidates
    ensures WellListed(CastVotes(s, tx, me, os, b).0)
    decreases |os|
  {
    if os == [] || !b.coin(os[0]) {
    } else if !b.eligible(os[0]) || AlreadyVoted(s, os[0], me) {
      CastVotesWell(s, tx, me, os[1..], b);
    } else if b.signs(os[0]) {
      var v := Vote(tx, os[0], me);
      CastWell(s, v);
      CastVotesWell(CastVote(s, v).0, tx, me, os[1..], b);
    }
  }

  lemma OwnVoteWell(s: Node, tx: TxHash, me: Masternode, os: seq<OutPoint>, b: Ballot, w: World)
    requires WellListed(s)
    ensures WellListed(OwnVote(s, tx, me, os, b, w).0)
  {
    if tx in s.candidates && s.candidates[tx].request.Some? {
      if s.candidates[tx].request.value.hash in s.accepted { CastVotesWell(s, tx, me, os, b); }
      var t := if s.candidates[tx].request.value.hash in s.accepted then CastVotes(s, tx, me, os, b).0 else s;
      if tx in t.candidates && t.candidates[tx].request.Some? { FinalizeWell(t, tx, w); }
    }
  }

  /** Each orphan vote fits when its turn comes. */
  predicate AllFit(s: Node, vs: seq<Vote>, valid: Vote -> bool, w: World)
    decreases |vs|
  {
    vs != [] ==>
      var (t, done) := ProcessVote(s, vs[0], valid(vs[0]), w);
      Fits(s, vs[0], valid(vs[0]), w) && AllFit(if done then t.(orphans := t.orphans - {vs[0]}) else t, vs[1..], valid, w)
  }

  lemma {:induction false} ProcessOrphansWell(s: Node, vs: seq<Vote>, valid: Vote -> bool, w: World)
    requires WellListed(s) && AllFit(s, vs, valid, w)
    ensures WellListed(ProcessOrphans(s, vs, valid, w))
    decreases |vs|
  {
    if vs != [] {
      ProcessVoteWell(s, vs[0], valid(vs[0]), w);
      var (t, done) := ProcessVote(s, vs[0], valid(vs[0]), w);
      var u := if done then t.(orphans := t.orphans - {vs[0]}) else t;
      assert NoneListed(t, u);
      ProcessOrphansWell(u, vs[1..], valid, w);
    }
  }

  // ----- Runs -----

  /** The votes noted in a step name outpoints of their candidates. */
  predicate StepFits(s: Node, e: Event) {
    match e
    case GetVote(v, valid, w) => Fits(s, v, valid, w)
    case RetryOrphans(vs, ok, w) => AllFit(s, vs, ok, w)
    case _ => true
  }

  /** Votes that fit keep the lists well; a single one that does not spoils them. */
  lemma StepWell(s: Node, e: Event)
    requires WellListed(s)
    ensures StepFits(s, e) ==> WellListed(Step(s, e).0)
    ensures WellListed(Step(s, e).0) && !e.RetryOrphans? ==> StepFits(s, e)
  {
    var t := Step(s, e).0;
    match e
    case GetRequest(r, valid, w) => RequestWell(s, r, valid, w);
    case GetVote(v, valid, w) => ProcessVoteWell(s, v, valid, w);
    case CastOwn(tx, me, os, b, w) => OwnVoteWell(s, tx, me, os, b, w);
    case RetryOrphans(vs, ok, w) => if AllFit(s, vs, ok, w) { ProcessOrphansWell(s, vs, ok, w); }
    case Clean(w) => RemoveWell(s, w);
    case _ => assert NoneListed(s, t);
  }

  predicate RunFits(s: Node, es: seq<Event>)
    decreases |es|
  {
    es != [] ==> StepFits(s, es[0]) && RunFits(Step(s, es[0]).0, es[1..])
  }

  lemma {:induction false} RunWell(s: Node, es: seq<Event>)
    requires WellListed(s) && RunFits(s, es)
    ensures WellListed(Run(s, es))
    decreases |es|
  {
    if es != [] {
      StepWell(s, es[0]);
      RunWell(Step(s, es[0]).0, es[1..]);
    }
  }

  /** In every state reached by a run in which the votes noted fit, the lists name known
      candidates, so that voting is defined. */
  lemma RunKnown(es: seq<Event>)
    requires RunFits(Fresh(), es)
    ensures ListsKnown(Run(Fresh(), es))
  {
    RunWell(Fresh(), es);
    WellListedKnown(Run(Fresh(), es));
  }

  // ----- A run that spoils the lists -----

  /** The world of the example: the clock stands still and locks are kept for six blocks. */
  function Plain(): World { World(0, 6, true, o => false, false, o => true, true, false) }

  /** Transaction 1 spends outpoint 10, a masternode votes for it on outpoint 20, and the
      transaction is confirmed and forgotten. */
  function StrayRun(mn: Masternode): seq<Event> { StrayStart(mn, [Clean(Plain())]) }

  function StrayStart(mn: Masternode, rest: seq<Event>): seq<Event> {
    [GetRequest(Request(1, [10]), true, Plain())] +
    ([GetVote(Vote(1, 20, mn), true, Plain())] + ([Confirm(1, 0)] + ([Tip(7)] + rest)))
  }

  /** What the run has made of the candidate before it is removed. */
  function Spent(locks: map<OutPoint, OutPointLock>): Node {
    Fresh().(candidates := map[1 := Candidate(Some(Request(1, [10])), locks, 0, 0)], voted := map[20 := {1}], height := 7)
  }

  lemma StrayRequested(r: Request, s: Node)
    requires r == Request(1, [10])
    requires s == Fresh().(candidates := map[1 := Candidate(Some(r), map[10 := OutPointLock({}, false)], 0, -1)])
    ensures Step(Fresh(), GetRequest(r, true, Plain())).0 == s
  {
    var c := s.candidates[1];
    assert AddLocks(map[], r.vin) == c.locks;
    assert !c.locks[10].IsReady() && !c.IsAllOutPointsReady();
  }

  lemma StrayNoted(v: Vote, s: Node, t: Node)
    requires v.tx == 1 && v.outpoint == 20 && t == s.(voted := map[20 := {1}])
    requires s == Fresh().(candidates := map[1 := Candidate(Some(Request(1, [10])), map[10 := OutPointLock({}, false)], 0, -1)])
    ensures Step(s, GetVote(v, true, Plain())).0 == t
  {
    assert Rivals(s, v) == {} && MarkAll(s.candidates, {}, 20) == s.candidates;
    assert {} + {1} == {1 as nat};
    assert Note(s, v) == t;
  }

  lemma StrayConfirmed(t: Node, u: Node)
    requires t == Fresh().(candidates := map[1 := Candidate(Some(Request(1, [10])), map[10 := OutPointLock({}, false)], 0, -1)], voted := map[20 := {1}])
    requires u == t.(candidates := map[1 := t.candidates[1].(confirmedHeight := 0)])
    ensures Step(t, Confirm(1, 0)).0 == u && Step(u, Tip(7)).0 == Spent(map[10 := OutPointLock({}, false)])
  {
    assert t.candidates[1 := t.candidates[1].(confirmedHeight := 0)] == u.candidates;
  }

  lemma RunStep(s: Node, e: Event, es: seq<Event>, t: Node)
    requires Step(s, e).0 == t
    ensures Run(s, [e] + es) == Run(t, es)
  {
    RunFirst(s, e, es);
  }

  /** The run up to the removal. */
  lemma StraySpent(mn: Masternode, rest: seq<Event>)
    ensures Run(Fresh(), StrayStart(mn, rest)) == Run(Spent(map[10 := OutPointLock({}, false)]), rest)
  {
    var s := Fresh().(candidates := map[1 := Candidate(Some(Request(1, [10])), map[10 := OutPointLock({}, false)], 0, -1)]);
    var t := s.(voted := map[20 := {1}]);
    var u := t.(candidates := map[1 := t.candidates[1].(confirmedHeight := 0)]);
    var d := [Tip(7)] + rest;
    var c := [Confirm(1, 0)] + d;
    var b := [GetVote(Vote(1, 20, mn), true, Plain())] + c;
    StrayRequested(Request(1, [10]), s);
    StrayNoted(Vote(1, 20, mn), s, t);
    StrayConfirmed(t, u);
    RunStep(Fresh(), GetRequest(Request(1, [10]), true, Plain()), b, s);
    RunStep(s, GetVote(Vote(1, 20, mn), true, Plain()), c, t);
    RunStep(t, Confirm(1, 0), d, u);
    RunStep(u, Tip(7), rest, Spent(map[10 := OutPointLock({}, false)]));
  }

  lemma StrayEnds(s: Node, t: Node, e: Event)
    requires Step(s, e).0 == t
    ensures Run(s, [e]) == t
  {
    RunStep(s, e, [], t);
    assert [e] + [] == [e];
  }

  lemma StrayRuns(mn: Masternode, s: Node, t: Node)
    requires s == Spent(map[10 := OutPointLock({}, false)]) && t == CheckAndRemove(s, Plain())
    ensures Run(Fresh(), StrayRun(mn)) == t
  {
    StraySpent(mn, [Clean(Plain())]);
    StrayEnds(s, t, Clean(Plain()));
  }

  /** Without the condition it fails: after this run the list of an outpoint names a
      transaction that has no candidate any more. */
  lemma StrayLeavesUnknown(mn: Masternode)
    ensures !ListsKnown(Run(Fresh(), StrayRun(mn)))
  {
    var s := Spent(map[10 := OutPointLock({}, false)]);
    StrayRemoved(s);
    StrayRuns(mn, s, CheckAndRemove(s, Plain()));
  }

  lemma StrayRemoved(s: Node)
    requires s == Spent(map[10 := OutPointLock({}, false)])
    ensures !ListsKnown(CheckAndRemove(s, Plain()))
  {
    var t, gone := CheckAndRemove(s, Plain()), Expired(s, Plain());
    assert s.candidates[1].IsExpired(7, 6);
    assert 1 in gone && 20 !in Touched(s, gone);
    assert 20 in t.voted && 1 in t.voted[20] && 1 !in t.candidates;
  }
}
