/** Why safety is stated only for outpoints of which no candidate has been removed: removing
    one erases the list of transactions voted for on its outpoints, and with it what is
    needed to notice that a masternode votes twice. */
module InstantSendForgets {
  import opened Common
  import opened InstantSend
  import opened InstantSendSafety
  import opened InstantSendLists

  const COIN: OutPoint := 10

  /** The masternodes of the example, numbered from 1. */
  function Firsts(k: nat): set<Masternode> { if k == 0 then {} else Firsts(k - 1) + {k} }

  lemma {:induction false} FirstsSize(k: nat)
    ensures |Firsts(k)| == k && forall i: nat | i in Firsts(k) :: 1 <= i <= k
  {
    if k > 0 { FirstsSize(k - 1); }
  }

  function Asks(tx: TxHash): Event { GetRequest(Request(tx, [COIN]), true, Plain()) }
  function Votes(tx: TxHash, mn: Masternode): Event { GetVote(Vote(tx, COIN, mn), true, Plain()) }

  function Six(tx: TxHash): seq<Event> {
    [Votes(tx, 1), Votes(tx, 2), Votes(tx, 3), Votes(tx, 4), Votes(tx, 5), Votes(tx, 6)]
  }

  /** The same six masternodes vote for transactions 1 and 2, which spend the same coin; in
      between, transaction 3, which spends it too, is confirmed and forgotten. */
  function ForgetfulRun(): seq<Event> {
    [Asks(1)] + Six(1) + ([Asks(3)] + Forgetting()) + [Asks(2)] + Six(2)
  }

  ghost function Quorum(o: OutPoint): set<Masternode> { Firsts(6) }
  predicate ByQuorum(v: Vote) { v.mn in Firsts(6) }

  // ----- Six votes -----

  function Asked(tx: TxHash, votes: set<Masternode>): Candidate {
    Candidate(Some(Request(tx, [COIN])), map[COIN := OutPointLock(votes, false)], 0, -1)
  }

  predicate Open(s: Node, tx: TxHash) {
    tx in s.candidates && s.candidates[tx] == Asked(tx, {}) && COIN !in s.voted && COIN !in s.locked
  }

  function AfterVotes(s: Node, tx: TxHash, m: set<Masternode>): Node {
    s.(candidates := s.candidates[tx := Asked(tx, m)], voted := if m == {} then s.voted else s.voted[COIN := {tx}])
  }

  function Done(s: Node, tx: TxHash, m: set<Masternode>): Node {
    AfterVotes(s, tx, m).(locked := s.locked[COIN := tx])
  }

  /** A masternode's first vote on the coin is noted and added. */
  lemma VoteAdds(a: Node, tx: TxHash, mn: Masternode, m: set<Masternode>)
    requires tx in a.candidates && a.candidates[tx] == Asked(tx, m) && mn !in m
    requires COIN !in a.voted || a.voted[COIN] == {tx}
    ensures AddVote(Note(a, Vote(tx, COIN, mn)), Vote(tx, COIN, mn)) ==
      (a.(candidates := a.candidates[tx := Asked(tx, m + {mn})], voted := a.voted[COIN := {tx}]), true)
  {
    var v := Vote(tx, COIN, mn);
    assert Rivals(a, v) == {};
    assert MarkAll(a.candidates, {}, COIN) == a.candidates;
    assert Noted(a.voted, COIN, tx) == a.voted[COIN := {tx}] by { assert {tx} + {tx} == {tx} && {} + {tx} == {tx}; }
    var c := Asked(tx, m);
    assert c.locks[COIN := OutPointLock(m + {mn}, false)] == Asked(tx, m + {mn}).locks;
  }

  lemma FinalizeWaits(t: Node, tx: TxHash, m: set<Masternode>)
    requires tx in t.candidates && t.candidates[tx] == Asked(tx, m) && |m| < SIGNATURES_REQUIRED
    ensures TryToFinalize(t, tx, Plain()) == t
  {
    assert !t.candidates[tx].locks[COIN].IsReady();
  }

  lemma FinalizeLocks(t: Node, tx: TxHash, m: set<Masternode>)
    requires tx in t.candidates && t.candidates[tx] == Asked(tx, m) && |m| >= SIGNATURES_REQUIRED && COIN !in t.locked
    ensures TryToFinalize(t, tx, Plain()) == t.(locked := t.locked[COIN := tx])
  {
    var c := t.candidates[tx];
    assert c.locks[COIN].IsReady() && c.IsAllOutPointsReady();
    assert COIN in c.locks && !IsLocked(t, tx);
    assert c.request.value.vin[1..] == [];
    assert Scan(t, tx, c.request.value.vin, Plain()) == Clear;
    assert LockAll(t.locked, c.locks.Keys, tx) == t.locked[COIN := tx];
  }

  lemma VoteAddsNext(s: Node, tx: TxHash, m: set<Masternode>, mn: Masternode)
    requires Open(s, tx) && mn !in m
    ensures AddVote(Note(AfterVotes(s, tx, m), Vote(tx, COIN, mn)), Vote(tx, COIN, mn)) == (AfterVotes(s, tx, m + {mn}), true)
  {
    var a := AfterVotes(s, tx, m);
    VoteAdds(a, tx, mn, m);
    assert a.candidates[tx := Asked(tx, m + {mn})] == s.candidates[tx := Asked(tx, m + {mn})];
    assert a.voted[COIN := {tx}] == s.voted[COIN := {tx}];
  }

  lemma ProcessAdded(a: Node, tx: TxHash, m: set<Masternode>, mn: Masternode, t: Node)
    requires tx in a.candidates && a.candidates[tx] == Asked(tx, m) && tx in t.candidates && t.candidates[tx].request.Some?
    requires AddVote(Note(a, Vote(tx, COIN, mn)), Vote(tx, COIN, mn)) == (t, true)
    ensures Step(a, Votes(tx, mn)).0 == TryToFinalize(t, tx, Plain())
  {
    ProcessCounted(a, Vote(tx, COIN, mn), Plain(), t);
  }

  lemma ProcessCounted(a: Node, v: Vote, w: World, t: Node)
    requires v.tx in a.candidates && a.candidates[v.tx].request.Some? && !a.candidates[v.tx].IsTimedOut(w.now)
    requires AddVote(Note(a, v), v) == (t, true) && v.tx in t.candidates && t.candidates[v.tx].request.Some?
    ensures ProcessVote(a, v, true, w) == (TryToFinalize(t, v.tx, w), true)
  {
  }

  lemma VoteStep(s: Node, tx: TxHash, m: set<Masternode>, mn: Masternode)
    requires Open(s, tx) && mn !in m
    ensures var t := Step(AfterVotes(s, tx, m), Votes(tx, mn)).0;
      t == if |m| < 5 then AfterVotes(s, tx, m + {mn}) else Done(s, tx, m + {mn})
  {
    VoteAddsNext(s, tx, m, mn);
    var t := AfterVotes(s, tx, m + {mn});
    ProcessAdded(AfterVotes(s, tx, m), tx, m, mn, t);
    if |m| < 5 { FinalizeWaits(t, tx, m + {mn}); } else { FinalizeLocks(t, tx, m + {mn}); }
  }

  lemma {:induction false} VotesFrom(s: Node, tx: TxHash, k: nat)
    requires Open(s, tx) && k < 6
    ensures Run(AfterVotes(s, tx, Firsts(k)), Six(tx)[k..]) == Done(s, tx, Firsts(6))
    decreases 6 - k
  {
    var es, m, m' := Six(tx), Firsts(k), Firsts(k + 1);
    assert es[k] == Votes(tx, k + 1);
    assert es[k..] == [es[k]] + es[k + 1..];
    FirstsSize(k);
    VoteStep(s, tx, m, k + 1);
    RunFirst(AfterVotes(s, tx, m), es[k], es[k + 1..]);
    if k < 5 { VotesFrom(s, tx, k + 1); }
  }

  lemma SixVotes(s: Node, tx: TxHash)
    requires Open(s, tx)
    ensures Run(s, Six(tx)) == Done(s, tx, Firsts(6))
  {
    var es := Six(tx);
    assert AfterVotes(s, tx, {}) == s;
    VotesFrom(s, tx, 0);
    assert es[0..] == es;
  }

  // ----- The whole run -----

  lemma {:induction false} RunSplit(s: Node, a: seq<Event>, b: seq<Event>)
    ensures Run(s, a + b) == Run(Run(s, a), b)
    decreases |a|
  {
    if a == [] {
      assert a + b == b;
    } else {
      assert a + b == [a[0]] + (a[1..] + b);
      RunFirst(s, a[0], a[1..] + b);
      RunSplit(Step(s, a[0]).0, a[1..], b);
    }
  }

  lemma AskStep(s: Node, tx: TxHash)
    requires tx !in s.candidates
    ensures Run(s, [Asks(tx)]) == s.(candidates := s.candidates[tx := Asked(tx, {})])
  {
    var t := s.(candidates := s.candidates[tx := Asked(tx, {})]);
    assert AddLocks(map[], [COIN]) == Asked(tx, {}).locks;
    FinalizeWaits(t, tx, {});
    RunFirst(s, Asks(tx), []);
    assert [Asks(tx)] + [] == [Asks(tx)];
  }

  /** Transaction 1 has its votes and the lock. */
  function Before(m: set<Masternode>): Node {
    Fresh().(candidates := map[1 := Asked(1, m)], voted := map[COIN := {1}], locked := map[COIN := 1])
  }

  lemma DoneFirst(s: Node, m: set<Masternode>)
    requires s == Fresh().(candidates := map[1 := Asked(1, {})]) && m != {}
    ensures Open(s, 1) && Done(s, 1, m) == Before(m)
  {
  }

  lemma RunBefore(m: set<Masternode>)
    requires m == Firsts(6)
    ensures Run(Fresh(), [Asks(1)] + Six(1)) == Before(m)
  {
    RunSplit(Fresh(), [Asks(1)], Six(1));
    AskStep(Fresh(), 1);
    var s := Fresh().(candidates := map[1 := Asked(1, {})]);
    DoneFirst(s, m);
    SixVotes(s, 1);
  }

  /** The votes of transaction 1 are still there, but not the list and the lock. */
  function After(m: set<Masternode>): Node {
    Fresh().(candidates := map[1 := Asked(1, m)], height := 7, forgotten := {COIN})
  }

  function Forgetting(): seq<Event> { [Confirm(3, 0), Tip(7), Clean(Plain())] }

  lemma Forgets(m: set<Masternode>)
    ensures Run(Before(m), [Asks(3)] + Forgetting()) == After(m)
  {
    var s, es := Before(m), Forgetting();
    var t := s.(candidates := s.candidates[3 := Asked(3, {})]);
    AskStep(s, 3);
    RunSplit(s, [Asks(3)], es);
    ForgetsRun(m, t);
  }

  lemma ForgetsRun(m: set<Masternode>, t: Node)
    requires t == Before(m).(candidates := Before(m).candidates[3 := Asked(3, {})])
    ensures Run(t, Forgetting()) == After(m)
  {
    var es := Forgetting();
    var c := t.candidates[3 := Asked(3, {}).(confirmedHeight := 0)];
    RunThree(t, es[0], es[1], es[2]);
    assert Step(Step(t, es[0]).0, es[1]).0 == t.(candidates := c, height := 7);
    assert c == map[1 := Asked(1, m), 3 := Asked(3, {}).(confirmedHeight := 0)];
    ForgetsClean(m, t.(candidates := c, height := 7));
  }

  lemma RunThree(s: Node, a: Event, b: Event, c: Event)
    ensures Run(s, [a, b, c]) == Step(Step(Step(s, a).0, b).0, c).0
  {
    var t := Step(s, a).0;
    RunFirst(s, a, [b, c]);
    RunFirst(t, b, [c]);
    RunFirst(Step(t, b).0, c, []);
    assert [a, b, c] == [a] + [b, c] && [b, c] == [b] + [c] && [c] == [c] + [];
  }

  lemma ForgetsClean(m: set<Masternode>, s: Node)
    requires s == Before(m).(candidates := map[1 := Asked(1, m), 3 := Asked(3, {}).(confirmedHeight := 0)], height := 7)
    ensures CheckAndRemove(s, Plain()) == After(m)
  {
    ForgetsWhich(m, s);
    ForgetsMaps(s, Asked(1, m));
    assert {} + {COIN} == {COIN};
  }

  lemma ForgetsMaps(s: Node, c: Candidate)
    requires s.candidates.Keys == {1, 3} && s.candidates[1] == c && s.voted.Keys == {COIN} && s.locked.Keys == {COIN}
    requires s.accepted == map[] && s.rejected == map[] && s.orphans == map[]
    ensures s.candidates - {3} == map[1 := c] && s.voted - {COIN} == map[] && s.locked - {COIN} == map[]
    ensures s.accepted - {3} == map[] && s.rejected - {3} == map[]
    ensures (map v | v in s.orphans && !(0 - s.orphans[v] > LOCK_TIMEOUT_SECONDS) :: s.orphans[v]) == map[]
  {
  }

  lemma ForgetsWhich(m: set<Masternode>, s: Node)
    requires s == Before(m).(candidates := map[1 := Asked(1, m), 3 := Asked(3, {}).(confirmedHeight := 0)], height := 7)
    ensures Expired(s, Plain()) == {3} && Touched(s, {3}) == {COIN} && RequestHashes(s, {3}) == {3}
  {
    assert Expired(s, Plain()) == {3};
    assert COIN in s.candidates[3].locks && s.candidates[3].request.value.hash == 3;
  }

  /** Events that any node may see, whatever its state. */
  predicate Plausible(e: Event) {
    !e.CastOwn? && !e.RetryOrphans? && (e.GetVote? ==> ByQuorum(e.v))
  }

  lemma {:induction false} PlausibleLawful(s: Node, es: seq<Event>)
    requires forall e | e in es :: Plausible(e)
    ensures LawfulRun(s, es, ByQuorum)
    decreases |es|
  {
    if es != [] {
      assert es[0] in es && forall e | e in es[1..] :: e in es;
      assert Plausible(es[0]);
      PlausibleLawful(Step(s, es[0]).0, es[1..]);
    }
  }

  /** The state at the end of the run. */
  function Ended(m: set<Masternode>): Node {
    Done(After(m).(candidates := After(m).candidates[2 := Asked(2, {})]), 2, m)
  }

  lemma RunForgetful(m: set<Masternode>)
    requires m == Firsts(6)
    ensures Run(Fresh(), ForgetfulRun()) == Ended(m)
  {
    var a, b, c := [Asks(1)] + Six(1), [Asks(3)] + Forgetting(), [Asks(2)];
    RunBefore(m);
    Forgets(m);
    AskStep(After(m), 2);
    SixVotes(After(m).(candidates := After(m).candidates[2 := Asked(2, {})]), 2);
    RunSplit(Fresh(), a + b + c, Six(2));
    RunSplit(Fresh(), a + b, c);
    RunSplit(Fresh(), a, b);
  }

  lemma SixPlausible(tx: TxHash)
    ensures forall e | e in Six(tx) :: Plausible(e)
  {
    assert Firsts(6) == {1, 2, 3, 4, 5, 6};
  }

  lemma RestPlausible()
    ensures Plausible(Asks(1)) && Plausible(Asks(2)) && forall e | e in [Asks(3)] + Forgetting() :: Plausible(e)
  {
  }

  lemma JoinPlausible(a: seq<Event>, b: seq<Event>)
    requires (forall e | e in a :: Plausible(e)) && (forall e | e in b :: Plausible(e))
    ensures forall e | e in a + b :: Plausible(e)
  {
  }

  lemma ForgetfulPlausible()
    ensures forall e | e in ForgetfulRun() :: Plausible(e)
  {
    RestPlausible();
    SixPlausible(1);
    SixPlausible(2);
    var a := [Asks(1)];
    JoinPlausible(a, Six(1));
    JoinPlausible(a + Six(1), [Asks(3)] + Forgetting());
    JoinPlausible(a + Six(1) + ([Asks(3)] + Forgetting()), [Asks(2)]);
    JoinPlausible(a + Six(1) + ([Asks(3)] + Forgetting()) + [Asks(2)], Six(2));
  }

  lemma ForgetfulQuorum()
    ensures Eligible(ByQuorum, Quorum) && Bounded(Quorum)
  {
    FirstsSize(6);
  }

  lemma ForgetfulLawful()
    ensures LawfulRun(Fresh(), ForgetfulRun(), ByQuorum)
  {
    ForgetfulPlausible();
    PlausibleLawful(Fresh(), ForgetfulRun());
  }

  /** After a lawful run in which a quorum of six votes twice, two transactions that spend
      the same coin are both ready, and the lock has passed from one to the other. */
  lemma ForgottenBothReady()
    ensures Eligible(ByQuorum, Quorum) && Bounded(Quorum) && LawfulRun(Fresh(), ForgetfulRun(), ByQuorum)
    ensures IsLocked(Run(Fresh(), [Asks(1)] + Six(1)), 1)
    ensures var s := Run(Fresh(), ForgetfulRun());
      && 1 in s.candidates && s.candidates[1].IsAllOutPointsReady() && COIN in s.candidates[1].locks
      && 2 in s.candidates && s.candidates[2].IsAllOutPointsReady() && COIN in s.candidates[2].locks
      && IsLocked(s, 2)
  {
    var m := Firsts(6);
    FirstsSize(6);
    ForgetfulQuorum();
    ForgetfulLawful();
    RunBefore(m);
    RunForgetful(m);
    ReadyLocked(m);
  }

  lemma ReadyLocked(m: set<Masternode>)
    requires |m| == 6
    ensures Asked(1, m).IsAllOutPointsReady() && Asked(2, m).IsAllOutPointsReady()
    ensures IsLocked(Before(m), 1) && IsLocked(Ended(m), 2)
  {
    assert COIN in Asked(1, m).locks && COIN in Asked(2, m).locks;
    assert Asked(1, m).locks[COIN].IsReady() && Asked(2, m).locks[COIN].IsReady();
  }
}
