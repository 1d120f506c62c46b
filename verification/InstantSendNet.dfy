/** Any number of InstantSend nodes and the votes signed so far: a masternode that follows
    the protocol votes once per outpoint, and one dishonest voter out of ten cannot make
    two nodes lock conflicting transactions. */
module InstantSendNet {
  import opened Common
  import opened InstantSend
  import opened InstantSendSafety

  // ----- Records last until their candidate is removed -----

  /** Votes, marks and locks on outpoints not forgotten are kept. */
  ghost predicate Onward(s: Node, t: Node) {
    && s.forgotten <= t.forgotten
    && (forall h, o, mn {:trigger Recorded(s, h, o, mn)} {:trigger Recorded(t, h, o, mn)} |
          o !in t.forgotten && Recorded(s, h, o, mn) :: Recorded(t, h, o, mn))
    && (forall h, o {:trigger Attacked(s, h, o)} {:trigger Attacked(t, h, o)} | o !in t.forgotten && Attacked(s, h, o) :: Attacked(t, h, o))
    && (forall o | o !in t.forgotten && o in s.locked :: o in t.locked && t.locked[o] == s.locked[o])
  }

  lemma OnwardTrans(s: Node, t: Node, u: Node)
    requires Onward(s, t) && Onward(t, u)
    ensures Onward(s, u)
  {
  }

  lemma RemoveOnward(s: Node, w: World)
    ensures Onward(s, CheckAndRemove(s, w))
  {
    var t := CheckAndRemove(s, w);
    forall h, o | o !in t.forgotten && h in s.candidates && o in s.candidates[h].locks ensures h in t.candidates && t.candidates[h] == s.candidates[h] {
      assert h in Expired(s, w) ==> o in Touched(s, Expired(s, w));
    }
  }

  lemma DropOnward(s: Node, tx: TxHash, other: TxHash, w: World)
    requires tx in s.candidates && other in s.candidates
    ensures Onward(s, DropBoth(s, tx, other, w))
  {
    var c := s.candidates[tx := Expire(s.candidates[tx])];
    var t := s.(candidates := c[other := Expire(c[other])]);
    assert Onward(s, t);
    RemoveOnward(t, w);
    OnwardTrans(s, t, CheckAndRemove(t, w));
    assert Onward(CheckAndRemove(t, w), DropBoth(s, tx, other, w));
    OnwardTrans(s, CheckAndRemove(t, w), DropBoth(s, tx, other, w));
  }

  lemma FinalizeOnward(s: Node, tx: TxHash, w: World)
    requires tx in s.candidates && s.candidates[tx].request.Some?
    ensures Onward(s, TryToFinalize(s, tx, w))
  {
    match Scan(s, tx, s.candidates[tx].request.value.vin, w)
    case LockedBy(other) => if other in s.candidates { DropOnward(s, tx, other, w); }
    case _ =>
  }

  lemma GrownOnward(s: Node, h: TxHash, c: Candidate)
    requires Grown(s, h, c)
    ensures Onward(s, s.(candidates := s.candidates[h := c]))
  {
  }

  lemma CreateOnward(s: Node, r: Request, w: World)
    ensures Onward(s, CreateCandidate(s, r, w).0)
  {
    if r.hash !in s.candidates {
      GrownOnward(s, r.hash, Candidate(Some(r), AddLocks(map[], r.vin), w.now, -1));
    } else {
      var c := s.candidates[r.hash];
      GrownOnward(s, r.hash, if c.IsTimedOut(w.now) then c.(request := Some(r)) else c.(request := Some(r), locks := AddLocks(c.locks, r.vin)));
    }
  }

  lemma NoteOnward(s: Node, v: Vote)
    ensures Onward(s, Note(s, v))
  {
  }

  lemma RequestOnward(s: Node, r: Request, valid: bool, w: World)
    ensures Onward(s, ProcessRequest(s, r, valid, w).0)
  {
    if valid {
      CreateOnward(s, r, w);
      var (t, ok) := CreateCandidate(s, r, w);
      CreateGives(s, r, w);
      if ok { FinishOnward(s, t, r.hash, w); }
    }
  }

  lemma FinishOnward(s: Node, t: Node, tx: TxHash, w: World)
    requires Onward(s, t) && tx in t.candidates && t.candidates[tx].request.Some?
    ensures Onward(s, TryToFinalize(t, tx, w))
  {
    FinalizeOnward(t, tx, w);
    OnwardTrans(s, t, TryToFinalize(t, tx, w));
  }

  lemma AddVoteOnward(s: Node, v: Vote)
    requires v.tx in s.candidates
    ensures Onward(s, AddVote(s, v).0)
  {
    AddVoteEffect(s, v);
  }

  lemma ProcessVoteOnward(s: Node, v: Vote, valid: bool, w: World)
    ensures Onward(s, ProcessVote(s, v, valid, w).0)
  {
    if valid {
      if v.tx !in s.candidates || s.candidates[v.tx].request.None? {
        OrphanOnward(s, v, w);
      } else if !s.candidates[v.tx].IsTimedOut(w.now) {
        var n := Note(s, v);
        NoteOnward(s, v);
        AddVoteOnward(n, v);
        var (t, added) := AddVote(n, v);
        OnwardTrans(s, n, t);
        if added {
          FinalizeOnward(t, v.tx, w);
          OnwardTrans(s, t, TryToFinalize(t, v.tx, w));
        }
      }
    }
  }

  lemma OrphanOnward(s: Node, v: Vote, w: World)
    ensures Onward(s, ProcessOrphan(s, v, w).0)
  {
    if v !in s.orphans {
      var e := CreateEmpty(s, v.tx, w);
      var t := e.(orphans := e.orphans[v := w.now]);
      if v.tx !in s.candidates { GrownOnward(s, v.tx, e.candidates[v.tx]); }
      assert Onward(e, t);
      OnwardTrans(s, e, t);
      var r := if v.tx in t.accepted then Some(t.accepted[v.tx]) else if v.tx in t.rejected then Some(t.rejected[v.tx]) else None;
      if r.Some? && EnoughOrphans(t, r.value) {
        RequestOnward(t, r.value, w.requestValid, w);
        OnwardTrans(s, t, ProcessRequest(t, r.value, w.requestValid, w).0);
      }
    }
  }

  lemma {:induction false} OrphansOnward(s: Node, vs: seq<Vote>, valid: Vote -> bool, w: World)
    ensures Onward(s, ProcessOrphans(s, vs, valid, w))
    decreases |vs|
  {
    if vs != [] {
      ProcessVoteOnward(s, vs[0], valid(vs[0]), w);
      var (t, done) := ProcessVote(s, vs[0], valid(vs[0]), w);
      var u := if done then t.(orphans := t.orphans - {vs[0]}) else t;
      assert Onward(t, u);
      OnwardTrans(s, t, u);
      OrphansOnward(u, vs[1..], valid, w);
      OnwardTrans(s, u, ProcessOrphans(u, vs[1..], valid, w));
    }
  }

  /** A masternode's own votes: each is for the transaction at hand, recorded, and on an
      outpoint it had not voted on. */
  lemma {:induction false} CastVotesOnce(s: Node, tx: TxHash, me: Masternode, os: seq<OutPoint>, b: Ballot, legit: Vote -> bool)
    requires Safe(s, legit) && tx in s.candidates && forall v | v in CastVotes(s, tx, me, os, b).1 :: legit(v)
    ensures var (t, cast) := CastVotes(s, tx, me, os, b);
      && Onward(s, t)
      && forall v | v in cast ::
           && v.tx == tx && v.mn == me && b.eligible(v.outpoint)
           && (v.outpoint !in s.forgotten ==>
                 && (forall k {:trigger Recorded(s, k, v.outpoint, me)} :: !Recorded(s, k, v.outpoint, me))
                 && (v.outpoint !in t.forgotten ==> Recorded(t, tx, v.outpoint, me)))
    decreases |os|
  {
    if os == [] || !b.coin(os[0]) {
    } else if !b.eligible(os[0]) || AlreadyVoted(s, os[0], me) {
      CastVotesOnce(s, tx, me, os[1..], b, legit);
    } else if b.signs(os[0]) {
      var v := Vote(tx, os[0], me);
      CastVoteKeeps(s, v, legit);
      CastVoteOnward(s, v);
      var c := CastVote(s, v).0;
      CastVotesOnce(c, tx, me, os[1..], b, legit);
      OnwardTrans(s, c, CastVotes(c, tx, me, os[1..], b).0);
    }
  }

  lemma CastVoteOnward(s: Node, v: Vote)
    requires v.tx in s.candidates
    ensures Onward(s, CastVote(s, v).0) && CastVote(s, v).0.forgotten == s.forgotten
  {
    AddVoteOnward(s, v);
    var t := AddVote(s, v).0;
    assert Onward(t, t.(voted := Noted(t.voted, v.outpoint, v.tx)));
    OnwardTrans(s, t, t.(voted := Noted(t.voted, v.outpoint, v.tx)));
  }

  lemma OwnVoteOnce(s: Node, tx: TxHash, me: Masternode, os: seq<OutPoint>, b: Ballot, w: World, legit: Vote -> bool)
    requires Safe(s, legit) && forall v | v in OwnVote(s, tx, me, os, b, w).1 :: legit(v)
    ensures var (t, cast) := OwnVote(s, tx, me, os, b, w);
      && Onward(s, t)
      && forall v | v in cast ::
           && v.tx == tx && v.mn == me && b.eligible(v.outpoint)
           && (v.outpoint !in s.forgotten ==>
                 && (forall k {:trigger Recorded(s, k, v.outpoint, me)} :: !Recorded(s, k, v.outpoint, me))
                 && (v.outpoint !in t.forgotten ==> Recorded(t, tx, v.outpoint, me)))
  {
    if tx in s.candidates && s.candidates[tx].request.Some? {
      var voting := s.candidates[tx].request.value.hash in s.accepted;
      if voting { CastVotesOnce(s, tx, me, os, b, legit); }
      var t := if voting then CastVotes(s, tx, me, os, b).0 else s;
      if tx in t.candidates && t.candidates[tx].request.Some? {
        FinalizeOnward(t, tx, w);
        OnwardTrans(s, t, TryToFinalize(t, tx, w));
      }
    }
  }

  lemma StepOnward(s: Node, e: Event, legit: Vote -> bool)
    requires Safe(s, legit) && Lawful(s, e, legit)
    ensures Onward(s, Step(s, e).0)
  {
    match e
    case GetRequest(r, valid, w) => RequestOnward(s, r, valid, w);
    case GetVote(v, valid, w) => ProcessVoteOnward(s, v, valid, w);
    case CastOwn(tx, me, os, b, w) => OwnVoteOnce(s, tx, me, os, b, w, legit);
    case RetryOrphans(vs, ok, w) => OrphansOnward(s, vs, ok, w);
    case Clean(w) => RemoveOnward(s, w);
    case _ =>
  }

  /** A lock, once taken, stays until a candidate on the outpoint is removed. */
  lemma {:induction false} LocksLast(s: Node, es: seq<Event>, legit: Vote -> bool)
    requires Safe(s, legit) && LawfulRun(s, es, legit)
    ensures Onward(s, Run(s, es))
    decreases |es|
  {
    if es != [] {
      StepOnward(s, es[0], legit);
      StepKeeps(s, es[0], legit);
      LocksLast(Step(s, es[0]).0, es[1..], legit);
      OnwardTrans(s, Step(s, es[0]).0, Run(s, es));
    }
  }

  // ----- The network -----

  /** The nodes, and every vote signed so far. */
  datatype Net = Net(nodes: map<nat, Node>, cast: set<Vote>)

  /** Who may vote, which node runs which masternode, and who follows the protocol. */
  datatype Roles = Roles(quorum: OutPoint -> set<Masternode>, runs: nat -> Option<Masternode>, honest: set<Masternode>)

  ghost predicate Proper(r: Roles) {
    && Bounded(r.quorum)
    && forall i, j | r.runs(i).Some? && r.runs(i) == r.runs(j) && r.runs(i).value in r.honest :: i == j
  }

  datatype NetEvent = Local(i: nat, e: Event) | Forge(v: Vote)

  function NetStep(n: Net, x: NetEvent): Net {
    match x
    case Local(i, e) =>
      if i in n.nodes then var (s, cast) := Step(n.nodes[i], e); Net(n.nodes[i := s], n.cast + cast) else n
    case Forge(v) => n.(cast := n.cast + {v})
  }

  /** Votes that exist and are by masternodes of the quorum. */
  function Legit(r: Roles, cast: set<Vote>): Vote -> bool {
    (v: Vote) => v in cast && v.mn in r.quorum(v.outpoint)
  }

  /** Signatures cannot be forged: a node takes only signed votes for valid, and signs only
      as its own masternode; a dishonest masternode signs anything. */
  ghost predicate Possible(n: Net, r: Roles, x: NetEvent) {
    match x
    case Local(i, e) =>
      && i in n.nodes
      && (e.GetVote? && e.valid ==> Legit(r, n.cast)(e.v))
      && (e.RetryOrphans? ==> forall v | e.ok(v) :: Legit(r, n.cast)(v))
      && (e.CastOwn? ==> r.runs(i) == Some(e.me) && forall o | e.b.eligible(o) :: e.me in r.quorum(o))
    case Forge(v) => v.mn !in r.honest
  }

  /** The honest masternode run by node i has at most one vote on the outpoint, and its own
      node has it on record. */
  ghost predicate Single(n: Net, i: nat, me: Masternode, o: OutPoint)
    requires i in n.nodes
  {
    && (forall v | v in n.cast && v.mn == me && v.outpoint == o :: Recorded(n.nodes[i], v.tx, o, me))
    && (forall v, v' | v in n.cast && v' in n.cast && v.mn == v'.mn == me && v.outpoint == v'.outpoint == o :: v.tx == v'.tx)
  }

  ghost predicate Sound(n: Net, r: Roles) {
    && (forall i | i in n.nodes :: Safe(n.nodes[i], Legit(r, n.cast)))
    && (forall i, o {:trigger Single(n, i, r.runs(i).value, o)} |
          i in n.nodes && r.runs(i).Some? && r.runs(i).value in r.honest && o !in n.nodes[i].forgotten :: Single(n, i, r.runs(i).value, o))
  }

  lemma SafeMono(s: Node, legit: Vote -> bool, legit': Vote -> bool)
    requires Safe(s, legit) && forall v: Vote {:trigger legit(v)} {:trigger legit'(v)} | legit(v) :: legit'(v)
    ensures Safe(s, legit')
  {
  }

  /** The votes a step casts are by the node's own masternode, for one transaction, on
      outpoints it may vote on and had not voted on, and they are recorded. */
  lemma CastByOwner(s: Node, e: Event, legit: Vote -> bool)
    requires Safe(s, legit)
    ensures !e.CastOwn? ==> Step(s, e).1 == {}
    ensures e.CastOwn? ==> forall v | v in Step(s, e).1 ::
      && v.tx == e.tx && v.mn == e.me && e.b.eligible(v.outpoint)
      && (v.outpoint !in s.forgotten ==>
            && (forall k {:trigger Recorded(s, k, v.outpoint, e.me)} :: !Recorded(s, k, v.outpoint, e.me))
            && (v.outpoint !in Step(s, e).0.forgotten ==> Recorded(Step(s, e).0, e.tx, v.outpoint, e.me)))
  {
    if e.CastOwn? {
      var any := (v: Vote) => true;
      SafeMono(s, legit, any);
      OwnVoteOnce(s, e.tx, e.me, e.os, e.b, e.w, any);
    }
  }

  lemma LocalLawful(n: Net, r: Roles, i: nat, e: Event)
    requires Sound(n, r) && Possible(n, r, Local(i, e))
    ensures var m := NetStep(n, Local(i, e));
      Lawful(n.nodes[i], e, Legit(r, m.cast)) && Safe(n.nodes[i], Legit(r, m.cast)) && Safe(m.nodes[i], Legit(r, m.cast))
  {
    var m := NetStep(n, Local(i, e));
    var s := n.nodes[i];
    CastByOwner(s, e, Legit(r, n.cast));
    SafeMono(s, Legit(r, n.cast), Legit(r, m.cast));
    StepKeeps(s, e, Legit(r, m.cast));
  }

  /** The node that steps keeps its masternode's single vote. */
  lemma LocalSingle(n: Net, r: Roles, i: nat, e: Event, me: Masternode, o: OutPoint)
    requires Sound(n, r) && Possible(n, r, Local(i, e)) && r.runs(i) == Some(me) && me in r.honest
    requires o !in NetStep(n, Local(i, e)).nodes[i].forgotten
    ensures Single(NetStep(n, Local(i, e)), i, me, o)
  {
    var m := NetStep(n, Local(i, e));
    var s, t := n.nodes[i], m.nodes[i];
    LocalLawful(n, r, i, e);
    StepOnward(s, e, Legit(r, m.cast));
    assert Single(n, i, r.runs(i).value, o);
    CastByOwner(s, e, Legit(r, n.cast));
    forall v | v in m.cast && v.mn == me && v.outpoint == o ensures Recorded(t, v.tx, o, me) {
      if v in n.cast { assert Recorded(s, v.tx, o, me); }
    }
    forall v, v' | v in m.cast && v' in m.cast && v.mn == v'.mn == me && v.outpoint == v'.outpoint == o ensures v.tx == v'.tx {
      if v in n.cast { assert Recorded(s, v.tx, o, me); }
      if v' in n.cast { assert Recorded(s, v'.tx, o, me); }
    }
  }

  /** So do the others, whose masternode the step cannot vote for. */
  lemma OtherSingle(n: Net, r: Roles, i: nat, e: Event, j: nat, me: Masternode, o: OutPoint)
    requires Sound(n, r) && Proper(r) && Possible(n, r, Local(i, e))
    requires j in n.nodes && j != i && r.runs(j) == Some(me) && me in r.honest && o !in n.nodes[j].forgotten
    ensures Single(NetStep(n, Local(i, e)), j, me, o)
  {
    assert Single(n, j, r.runs(j).value, o);
    CastByOwner(n.nodes[i], e, Legit(r, n.cast));
    assert r.runs(i) != r.runs(j);
  }

  lemma NetStepKeeps(n: Net, r: Roles, x: NetEvent)
    requires Sound(n, r) && Proper(r) && Possible(n, r, x)
    ensures Sound(NetStep(n, x), r)
  {
    var m := NetStep(n, x);
    match x
    case Forge(v) =>
      forall j | j in m.nodes ensures Safe(m.nodes[j], Legit(r, m.cast)) { SafeMono(n.nodes[j], Legit(r, n.cast), Legit(r, m.cast)); }
      forall j, o | j in m.nodes && r.runs(j).Some? && r.runs(j).value in r.honest && o !in m.nodes[j].forgotten ensures Single(m, j, r.runs(j).value, o) {
        assert Single(n, j, r.runs(j).value, o);
      }
    case Local(i, e) =>
      LocalLawful(n, r, i, e);
      forall j | j in m.nodes ensures Safe(m.nodes[j], Legit(r, m.cast)) {
        if j != i { SafeMono(n.nodes[j], Legit(r, n.cast), Legit(r, m.cast)); }
      }
      forall j, o | j in m.nodes && r.runs(j).Some? && r.runs(j).value in r.honest && o !in m.nodes[j].forgotten ensures Single(m, j, r.runs(j).value, o) {
        if j == i { LocalSingle(n, r, i, e, r.runs(i).value, o); } else { OtherSingle(n, r, i, e, j, r.runs(j).value, o); }
      }
  }

  /** Any number of nodes, none of which has seen anything. */
  ghost predicate Starting(n: Net) {
    n.cast == {} && forall i | i in n.nodes :: n.nodes[i] == Fresh()
  }

  ghost predicate NetRun(ns: seq<Net>, xs: seq<NetEvent>, r: Roles) {
    && |ns| == |xs| + 1 && Starting(ns[0])
    && forall i {:trigger xs[i]} | 0 <= i < |xs| :: Possible(ns[i], r, xs[i]) && ns[i + 1] == NetStep(ns[i], xs[i])
  }

  lemma {:induction false} NetRunSound(ns: seq<Net>, xs: seq<NetEvent>, r: Roles, k: nat)
    requires Proper(r) && NetRun(ns, xs, r) && k <= |xs|
    ensures Sound(ns[k], r)
  {
    if k > 0 {
      NetRunSound(ns, xs, r, k - 1);
      assert Possible(ns[k - 1], r, xs[k - 1]);
      NetStepKeeps(ns[k - 1], r, xs[k - 1]);
    }
  }

  /** Two sets with six of ten each have two members in common, so one that is not the
      given one. */
  lemma OverlapTwo(a: set<Masternode>, b: set<Masternode>, q: set<Masternode>, bad: set<Masternode>) returns (mn: Masternode)
    requires a <= q && b <= q && |a| + |b| > |q| + |bad|
    ensures mn in a && mn in b && mn !in bad
  {
    assert |a| == |a * bad| + |a - bad| by { assert a == a * bad + (a - bad); }
    SubsetSize(a * bad, bad);
    mn := Overlap(a - bad, b, q);
  }

  /** At every moment of every run of the network: if at most one of the ten masternodes of
      an outpoint is dishonest, and the honest ones have kept their candidates on it, no
      two nodes hold ready candidates for different transactions that spend it. */
  lemma NetSafe(ns: seq<Net>, xs: seq<NetEvent>, r: Roles, k: nat, p: nat, p': nat, h: TxHash, h': TxHash, o: OutPoint)
    requires Proper(r) && NetRun(ns, xs, r) && k <= |xs|
    requires |r.quorum(o) - r.honest| <= 1
    requires forall mn | mn in r.quorum(o) && mn in r.honest ::
      exists i :: i in ns[k].nodes && r.runs(i) == Some(mn) && o !in ns[k].nodes[i].forgotten
    requires p in ns[k].nodes && h in ns[k].nodes[p].candidates && o in ns[k].nodes[p].candidates[h].locks
    requires p' in ns[k].nodes && h' in ns[k].nodes[p'].candidates && o in ns[k].nodes[p'].candidates[h'].locks
    requires ns[k].nodes[p].candidates[h].IsAllOutPointsReady() && ns[k].nodes[p'].candidates[h'].IsAllOutPointsReady()
    ensures h == h'
  {
    NetRunSound(ns, xs, r, k);
    var n := ns[k];
    var legit := Legit(r, n.cast);
    var a, b := n.nodes[p].candidates[h].locks[o].votes, n.nodes[p'].candidates[h'].locks[o].votes;
    VotersEligible(n.nodes[p], legit, r.quorum, h, o);
    VotersEligible(n.nodes[p'], legit, r.quorum, h', o);
    assert n.nodes[p].candidates[h].locks[o].IsReady() && n.nodes[p'].candidates[h'].locks[o].IsReady();
    var mn := OverlapTwo(a, b, r.quorum(o), r.quorum(o) - r.honest);
    assert Recorded(n.nodes[p], h, o, mn) && Recorded(n.nodes[p'], h', o, mn);
    assert legit(Vote(h, o, mn)) && legit(Vote(h', o, mn));
    var i :| i in n.nodes && r.runs(i) == Some(mn) && o !in n.nodes[i].forgotten;
    assert Single(n, i, r.runs(i).value, o);
  }

  // ----- Ranks -----

  /** The masternodes ranked 1 to 10 for an outpoint. */
  function TopTen(known: set<Masternode>, rank: (OutPoint, Masternode) -> int, o: OutPoint): set<Masternode> {
    set mn | mn in known && 1 <= rank(o, mn) <= SIGNATURES_TOTAL
  }

  /** If ranks are distinct, they are at most ten. */
  lemma TopTenBounded(known: set<Masternode>, rank: (OutPoint, Masternode) -> int, o: OutPoint)
    requires forall a, b | a in known && b in known && rank(o, a) == rank(o, b) :: a == b
    ensures |TopTen(known, rank, o)| <= SIGNATURES_TOTAL
  {
    RankedBounded(TopTen(known, rank, o), rank, o, SIGNATURES_TOTAL);
  }

  lemma {:induction false} RankedBounded(s: set<Masternode>, rank: (OutPoint, Masternode) -> int, o: OutPoint, top: nat)
    requires forall a, b | a in s && b in s && rank(o, a) == rank(o, b) :: a == b
    requires forall a | a in s :: 1 <= rank(o, a) <= top
    ensures |s| <= top
  {
    if a :| a in s && rank(o, a) == top {
      assert top > 0;
      RankedBounded(s - {a}, rank, o, top - 1);
    } else if top > 0 {
      RankedBounded(s, rank, o, top - 1);
    } else {
      assert s == {};
    }
  }
}
