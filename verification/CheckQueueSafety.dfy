/** What every interleaving of the check queue keeps (src/checkqueue.h), what Wait returns,
    and that Wait can always come to its end. */
module CheckQueueSafety {
  import opened CheckQueue

  // ----- Sums over threads -----

  /** Every check that some thread holds. */
  function HeldAll(ts: seq<Thread>): multiset<Check> {
    if ts == [] then multiset{} else HeldAll(ts[..|ts| - 1]) + multiset(Held(ts[|ts| - 1]))
  }

  predicate Counts(t: Thread, idle: bool) {
    if idle then t.Waiting? else !t.Outside?
  }

  /** How many threads are waiting, or inside Loop. */
  function Count(ts: seq<Thread>, idle: bool): nat {
    if ts == [] then 0 else Count(ts[..|ts| - 1], idle) + if Counts(ts[|ts| - 1], idle) then 1 else 0
  }

  lemma HeldLast(ts: seq<Thread>, n: nat)
    requires n + 1 == |ts|
    ensures HeldAll(ts) == HeldAll(ts[..n]) + multiset(Held(ts[n]))
  {
  }

  lemma {:induction false} HeldUpdate(ts: seq<Thread>, t: nat, x: Thread)
    requires t < |ts|
    ensures HeldAll(ts[t := x]) + multiset(Held(ts[t])) == HeldAll(ts) + multiset(Held(x))
  {
    var n, us := |ts| - 1, ts[t := x];
    HeldLast(ts, n);
    HeldLast(us, n);
    if t == n {
      assert us[..n] == ts[..n];
      Swapped(HeldAll(ts[..n]), multiset(Held(ts[n])), multiset(Held(x)));
    } else {
      assert us[..n] == ts[..n][t := x];
      HeldUpdate(ts[..n], t, x);
      Both(HeldAll(us[..n]), HeldAll(ts[..n]), multiset(Held(ts[t])), multiset(Held(x)), multiset(Held(ts[n])));
    }
  }

  lemma Swapped(a: multiset<Check>, h: multiset<Check>, x: multiset<Check>)
    ensures (a + x) + h == (a + h) + x
  {
  }

  lemma Both(a: multiset<Check>, b: multiset<Check>, h: multiset<Check>, x: multiset<Check>, y: multiset<Check>)
    requires a + h == b + x
    ensures (a + y) + h == (b + y) + x
  {
    assert (a + y) + h == (a + h) + y;
    assert (b + y) + x == (b + x) + y;
  }

  lemma {:induction false} CountUpdate(ts: seq<Thread>, t: nat, x: Thread, idle: bool)
    requires t < |ts|
    ensures Count(ts[t := x], idle) + (if Counts(ts[t], idle) then 1 else 0)
         == Count(ts, idle) + (if Counts(x, idle) then 1 else 0)
  {
    var n := |ts| - 1;
    if t == n {
      assert ts[t := x][..n] == ts[..n];
    } else {
      assert ts[t := x][..n] == ts[..n][t := x];
      CountUpdate(ts[..n], t, x, idle);
    }
  }

  lemma {:induction false} HeldMember(ts: seq<Thread>, t: nat)
    requires t < |ts|
    ensures multiset(Held(ts[t])) <= HeldAll(ts)
  {
    var n := |ts| - 1;
    if t < n { HeldMember(ts[..n], t); }
  }

  lemma {:induction false} SomeHolder(ts: seq<Thread>) returns (t: nat)
    requires HeldAll(ts) != multiset{}
    ensures t < |ts| && Held(ts[t]) != []
  {
    var n := |ts| - 1;
    if Held(ts[n]) != [] {
      t := n;
    } else {
      t := SomeHolder(ts[..n]);
    }
  }

  /** Waiting threads, whether notified or not, hold and count the same. */
  lemma {:induction false} SameShape(ts: seq<Thread>, us: seq<Thread>)
    requires |ts| == |us|
    requires forall i | 0 <= i < |ts| :: ts[i] == us[i] || (ts[i].Waiting? && us[i].Waiting?)
    ensures HeldAll(ts) == HeldAll(us)
    ensures Count(ts, true) == Count(us, true) && Count(ts, false) == Count(us, false)
  {
    if ts != [] {
      SameShape(ts[..|ts| - 1], us[..|us| - 1]);
    }
  }

  lemma {:induction false} AllOutside(n: nat)
    ensures HeldAll(seq(n, i => Outside)) == multiset{}
    ensures Count(seq(n, i => Outside), true) == 0 && Count(seq(n, i => Outside), false) == 0
  {
    if n > 0 {
      AllOutside(n - 1);
      assert seq(n, i => Outside)[..n - 1] == seq(n - 1, i => Outside);
    }
  }

  // ----- The invariant -----

  ghost predicate Good(cs: multiset<Check>) {
    forall c | c in cs :: c.passes
  }

  /** A batch is never empty; a worker that was told to skip was told so by a failure already
      accounted for; an evaluated batch carries its own verdict. */
  predicate Honest(t: Thread, allOk: bool) {
    match t
    case Working(b, ok) => b != [] && (!ok ==> !allOk)
    case Done(b, ok) => b != [] && (ok ==> AllPass(b)) && (!ok ==> !allOk || !AllPass(b))
    case _ => true
  }

  /** A waiting master sleeps over an empty queue, and has been notified exactly when
      nothing is left to do. */
  predicate Patient(sh: Shared, master: Thread) {
    master.Waiting? ==> sh.queue == [] && (master.notified <==> sh.nTodo == 0)
  }

  predicate Counted(sh: Shared, ts: seq<Thread>, inside: nat) {
    sh.nIdle == Count(ts, true) && sh.nTotal == Count(ts, false) + inside
  }

  predicate AllHonest(ts: seq<Thread>, allOk: bool) {
    forall i {:trigger Honest(ts[i], allOk)} | 0 <= i < |ts| :: Honest(ts[i], allOk)
  }

  predicate Owed(sh: Shared, ts: seq<Thread>) {
    sh.nTodo == |sh.queue| + |HeldAll(ts)|
  }

  /** Every check added is queued, held or accounted for. */
  predicate Tally(s: System, ts: seq<Thread>) {
    s.round == multiset(s.sh.queue) + HeldAll(ts) + s.accounted
  }

  /** The invariant, given the threads outside the critical section. */
  ghost predicate Coherent(s: System, ts: seq<Thread>, inside: nat) {
    |ts| > 0 && Counted(s.sh, ts, inside) && Owed(s.sh, ts) && Tally(s, ts)
    && AllHonest(ts, s.sh.fAllOk) && (s.sh.fAllOk <==> Good(s.accounted)) && Patient(s.sh, ts[0])
  }

  ghost predicate Inv(s: System) {
    Coherent(s, s.threads, 0)
  }

  /** Thread t is inside the critical section. */
  ghost predicate InSection(s: System, t: nat) {
    t < |s.threads| && Coherent(s, s.threads[t := Outside], 1)
  }

  lemma StartInv(n: nat)
    requires n > 0
    ensures Inv(Start(n))
  {
    AllOutside(n);
  }

  // ----- Leaving the critical section -----

  lemma TopSplits(q: seq<Check>, n: nat)
    requires n <= |q|
    ensures multiset(q) == multiset(q[..|q| - n]) + multiset(Top(q, n))
    decreases n
  {
    if n == 0 {
      assert q[..|q|] == q;
    } else {
      var m := |q| - 1;
      TopSplits(q[..m], n - 1);
      assert q == q[..m] + [q[m]];
      assert q[..m][..m - (n - 1)] == q[..|q| - n];
      assert Top(q, n) == [q[m]] + Top(q[..m], n - 1);
    }
  }

  /** Sums once a thread that counted for nothing takes on state x. */
  lemma PickUp(ts: seq<Thread>, t: nat, x: Thread)
    requires t < |ts| && ts[t].Outside? && !x.Outside?
    ensures Count(ts[t := x], true) == Count(ts, true) + if x.Waiting? then 1 else 0
    ensures Count(ts[t := x], false) == Count(ts, false) + 1
    ensures HeldAll(ts[t := x]) == HeldAll(ts) + multiset(Held(x))
    ensures Held(x) == [] ==> HeldAll(ts[t := x]) == HeldAll(ts)
  {
    CountUpdate(ts, t, x, true);
    CountUpdate(ts, t, x, false);
    HeldUpdate(ts, t, x);
    Plus(HeldAll(ts[t := x]), HeldAll(ts), multiset(Held(x)));
  }

  lemma Plus(a: multiset<Check>, b: multiset<Check>, h: multiset<Check>)
    requires a + multiset([]) == b + h
    ensures a == b + h && (h == multiset{} ==> a == b)
  {
    assert a + multiset([]) == a;
    assert h == multiset{} ==> b + h == b;
  }

  /** Sums once thread t has put down what it held. */
  lemma PutDown(ts: seq<Thread>, t: nat)
    requires t < |ts| && !ts[t].Outside?
    ensures Count(ts, true) == Count(ts[t := Outside], true) + if ts[t].Waiting? then 1 else 0
    ensures Count(ts, false) == Count(ts[t := Outside], false) + 1
    ensures HeldAll(ts) == HeldAll(ts[t := Outside]) + multiset(Held(ts[t]))
  {
    assert ts[t := Outside][t := ts[t]] == ts;
    PickUp(ts[t := Outside], t, ts[t]);
  }

  /** Thread t joins the others in state x. */
  lemma Joins(ts: seq<Thread>, t: nat, x: Thread, ok: bool)
    requires t < |ts| && AllHonest(ts, ok) && Honest(x, ok)
    ensures AllHonest(ts[t := x], ok)
  {
  }

  /** Thread t has gone to wait. */
  function Slept(s: System, t: nat): System
    requires t < |s.threads|
  {
    s.(sh := s.sh.(nIdle := s.sh.nIdle + 1), threads := s.threads[t := Waiting(false)])
  }

  lemma SleptKeeps(s: System, t: nat)
    requires InSection(s, t) && s.sh.queue == [] && (t == 0 ==> s.sh.nTodo != 0)
    ensures Inv(Slept(s, t))
  {
    var ts, x, r := s.threads[t := Outside], Waiting(false), Slept(s, t);
    var us := ts[t := x];
    assert r.threads == us;
    PickUp(ts, t, x);
    Joins(ts, t, x, s.sh.fAllOk);
    assert Tally(r, us) && Owed(r.sh, us) && Counted(r.sh, us, 0);
    assert Patient(r.sh, us[0]);
  }

  lemma SettleSleeps(s: System, t: nat, c: Config)
    requires InSection(s, t) && s.sh.queue == [] && !((t == 0 || c.fQuit) && s.sh.nTodo == 0)
    ensures Inv(Settle(s, t, c))
  {
    SleptKeeps(s, t);
    assert Settle(s, t, c) == Slept(s, t);
  }

  /** With nothing left to do no thread holds a check. */
  lemma NothingHeld(s: System, ts: seq<Thread>, inside: nat)
    requires Coherent(s, ts, inside) && s.sh.nTodo == 0
    ensures s.sh.queue == [] && HeldAll(ts) == multiset{} && s.round == s.accounted
    ensures forall i | 0 <= i < |ts| :: ts[i].Outside? || ts[i].Waiting?
  {
    forall i | 0 <= i < |ts| ensures ts[i].Outside? || ts[i].Waiting? {
      HeldMember(ts, i);
      assert Honest(ts[i], s.sh.fAllOk);
      var h := Held(ts[i]);
      assert |multiset(h)| == 0;
    }
  }

  /** The master leaves with the verdict on every check of the round. */
  lemma SettleReturns(s: System, t: nat, c: Config)
    requires InSection(s, t) && s.sh.queue == [] && (t == 0 || c.fQuit) && s.sh.nTodo == 0
    ensures Inv(Settle(s, t, c))
  {
    NothingHeld(s, s.threads[t := Outside], 1);
  }

  lemma Moves(all: multiset<Check>, q: multiset<Check>, p: multiset<Check>, b: multiset<Check>,
              h: multiset<Check>, g: multiset<Check>, a: multiset<Check>)
    requires all == q + h + a && q == p + b && g == h + b
    ensures all == p + g + a
  {
  }

  /** Thread t has taken n checks. */
  function Took(s: System, t: nat, n: nat): System
    requires t < |s.threads| && n <= |s.sh.queue|
  {
    var q := s.sh.queue;
    s.(sh := s.sh.(queue := q[..|q| - n]), threads := s.threads[t := Working(Top(q, n), s.sh.fAllOk)])
  }

  lemma TookTallies(s: System, t: nat, n: nat, ts: seq<Thread>, us: seq<Thread>)
    requires t < |s.threads| && n <= |s.sh.queue|
    requires Tally(s, ts) && HeldAll(us) == HeldAll(ts) + multiset(Top(s.sh.queue, n))
    ensures Tally(Took(s, t, n), us)
  {
    var q := s.sh.queue;
    TopSplits(q, n);
    Moves(s.round, multiset(q), multiset(q[..|q| - n]), multiset(Top(q, n)), HeldAll(ts), HeldAll(us), s.accounted);
  }

  lemma TookKeeps(s: System, t: nat, n: nat)
    requires InSection(s, t) && 0 < n <= |s.sh.queue|
    ensures Inv(Took(s, t, n))
  {
    var ts, q := s.threads[t := Outside], s.sh.queue;
    var x := Working(Top(q, n), s.sh.fAllOk);
    var us := ts[t := x];
    assert Took(s, t, n).threads == us;
    PickUp(ts, t, x);
    Joins(ts, t, x, s.sh.fAllOk);
    TookTallies(s, t, n, ts, us);
  }

  lemma SettleIsTook(s: System, t: nat, c: Config)
    requires t < |s.threads| && s.sh.nTotal >= 0 && s.sh.nIdle >= 0 && s.sh.queue != []
    ensures 1 <= BatchSize(s.sh, c) <= |s.sh.queue|
    ensures Settle(s, t, c) == Took(s, t, BatchSize(s.sh, c))
  {
    BatchFits(s.sh, c);
  }

  lemma SettleTakes(s: System, t: nat, c: Config)
    requires InSection(s, t) && s.sh.queue != []
    ensures Inv(Settle(s, t, c))
  {
    SettleIsTook(s, t, c);
    TookKeeps(s, t, BatchSize(s.sh, c));
  }

  lemma SettleKeeps(s: System, t: nat, c: Config)
    requires InSection(s, t)
    ensures Inv(Settle(s, t, c))
  {
    if s.sh.queue != [] {
      SettleTakes(s, t, c);
    } else if (t == 0 || c.fQuit) && s.sh.nTodo == 0 {
      SettleReturns(s, t, c);
    } else {
      SettleSleeps(s, t, c);
    }
  }

  /** Leaving as master is a return: the round is over, and its verdict known. */
  lemma SettleRound(s: System, t: nat, c: Config)
    requires InSection(s, t)
    ensures t == 0 && Settle(s, t, c).threads[0].Outside? ==> Settle(s, t, c).verdict == Good(s.round)
    ensures Settle(s, t, c).round == if t == 0 && Settle(s, t, c).threads[0].Outside? then multiset{} else s.round
  {
    if s.sh.queue != [] {
      SettleIsTook(s, t, c);
    } else if s.sh.nTodo == 0 {
      NothingHeld(s, s.threads[t := Outside], 1);
    }
  }

  // ----- Entering it -----

  lemma EnterArrives(s: System, t: nat)
    requires Inv(s) && t < |s.threads| && s.threads[t].Outside?
    ensures InSection(s.(sh := Arrive(s.sh, 0, true)), t)
  {
    assert s.threads[t := Outside] == s.threads;
  }

  lemma WakeArrives(s: System, t: nat)
    requires Inv(s) && t < |s.threads| && s.threads[t].Waiting?
    ensures s.sh.nIdle > 0
    ensures InSection(s.(sh := s.sh.(nIdle := s.sh.nIdle - 1)), t)
  {
    PutDown(s.threads, t);
  }

  lemma Notified(ts: seq<Thread>)
    requires |ts| > 0
    ensures HeldAll(NotifyMaster(ts)) == HeldAll(ts)
    ensures Count(NotifyMaster(ts), true) == Count(ts, true) && Count(NotifyMaster(ts), false) == Count(ts, false)
  {
    SameShape(NotifyMaster(ts), ts);
  }

  lemma GoodSum(a: multiset<Check>, b: seq<Check>)
    ensures Good(a + multiset(b)) <==> Good(a) && AllPass(b)
  {
    if Good(a + multiset(b)) {
      forall c | c in a ensures c.passes { assert c in a + multiset(b); }
      forall i | 0 <= i < |b| ensures b[i].passes { assert b[i] in multiset(b); assert b[i] in a + multiset(b); }
    }
    if Good(a) && AllPass(b) {
      forall c | c in a + multiset(b) ensures c.passes {
        if c !in a { assert c in multiset(b); }
      }
    }
  }

  lemma FinishSums(s: System, t: nat)
    requires Inv(s) && t < |s.threads| && s.threads[t].Done?
    ensures var r := Accounted(s, t); var us := r.threads[t := Outside];
      Counted(r.sh, us, 1) && Owed(r.sh, us) && Tally(r, us) && (r.sh.fAllOk <==> Good(r.accounted))
  {
    var r, d := Accounted(s, t), s.threads[t];
    if |s.threads| > 0 { Notified(s.threads); }
    assert r.threads[t] == d;
    PutDown(r.threads, t);
    GoodSum(s.accounted, d.batch);
    assert Honest(d, s.sh.fAllOk);
  }

  lemma FinishHonest(s: System, t: nat)
    requires Inv(s) && t < |s.threads| && s.threads[t].Done?
    ensures AllHonest(Accounted(s, t).threads[t := Outside], Accounted(s, t).sh.fAllOk)
  {
    var us := Accounted(s, t).threads[t := Outside];
    forall i | 0 <= i < |us| ensures Honest(us[i], Accounted(s, t).sh.fAllOk) {
      assert Honest(s.threads[i], s.sh.fAllOk);
    }
  }

  lemma FinishArrives(s: System, t: nat)
    requires Inv(s) && t < |s.threads| && s.threads[t].Done?
    ensures InSection(Accounted(s, t), t)
  {
    FinishSums(s, t);
    FinishHonest(s, t);
    HeldMember(s.threads, t);
    assert Honest(s.threads[t], s.sh.fAllOk);
    var d := s.threads[t];
    assert d.batch[0] in multiset(d.batch);
    assert HeldAll(s.threads) != multiset{};
  }

  // ----- Every step -----

  lemma AddKeeps(s: System, cs: seq<Check>, woken: set<nat>, c: Config)
    requires Inv(s) && Enabled(s, AddChecks(cs, woken))
    ensures Inv(Next(s, AddChecks(cs, woken), c))
  {
    var r := Next(s, AddChecks(cs, woken), c);
    SameShape(s.threads, r.threads);
    assert multiset(s.sh.queue + cs) == multiset(s.sh.queue) + multiset(cs);
    AddTallies(s.round, multiset(s.sh.queue), multiset(cs), HeldAll(s.threads), s.accounted);
    assert Tally(r, r.threads);
    forall i | 0 <= i < |r.threads| ensures Honest(r.threads[i], r.sh.fAllOk) {
      assert Honest(s.threads[i], s.sh.fAllOk);
    }
  }

  lemma AddTallies(all: multiset<Check>, q: multiset<Check>, b: multiset<Check>, h: multiset<Check>, a: multiset<Check>)
    requires all == q + h + a
    ensures all + b == (q + b) + h + a
  {
  }

  lemma EvaluateKeeps(s: System, t: nat, c: Config)
    requires Inv(s) && Enabled(s, Evaluate(t))
    ensures Inv(Next(s, Evaluate(t), c))
  {
    var w, ts := s.threads[t], s.threads;
    var d := Done(w.batch, w.fOk && AllPass(w.batch));
    assert Honest(w, s.sh.fAllOk);
    CountUpdate(ts, t, d, true);
    CountUpdate(ts, t, d, false);
    HeldUpdate(ts, t, d);
    Cancel(HeldAll(ts[t := d]), HeldAll(ts), multiset(w.batch));
    Joins(ts, t, d, s.sh.fAllOk);
  }

  lemma Cancel(a: multiset<Check>, b: multiset<Check>, h: multiset<Check>)
    requires a + h == b + h
    ensures a == b
  {
    assert a == (a + h) - h;
    assert b == (b + h) - h;
  }

  /** The step in which the master's Wait returns. */
  predicate Returns(s: System, a: Action, r: System) {
    (a == EnterLoop(0) || a == Finish(0) || a == Wake(0)) && |r.threads| > 0 && r.threads[0].Outside?
  }

  lemma Arrives(s: System, a: Action)
    requires Inv(s) && Enabled(s, a) && !a.AddChecks? && !a.Evaluate?
    ensures Sane(s, a) && InSection(Arrived(s, a), a.t)
  {
    match a
    case EnterLoop(t) => EnterArrives(s, t);
    case Finish(t) => FinishArrives(s, t);
    case Wake(t) => WakeArrives(s, t);
  }

  /** The checks added since the last return, after action a. */
  function Since(round: multiset<Check>, a: Action, done: bool): multiset<Check> {
    if done then multiset{} else if a.AddChecks? then round + multiset(a.cs) else round
  }

  lemma IsSettle(s: System, a: Action, c: Config)
    requires Enabled(s, a) && !a.AddChecks? && !a.Evaluate? && Sane(s, a)
    ensures a.t < |Arrived(s, a).threads| && Arrived(s, a).sh.nTotal >= 0 && Arrived(s, a).sh.nIdle >= 0
    ensures Next(s, a, c) == Settle(Arrived(s, a), a.t, c)
  {
  }

  lemma SectionKeeps(s: System, a: Action, c: Config)
    requires Inv(s) && Enabled(s, a) && !a.AddChecks? && !a.Evaluate?
    ensures Sane(s, a) && Inv(Next(s, a, c))
    ensures Returns(s, a, Next(s, a, c)) ==> Next(s, a, c).verdict == Good(s.round)
    ensures Next(s, a, c).round == Since(s.round, a, Returns(s, a, Next(s, a, c)))
  {
    Arrives(s, a);
    SectionInv(s, a, Arrived(s, a), c);
    SectionRound(s, a, Arrived(s, a), c);
  }

  lemma SectionInv(s: System, a: Action, m: System, c: Config)
    requires Enabled(s, a) && !a.AddChecks? && !a.Evaluate? && Sane(s, a) && m == Arrived(s, a) && InSection(m, a.t)
    ensures Inv(Next(s, a, c))
  {
    IsSettle(s, a, c);
    SettleKeeps(m, a.t, c);
  }

  lemma SectionRound(s: System, a: Action, m: System, c: Config)
    requires Enabled(s, a) && !a.AddChecks? && !a.Evaluate? && Sane(s, a) && m == Arrived(s, a) && InSection(m, a.t)
    ensures Returns(s, a, Next(s, a, c)) ==> Next(s, a, c).verdict == Good(s.round)
    ensures Next(s, a, c).round == Since(s.round, a, Returns(s, a, Next(s, a, c)))
  {
    IsSettle(s, a, c);
    RoundOf(s, a, m, Next(s, a, c), c);
  }

  lemma RoundOf(s: System, a: Action, m: System, r: System, c: Config)
    requires !a.AddChecks? && !a.Evaluate? && InSection(m, a.t) && m.round == s.round && r == Settle(m, a.t, c)
    ensures Returns(s, a, r) ==> r.verdict == Good(s.round)
    ensures r.round == Since(s.round, a, Returns(s, a, r))
  {
    SettleRound(m, a.t, c);
    ReturnsIs(s, a, r);
  }

  lemma ReturnsIs(s: System, a: Action, r: System)
    requires !a.AddChecks? && !a.Evaluate? && |r.threads| > 0
    ensures Returns(s, a, r) <==> a.t == 0 && r.threads[0].Outside?
  {
  }

  /** Every step keeps the invariant, never wakes from an empty count, and when it returns from
      Wait the verdict is that of all the checks of the round and nothing of it is left over. */
  lemma NextKeeps(s: System, a: Action, c: Config)
    requires Inv(s) && Enabled(s, a)
    ensures Sane(s, a) && Inv(Next(s, a, c))
    ensures Returns(s, a, Next(s, a, c)) ==> Next(s, a, c).verdict == Good(s.round)
    ensures Next(s, a, c).round == Since(s.round, a, Returns(s, a, Next(s, a, c)))
  {
    if a.AddChecks? {
      AddKeeps(s, a.cs, a.woken, c);
    } else if a.Evaluate? {
      EvaluateKeeps(s, a.t, c);
    } else {
      SectionKeeps(s, a, c);
    }
  }

  // ----- Whole runs -----

  predicate Steps(s: System, a: Action, r: System, c: Config) {
    Enabled(s, a) && Sane(s, a) && r == Next(s, a, c)
  }

  predicate StepAt(ss: seq<System>, acts: seq<Action>, c: Config, i: nat)
    requires i < |acts| < |ss|
  {
    Steps(ss[i], acts[i], ss[i + 1], c)
  }

  /** States ss visited by actions acts, from anywhere. */
  predicate Path(ss: seq<System>, acts: seq<Action>, c: Config) {
    |ss| == |acts| + 1 && forall i | 0 <= i < |acts| :: StepAt(ss, acts, c, i)
  }

  /** The checks added since Wait last returned, read off the actions alone. */
  function AddedSince(ss: seq<System>, acts: seq<Action>, i: nat): multiset<Check>
    requires i <= |acts| < |ss|
  {
    if i == 0 then multiset{}
    else Since(AddedSince(ss, acts, i - 1), acts[i - 1], Returns(ss[i - 1], acts[i - 1], ss[i]))
  }

  lemma {:induction false} RunInv(n: nat, ss: seq<System>, acts: seq<Action>, c: Config, i: nat)
    requires n > 0 && Path(ss, acts, c) && ss[0] == Start(n) && i <= |acts|
    ensures Inv(ss[i])
    ensures ss[i].round == AddedSince(ss, acts, i)
  {
    if i == 0 {
      StartInv(n);
    } else {
      var j := i - 1;
      RunInv(n, ss, acts, c, j);
      RunInvStep(ss, acts, c, j);
    }
  }

  lemma RunInvStep(ss: seq<System>, acts: seq<Action>, c: Config, j: nat)
    requires Path(ss, acts, c) && j < |acts| && Inv(ss[j])
    ensures Inv(ss[j + 1]) && ss[j + 1].round == Since(ss[j].round, acts[j], Returns(ss[j], acts[j], ss[j + 1]))
  {
    assert StepAt(ss, acts, c, j);
    StepKeeps(ss[j], acts[j], ss[j + 1], c);
  }

  lemma StepKeeps(s: System, a: Action, r: System, c: Config)
    requires Inv(s) && Steps(s, a, r, c)
    ensures Inv(r)
    ensures Returns(s, a, r) ==> r.verdict == Good(s.round)
    ensures r.round == Since(s.round, a, Returns(s, a, r))
  {
    NextKeeps(s, a, c);
  }

  /** In every run, whatever the interleaving: Wait returns true exactly when every check added
      since it last returned passes, and at that moment none of them is queued, held or owed. */
  lemma WaitVerdict(n: nat, ss: seq<System>, acts: seq<Action>, c: Config, i: nat)
    requires n > 0 && Path(ss, acts, c) && ss[0] == Start(n) && i < |acts|
    requires Returns(ss[i], acts[i], ss[i + 1])
    ensures ss[i + 1].verdict <==> forall x | x in AddedSince(ss, acts, i) :: x.passes
    ensures ss[i + 1].sh.queue == [] && ss[i + 1].sh.nTodo == 0 && IsIdle(ss[i + 1].sh)
  {
    RunInv(n, ss, acts, c, i);
    RunInv(n, ss, acts, c, i + 1);
    assert StepAt(ss, acts, c, i);
    StepKeeps(ss[i], acts[i], ss[i + 1], c);
    FreshIsIdle(ss[i + 1]);
  }

  predicate IsIdle(sh: Shared) {
    sh.nTotal == sh.nIdle && sh.nTodo == 0 && sh.fAllOk
  }

  lemma {:induction false} IdleCounts(ts: seq<Thread>)
    requires forall i | 0 <= i < |ts| :: ts[i].Outside? || ts[i].Waiting?
    ensures Count(ts, true) == Count(ts, false)
  {
    if ts != [] { IdleCounts(ts[..|ts| - 1]); }
  }

  /** Between a Wait and the next Add the queue is idle, so a new controller may be made. */
  lemma FreshIsIdle(s: System)
    requires Inv(s) && s.round == multiset{}
    ensures IsIdle(s.sh) && s.sh.queue == []
  {
    assert |s.round| == |s.sh.queue| + |HeldAll(s.threads)| + |s.accounted|;
    assert Good(s.accounted);
    NothingHeld(s, s.threads, 0);
    IdleCounts(s.threads);
  }

  /** Nothing is queued and no thread has a batch. */
  predicate AtRest(s: System) {
    s.sh.queue == [] && forall i | 0 <= i < |s.threads| :: s.threads[i].Outside? || s.threads[i].Waiting?
  }

  lemma {:induction false} RestHoldsNothing(ts: seq<Thread>)
    requires forall i | 0 <= i < |ts| :: ts[i].Outside? || ts[i].Waiting?
    ensures HeldAll(ts) == multiset{}
  {
    if ts != [] { RestHoldsNothing(ts[..|ts| - 1]); }
  }

  /** In every reachable state the queue reports that it is idle exactly if every check added
      since Wait last returned has been evaluated and passes, and no thread has a batch. */
  lemma IdleMeans(s: System)
    requires Inv(s)
    ensures IsIdle(s.sh) <==> AtRest(s) && Good(s.round)
  {
    if s.sh.nTodo == 0 {
      NothingHeld(s, s.threads, 0);
      IdleCounts(s.threads);
    }
    if AtRest(s) { RestHoldsNothing(s.threads); }
  }

  /** A master that waits without having been notified is waiting for a worker with a batch. */
  lemma MasterAwaited(s: System) returns (t: nat)
    requires Inv(s) && s.threads[0] == Waiting(false)
    ensures 0 < t < |s.threads| && Held(s.threads[t]) != []
  {
    assert |HeldAll(s.threads)| > 0;
    t := SomeHolder(s.threads);
  }

  // ----- Wait comes to its end -----

  function Weight(t: Thread): nat {
    match t
    case Working(b, _) => 2 * |b|
    case Done(b, _) => |b|
    case _ => 0
  }

  function Load(ts: seq<Thread>): nat {
    if ts == [] then 0 else Load(ts[..|ts| - 1]) + Weight(ts[|ts| - 1])
  }

  /** The work left: each check is taken, evaluated and accounted for. */
  function Rank(s: System): nat {
    3 * |s.sh.queue| + Load(s.threads)
  }

  lemma {:induction false} LoadUpdate(ts: seq<Thread>, t: nat, x: Thread)
    requires t < |ts|
    ensures Load(ts[t := x]) + Weight(ts[t]) == Load(ts) + Weight(x)
  {
    var n := |ts| - 1;
    if t == n {
      assert ts[t := x][..n] == ts[..n];
    } else {
      assert ts[t := x][..n] == ts[..n][t := x];
      LoadUpdate(ts[..n], t, x);
    }
  }

  lemma {:induction false} LoadSame(ts: seq<Thread>, us: seq<Thread>)
    requires |ts| == |us|
    requires forall i | 0 <= i < |ts| :: ts[i] == us[i] || (ts[i].Waiting? && us[i].Waiting?)
    ensures Load(ts) == Load(us)
  {
    if ts != [] { LoadSame(ts[..|ts| - 1], us[..|us| - 1]); }
  }

  lemma SettleRank(s: System, t: nat, c: Config)
    requires InSection(s, t)
    ensures Rank(Settle(s, t, c)) + Weight(s.threads[t]) <= Rank(s)
  {
    LoadUpdate(s.threads, t, Settle(s, t, c).threads[t]);
    if s.sh.queue != [] {
      SettleIsTook(s, t, c);
    }
  }

  /** No step but Add makes more work, and evaluating or finishing a batch makes less. */
  lemma RankShrinks(s: System, a: Action, c: Config)
    requires Inv(s) && Enabled(s, a) && !a.AddChecks?
    ensures Sane(s, a)
    ensures Rank(Next(s, a, c)) <= Rank(s)
    ensures a.Evaluate? || a.Finish? ==> Rank(Next(s, a, c)) < Rank(s)
  {
    assert Honest(s.threads[a.t], s.sh.fAllOk);
    if a.Evaluate? {
      LoadUpdate(s.threads, a.t, Next(s, a, c).threads[a.t]);
    } else {
      Arrives(s, a);
      SectionRank(s, a, Arrived(s, a), c);
    }
  }

  lemma SectionRank(s: System, a: Action, m: System, c: Config)
    requires Enabled(s, a) && !a.AddChecks? && !a.Evaluate? && Sane(s, a) && m == Arrived(s, a) && InSection(m, a.t)
    ensures Rank(Next(s, a, c)) + Weight(s.threads[a.t]) <= Rank(s)
  {
    LoadSame(s.threads, m.threads);
    IsSettle(s, a, c);
    SettleRank(m, a.t, c);
  }

  /** While the master is inside Wait some thread can act usefully: evaluate a batch, account
      for one, or, for a notified master, return. */
  lemma Helpful(s: System, c: Config) returns (a: Action)
    requires Inv(s) && !s.threads[0].Outside?
    ensures Enabled(s, a) && Useful(s, a)
    ensures Sane(s, a)
    ensures a == Wake(0) ==> Next(s, a, c).threads[0].Outside?
  {
    if s.threads[0] == Waiting(true) {
      a := Wake(0);
      WakeReturns(s, c);
    } else {
      var t := 0;
      if s.threads[0].Waiting? { t := MasterAwaited(s); }
      a := if s.threads[t].Working? then Evaluate(t) else Finish(t);
    }
  }

  /** From every reachable state a Wait in progress can be brought to its return by the threads'
      own steps, with no check added and no spurious wake-up: the protocol never deadlocks. */
  lemma {:induction false} WaitCompletes(s: System, c: Config) returns (ss: seq<System>, acts: seq<Action>)
    requires Inv(s)
    ensures Path(ss, acts, c) && ss[0] == s && ss[|acts|].threads != [] && ss[|acts|].threads[0].Outside?
    ensures forall i | 0 <= i < |acts| :: acts[i].Evaluate? || acts[i].Finish? || acts[i] == Wake(0)
    decreases Rank(s)
  {
    if s.threads[0].Outside? {
      ss, acts := [s], [];
    } else {
      var a := Helpful(s, c);
      var r := Next(s, a, c);
      NextKeeps(s, a, c);
      if a == Wake(0) {
        ss, acts := [s, r], [a];
      } else {
        RankShrinks(s, a, c);
        ss, acts := WaitCompletes(r, c);
        PathCons(s, a, ss, acts, c);
        ss, acts := [s] + ss, [a] + acts;
      }
    }
  }

  // ----- And does, if the threads are scheduled fairly -----

  /** Evaluates a batch, accounts for one, or wakes the master that has been notified. */
  predicate Useful(s: System, a: Action) {
    a.Evaluate? || a.Finish? || (a == Wake(0) && |s.threads| > 0 && s.threads[0] == Waiting(true))
  }

  function UsefulSteps(ss: seq<System>, acts: seq<Action>, i: nat): nat
    requires i <= |acts| < |ss|
  {
    if i == 0 then 0 else UsefulSteps(ss, acts, i - 1) + if Useful(ss[i - 1], acts[i - 1]) then 1 else 0
  }

  /** The threads carry on, with no check added, and the master stays inside Wait. */
  predicate StillWaiting(ss: seq<System>, acts: seq<Action>, c: Config) {
    && Path(ss, acts, c)
    && (forall i | 0 <= i < |acts| :: !acts[i].AddChecks?)
    && (forall i | 0 <= i < |ss| :: |ss[i].threads| > 0 && !ss[i].threads[0].Outside?)
  }

  /** A notified master that wakes leaves. */
  lemma WakeReturns(s: System, c: Config)
    requires Inv(s) && s.threads[0] == Waiting(true)
    ensures Sane(s, Wake(0)) && Next(s, Wake(0), c).threads[0].Outside?
  {
    WakeArrives(s, 0);
  }

  /** Whatever the interleaving, a Wait lasts for no more useful steps than there is work
      left when it is looked at; and as long as it lasts a useful step is enabled. */
  lemma {:induction false} WaitIsBounded(ss: seq<System>, acts: seq<Action>, c: Config, i: nat)
    requires StillWaiting(ss, acts, c) && Inv(ss[0]) && i <= |acts|
    ensures Inv(ss[i]) && UsefulSteps(ss, acts, i) + Rank(ss[i]) <= Rank(ss[0])
    ensures exists a :: Enabled(ss[i], a) && Useful(ss[i], a)
  {
    if i > 0 {
      var j := i - 1;
      WaitIsBounded(ss, acts, c, j);
      assert StepAt(ss, acts, c, j);
      UsefulStep(ss[j], acts[j], ss[i], c);
    }
    var a := Helpful(ss[i], c);
    assert Enabled(ss[i], a) && Useful(ss[i], a);
  }

  lemma UsefulStep(s: System, a: Action, r: System, c: Config)
    requires Inv(s) && Steps(s, a, r, c) && !a.AddChecks? && !r.threads[0].Outside?
    ensures Inv(r) && Rank(r) + (if Useful(s, a) then 1 else 0) <= Rank(s)
  {
    NextKeeps(s, a, c);
    RankShrinks(s, a, c);
    if a == Wake(0) && s.threads[0] == Waiting(true) { WakeReturns(s, c); }
  }

  lemma PathCons(s: System, a: Action, ss: seq<System>, acts: seq<Action>, c: Config)
    requires Path(ss, acts, c) && Steps(s, a, ss[0], c)
    ensures Path([s] + ss, [a] + acts, c)
  {
    var s2, a2 := [s] + ss, [a] + acts;
    forall i | 0 <= i < |a2| ensures StepAt(s2, a2, c, i) {
      if i > 0 { assert StepAt(ss, acts, c, i - 1); }
    }
  }
}
