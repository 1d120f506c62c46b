/** The parallel check queue (src/checkqueue.h): one master and any number of workers that
    share a stack of checks under one mutex. Each critical section and each evaluation of a
    batch is one step; every interleaving of such steps is a run.

    Thread 0 is the master: it alone adds checks, and it joins the workers while it waits.
    A check is known by a number and whether it passes. */
module CheckQueue {
  import opened Common
  import Bits

  datatype Check = Check(id: nat, passes: bool)

  /** What the mutex protects. */
  datatype Shared = Shared(queue: seq<Check>, nIdle: int, nTotal: int, fAllOk: bool, nTodo: int)

  datatype Config = Config(nBatchSize: nat, fQuit: bool)

  /** How a critical section of Loop ends. */
  datatype Outcome = Exit(fRet: bool) | Sleep | Take(batch: seq<Check>, fOk: bool)

  /** The number of checks to take: increasingly smaller, at least one. */
  function BatchSize(sh: Shared, c: Config): int
    requires sh.nTotal + sh.nIdle + 1 > 0
  {
    Max(1, Min(c.nBatchSize, |sh.queue| / (sh.nTotal + sh.nIdle + 1)))
  }

  /** The last n elements, last first. */
  function Top(q: seq<Check>, n: nat): (r: seq<Check>)
    requires n <= |q|
    ensures |r| == n
  {
    seq(n, i requires 0 <= i < n => q[|q| - 1 - i])
  }

  lemma BatchFits(sh: Shared, c: Config)
    requires sh.queue != [] && sh.nTotal >= 0 && sh.nIdle >= 0
    ensures 1 <= BatchSize(sh, c) <= |sh.queue|
  {
    DivLess(|sh.queue|, sh.nTotal + sh.nIdle + 1);
  }

  /** Beyond one check a batch is the largest that respects the limit and leaves as much for
      every other thread, waiting ones counted twice. */
  lemma BatchIsFair(sh: Shared, c: Config, n: nat)
    requires sh.nTotal >= 0 && sh.nIdle >= 0 && n > 1
    ensures n <= BatchSize(sh, c) <==> n <= c.nBatchSize && (sh.nTotal + sh.nIdle + 1) * n <= |sh.queue|
  {
    Bits.DivBounds(|sh.queue|, sh.nTotal + sh.nIdle + 1, n);
  }

  lemma DivLess(n: nat, d: int)
    requires d >= 1
    ensures 0 <= n / d <= n
  {
    Bits.DivNat(n, d);
    Bits.MulMono(n / d, 1, d);
    assert (n / d) * d == d * (n / d);
  }

  /** The clean-up at the start of a critical section: account for a batch, or count in. */
  function Arrive(sh: Shared, nNow: nat, fOk: bool): Shared {
    if nNow > 0 then sh.(fAllOk := sh.fAllOk && fOk, nTodo := sh.nTodo - nNow) else sh.(nTotal := sh.nTotal + 1)
  }

  /** The rest of it: leave, wait, or take a batch. */
  function Decide(sh: Shared, fMaster: bool, c: Config): (Shared, Outcome)
    requires sh.nTotal >= 0 && sh.nIdle >= 0
  {
    if sh.queue == [] then
      if (fMaster || c.fQuit) && sh.nTodo == 0 then
        (sh.(nTotal := sh.nTotal - 1, fAllOk := if fMaster then true else sh.fAllOk), Exit(sh.fAllOk))
      else (sh.(nIdle := sh.nIdle + 1), Sleep)
    else
      BatchFits(sh, c);
      var n := BatchSize(sh, c);
      (sh.(queue := sh.queue[..|sh.queue| - n]), Take(Top(sh.queue, n), sh.fAllOk))
  }

  predicate AllPass(cs: seq<Check>) {
    forall i | 0 <= i < |cs| :: cs[i].passes
  }

  // ----- Threads -----

  datatype Thread =
    | Outside
    | Waiting(notified: bool)
    | Working(batch: seq<Check>, fOk: bool)   // has a batch to evaluate
    | Done(batch: seq<Check>, fOk: bool)      // has evaluated it

  /** The checks a thread holds. */
  function Held(t: Thread): seq<Check> {
    if t.Working? || t.Done? then t.batch else []
  }

  /** The whole system. The last three fields are history: the checks added since the
      master's last Wait returned, those accounted for, and what the last Wait returned. */
  datatype System = System(
    sh: Shared, threads: seq<Thread>,
    round: multiset<Check>, accounted: multiset<Check>, verdict: bool)

  function Start(n: nat): System {
    System(Shared([], 0, 0, true, 0), seq(n, i => Outside), multiset{}, multiset{}, true)
  }

  datatype Action =
    | AddChecks(cs: seq<Check>, woken: set<nat>)   // by the master; woken: the waiting workers notified
    | EnterLoop(t: nat)
    | Evaluate(t: nat)
    | Finish(t: nat)
    | Wake(t: nat)                                 // notified, or spuriously

  predicate Enabled(s: System, a: Action) {
    match a
    case AddChecks(cs, woken) => |s.threads| > 0 && s.threads[0].Outside?
    case EnterLoop(t) => t < |s.threads| && s.threads[t].Outside?
    case Evaluate(t) => t < |s.threads| && s.threads[t].Working?
    case Finish(t) => t < |s.threads| && s.threads[t].Done?
    case Wake(t) => t < |s.threads| && s.threads[t].Waiting?
  }

  /** Notify a waiting master. */
  function NotifyMaster(ts: seq<Thread>): seq<Thread>
    requires |ts| > 0
  {
    if ts[0].Waiting? then ts[0 := Waiting(true)] else ts
  }

  function NotifyWorkers(ts: seq<Thread>, woken: set<nat>): (r: seq<Thread>)
    ensures |r| == |ts|
  {
    seq(|ts|, i requires 0 <= i < |ts| => if i > 0 && i in woken && ts[i].Waiting? then Waiting(true) else ts[i])
  }

  /** Thread t has decided what to do next. */
  function Settle(s: System, t: nat, c: Config): System
    requires t < |s.threads| && s.sh.nTotal >= 0 && s.sh.nIdle >= 0
  {
    var (sh, out) := Decide(s.sh, t == 0, c);
    var next := match out case Exit(_) => Outside case Sleep => Waiting(false) case Take(b, ok) => Working(b, ok);
    var r := s.(sh := sh, threads := s.threads[t := next]);
    if out.Exit? && t == 0 then r.(round := multiset{}, accounted := multiset{}, verdict := out.fRet) else r
  }

  /** Thread t accounts for its batch; the last one to finish notifies the master. */
  function Accounted(s: System, t: nat): System
    requires t < |s.threads| && s.threads[t].Done?
  {
    var d := s.threads[t];
    var sh := Arrive(s.sh, |d.batch|, d.fOk);
    var ts := if sh.nTodo == 0 && t != 0 then NotifyMaster(s.threads) else s.threads;
    s.(sh := sh, threads := ts, accounted := s.accounted + multiset(d.batch))
  }

  /** The thread has the lock and has done its clean-up. */
  function Arrived(s: System, a: Action): (r: System)
    requires Enabled(s, a) && !a.AddChecks? && !a.Evaluate?
    ensures |r.threads| == |s.threads| && r.round == s.round
  {
    match a
    case EnterLoop(t) => s.(sh := Arrive(s.sh, 0, true))
    case Finish(t) => Accounted(s, t)
    case Wake(t) => s.(sh := s.sh.(nIdle := s.sh.nIdle - 1))
  }

  /** The counts a step relies on. */
  predicate Sane(s: System, a: Action) {
    s.sh.nTotal >= 0 && s.sh.nIdle >= 0 && (a.Wake? ==> s.sh.nIdle > 0)
  }

  function Next(s: System, a: Action, c: Config): System
    requires Enabled(s, a) && Sane(s, a)
  {
    match a
    case AddChecks(cs, woken) =>
      s.(sh := s.sh.(queue := s.sh.queue + cs, nTodo := s.sh.nTodo + |cs|),
         threads := NotifyWorkers(s.threads, woken), round := s.round + multiset(cs))
    case Evaluate(t) =>
      var w := s.threads[t];
      s.(threads := s.threads[t := Done(w.batch, w.fOk && AllPass(w.batch))])
    case _ => Settle(Arrived(s, a), a.t, c)
  }
}
