/** The check queue as an object (src/checkqueue.h). Each method below is what one thread does
    while it holds the mutex, or to its own batch without it; a wait on a condition variable
    ends one such method and starts the next. */
module CheckQueueObject {
  import opened Common
  import opened CheckQueue
  import opened CheckQueueSafety

  class SharedQueue {
    var queue: seq<Check>
    var nIdle: int
    var nTotal: int
    var fAllOk: bool
    var nTodo: int
    const fQuit: bool
    const nBatchSize: nat

    function State(): Shared
      reads this
    {
      Shared(queue, nIdle, nTotal, fAllOk, nTodo)
    }

    function Settings(): Config {
      Config(nBatchSize, fQuit)
    }

    constructor (nBatchSize: nat)
      ensures State() == Start(0).sh && Settings() == Config(nBatchSize, false)
    {
      queue, nIdle, nTotal, fAllOk, nTodo := [], 0, 0, true, 0;
      fQuit := false;
      this.nBatchSize := nBatchSize;
    }

    /** Pushes every check and owes for each of them. */
    method Add(checks: seq<Check>)
      modifies this
      ensures State() == old(State()).(queue := old(queue) + checks, nTodo := old(nTodo) + |checks|)
    {
      var i := 0;
      while i < |checks|
        invariant 0 <= i <= |checks|
        invariant State() == old(State()).(queue := old(queue) + checks[..i])
      {
        queue := queue + [checks[i]];
        assert checks[..i + 1] == checks[..i] + [checks[i]];
        i := i + 1;
      }
      assert checks[..i] == checks;
      nTodo := nTodo + |checks|;
    }

    /** The clean-up; notify says that the master is to be told. */
    method CleanUp(nNow: nat, fOk: bool, fMaster: bool) returns (notify: bool)
      modifies this
      ensures State() == Arrive(old(State()), nNow, fOk)
      ensures notify <==> nNow > 0 && nTodo == 0 && !fMaster
    {
      notify := false;
      if nNow > 0 {
        fAllOk := fAllOk && fOk;
        nTodo := nTodo - nNow;
        notify := nTodo == 0 && !fMaster;
      } else {
        nTotal := nTotal + 1;
      }
    }

    /** A wait has ended. */
    method EndWait()
      modifies this
      ensures State() == old(State()).(nIdle := old(nIdle) - 1)
    {
      nIdle := nIdle - 1;
    }

    /** Moves n checks off the top of the stack. */
    method PopBatch(n: nat) returns (batch: seq<Check>)
      requires n <= |queue|
      modifies this
      ensures State() == old(State()).(queue := old(queue)[..|old(queue)| - n])
      ensures batch == Top(old(queue), n)
    {
      batch := [];
      while |batch| < n
        invariant |batch| <= n
        invariant State() == old(State()).(queue := old(queue)[..|old(queue)| - |batch|])
        invariant batch == Top(old(queue), |batch|)
      {
        batch := batch + [queue[|queue| - 1]];
        queue := queue[..|queue| - 1];
      }
    }

    /** Leaves with a verdict, goes to wait, or takes a batch. */
    method Choose(fMaster: bool) returns (out: Outcome)
      requires nTotal >= 0 && nIdle >= 0
      modifies this
      ensures (State(), out) == Decide(old(State()), fMaster, Settings())
    {
      if queue == [] {
        if (fMaster || fQuit) && nTodo == 0 {
          nTotal := nTotal - 1;
          out := Exit(fAllOk);
          if fMaster { fAllOk := true; }
        } else {
          nIdle := nIdle + 1;
          out := Sleep;
        }
      } else {
        BatchFits(State(), Settings());
        var nNow := Max(1, Min(nBatchSize, |queue| / (nTotal + nIdle + 1)));
        var batch := PopBatch(nNow);
        out := Take(batch, fAllOk);
      }
    }

    /** Whichever reachable system the object is the shared part of, idle means that no
        thread has work and all of it so far has passed. */
    method IsIdle() returns (idle: bool)
      ensures idle <==> CheckQueueSafety.IsIdle(State())
      ensures forall s: System {:trigger Inv(s)} | Inv(s) && s.sh == State() :: idle <==> AtRest(s) && Good(s.round)
    {
      forall s: System | Inv(s) && s.sh == State()
        ensures CheckQueueSafety.IsIdle(State()) <==> AtRest(s) && Good(s.round)
      {
        IdleMeans(s);
      }
      idle := nTotal == nIdle && nTodo == 0 && fAllOk == true;
    }
  }

  /** Runs the checks of a batch until one fails, or none if an earlier failure is known. */
  method Execute(batch: seq<Check>, start: bool) returns (fOk: bool)
    ensures fOk <==> start && AllPass(batch)
  {
    fOk := start;
    var i := 0;
    while i < |batch|
      invariant 0 <= i <= |batch|
      invariant fOk <==> start && AllPass(batch[..i])
    {
      assert batch[..i + 1] == batch[..i] + [batch[i]];
      if fOk { fOk := batch[i].passes; }
      i := i + 1;
    }
    assert batch[..i] == batch;
  }
}
