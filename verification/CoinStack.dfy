/** Stacks of write-back coin caches (src/coins.cpp, src/coins.h) over a plain map from outpoint
    to unspent coin (src/txdb.cpp), as values. What a stack shows at an outpoint is its top
    entry if there is one, else what the view below shows. */
module CoinStack {
  import opened Common

  datatype OutPoint = OutPoint(hash: nat, n: nat)

  /** An output with its height; nValue is -1 exactly when it has been spent or pruned. */
  datatype Coin = Coin(nValue: int, script: seq<nat>, fCoinBase: bool, nHeight: nat)

  const OP_RETURN: nat := 0x6a
  const MAX_SCRIPT_SIZE: nat := 10000

  const COIN_EMPTY: Coin := Coin(-1, [], false, 0)

  predicate IsSpent(c: Coin) { c.nValue == -1 }

  predicate IsUnspendable(script: seq<nat>) {
    (|script| > 0 && script[0] == OP_RETURN) || |script| > MAX_SCRIPT_SIZE
  }

  datatype Entry = Entry(coin: Coin, isDirty: bool, isFresh: bool)

  type Entries = map<OutPoint, Entry>

  datatype Stack = Base(store: map<OutPoint, Coin>) | Cache(entries: Entries, below: Stack)

  /** What the view shows at an outpoint: its unspent coin, if any. */
  function Look(s: Stack, o: OutPoint): Option<Coin> {
    match s
    case Base(store) => if o in store then Some(store[o]) else None
    case Cache(es, below) => if o in es then Unspent(es[o].coin) else Look(below, o)
  }

  function Unspent(c: Coin): Option<Coin> {
    if IsSpent(c) then None else Some(c)
  }

  /** What GetCoin answers: every cache on the way checks that the coin is unspent, the database
      does not. */
  function Answer(s: Stack, o: OutPoint): Option<Coin> {
    match s
    case Base(store) => if o in store then Some(store[o]) else None
    case Cache(es, below) =>
      if o in es then Unspent(es[o].coin) else if Answer(below, o).None? then None else Unspent(Answer(below, o).value)
  }

  // ----- The operations -----

  /** Loads the entry for o into every cache on the way down to the first that has it. */
  function Fetch(s: Stack, o: OutPoint): Stack {
    match s
    case Base(_) => s
    case Cache(es, below) =>
      if o in es then s
      else
        var lower := Fetch(below, o);
        if Answer(below, o).None? then Cache(es, lower)
        else
          var c := Answer(below, o).value;
          Cache(es[o := Entry(c, false, IsSpent(c))], lower)
  }

  /** AddCoin refuses to replace an unspent entry unless told that it may. */
  predicate AddThrows(es: Entries, o: OutPoint, c: Coin, overwrite: bool) {
    !IsUnspendable(c.script) && !overwrite && o in es && !IsSpent(es[o].coin)
  }

  function AddCoin(es: Entries, o: OutPoint, c: Coin, overwrite: bool): Entries {
    if IsUnspendable(c.script) || AddThrows(es, o, c, overwrite) then es
    else
      var e := if o in es then es[o] else Entry(COIN_EMPTY, false, false);
      es[o := Entry(c, true, e.isFresh || (!overwrite && !e.isDirty))]
  }

  /** SpendCoin, once the entry has been fetched. */
  function Spend(es: Entries, o: OutPoint): Entries {
    if o !in es then es
    else if es[o].isFresh then es - {o}
    else es[o := Entry(COIN_EMPTY, true, es[o].isFresh)]
  }

  function SpendCoin(s: Stack, o: OutPoint): Stack
    requires s.Cache?
  {
    var f := Fetch(s, o);
    Cache(Spend(f.entries, o), f.below)
  }

  function Uncache(es: Entries, o: OutPoint): Entries {
    if o in es && !es[o].isDirty && !es[o].isFresh then es - {o} else es
  }

  /** BatchWrite would throw: a child entry claims to be fresh over an unspent entry here. */
  predicate Misapplied(es: Entries, o: OutPoint, e: Entry) {
    e.isDirty && e.isFresh && o in es && !IsSpent(es[o].coin)
  }

  /** One step of BatchWrite into a cache. */
  function Merge(es: Entries, o: OutPoint, e: Entry): Entries {
    if !e.isDirty then es
    else if o !in es then
      if e.isFresh && IsSpent(e.coin) then es else es[o := Entry(e.coin, true, e.isFresh)]
    else if es[o].isFresh && IsSpent(e.coin) then es - {o}
    else es[o := Entry(e.coin, true, es[o].isFresh)]
  }

  /** One step of BatchWrite into the database. */
  function Commit(store: map<OutPoint, Coin>, o: OutPoint, e: Entry): map<OutPoint, Coin> {
    if !e.isDirty then store
    else if IsSpent(e.coin) then store - {o}
    else store[o := e.coin]
  }

  /** The whole of BatchWrite: each outpoint of the child is merged by itself. */
  function MergeAll(es: Entries, child: Entries): Entries {
    map o | o in es.Keys + child.Keys && o in MergeAt(es, child, o) :: MergeAt(es, child, o)[o]
  }

  function MergeAt(es: Entries, child: Entries, o: OutPoint): Entries {
    if o in child then Merge(es, o, child[o]) else es
  }

  function CommitAll(store: map<OutPoint, Coin>, child: Entries): map<OutPoint, Coin> {
    map o | o in store.Keys + child.Keys && o in CommitAt(store, child, o) :: CommitAt(store, child, o)[o]
  }

  function CommitAt(store: map<OutPoint, Coin>, child: Entries, o: OutPoint): map<OutPoint, Coin> {
    if o in child then Commit(store, o, child[o]) else store
  }

  function Depth(s: Stack): nat {
    if s.Base? then 0 else 1 + Depth(s.below)
  }

  function BatchWrite(s: Stack, child: Entries): (r: Stack)
    ensures Depth(r) == Depth(s)
  {
    match s
    case Base(store) => Base(CommitAll(store, child))
    case Cache(es, below) => Cache(MergeAll(es, child), below)
  }

  function Flush(s: Stack): Stack
    requires s.Cache?
  {
    Cache(map[], BatchWrite(s.below, s.entries))
  }

  // ----- What the flags mean -----

  /** A fresh entry is unspent and has nothing unspent below it; an entry that is not dirty is
      an unspent coin that the view below shows too. */
  predicate EntryOk(e: Entry, shown: Option<Coin>) {
    && (e.isFresh ==> shown == None && !IsSpent(e.coin))
    && (!e.isDirty ==> !IsSpent(e.coin) && shown == Some(e.coin))
  }

  predicate LevelOk(es: Entries, below: Stack) {
    forall o | o in es :: EntryOk(es[o], Look(below, o))
  }

  predicate Inv(s: Stack) {
    match s
    case Base(store) => forall o | o in store :: !IsSpent(store[o])
    case Cache(es, below) => LevelOk(es, below) && Inv(below)
  }

  lemma {:induction false} LookUnspent(s: Stack, o: OutPoint)
    requires Inv(s)
    ensures Look(s, o).Some? ==> !IsSpent(Look(s, o).value)
  {
    if s.Cache? && o !in s.entries { LookUnspent(s.below, o); }
  }

  /** With no spent coin in the database, GetCoin answers what the view shows. */
  lemma {:induction false} AnswerIsLook(s: Stack, o: OutPoint)
    requires Inv(s)
    ensures Answer(s, o) == Look(s, o)
  {
    if s.Cache? && o !in s.entries {
      AnswerIsLook(s.below, o);
      LookUnspent(s.below, o);
    }
  }

  /** A fetched entry holds the answer. */
  lemma FetchAnswers(s: Stack, o: OutPoint)
    requires s.Cache?
    ensures Fetch(s, o).Cache?
    ensures Answer(s, o) == if o in Fetch(s, o).entries then Unspent(Fetch(s, o).entries[o].coin) else None
  {
  }

  /** Two stacks that show the same everywhere. */
  ghost predicate SameView(s: Stack, t: Stack) {
    forall o: OutPoint :: Look(s, o) == Look(t, o)
  }

  lemma LevelOverSame(es: Entries, b: Stack, c: Stack)
    requires LevelOk(es, b) && SameView(b, c)
    ensures LevelOk(es, c)
  {
    forall o | o in es ensures EntryOk(es[o], Look(c, o)) {
      assert Look(b, o) == Look(c, o);
    }
  }

  // ----- Reading -----

  /** Fetching changes no view at any level, and afterwards o has an entry at the top exactly
      when it had one or the view below shows a coin; that entry shows what the view showed. */
  lemma {:induction false} FetchKeeps(s: Stack, o: OutPoint)
    requires Inv(s)
    ensures Inv(Fetch(s, o)) && SameView(s, Fetch(s, o))
    ensures s.Cache? ==> Fetch(s, o).Cache? && SameView(s.below, Fetch(s, o).below)
    ensures s.Cache? ==> (o in Fetch(s, o).entries <==> o in s.entries || Look(s.below, o).Some?)
    ensures s.Cache? && o in Fetch(s, o).entries ==> Unspent(Fetch(s, o).entries[o].coin) == Look(s, o)
    ensures s.Cache? && o !in Fetch(s, o).entries ==> Look(s, o) == None
  {
    if s.Cache? && o !in s.entries {
      FetchKeeps(s.below, o);
      AnswerIsLook(s.below, o);
      FetchLevel(s, o, Fetch(s.below, o));
    }
  }

  lemma FetchLevel(s: Stack, o: OutPoint, lower: Stack)
    requires s.Cache? && Inv(s) && o !in s.entries && lower == Fetch(s.below, o)
    requires Inv(lower) && SameView(s.below, lower)
    ensures Inv(Fetch(s, o)) && SameView(s, Fetch(s, o))
    ensures o in Fetch(s, o).entries ==> Unspent(Fetch(s, o).entries[o].coin) == Look(s, o)
  {
    LookUnspent(s.below, o);
    AnswerIsLook(s.below, o);
    LevelOverSame(s.entries, s.below, lower);
    var f := Fetch(s, o);
    forall p: OutPoint ensures Look(s, p) == Look(f, p) {
      assert Look(s.below, p) == Look(lower, p);
    }
  }

  // ----- Writing -----

  /** AddCoin's promise: unless overwriting is allowed, an outpoint without an entry here has no
      unspent coin below. (With an entry, AddCoin checks for itself.) */
  predicate Promise(s: Stack, o: OutPoint, overwrite: bool)
    requires s.Cache?
  {
    !overwrite && o !in s.entries ==> Look(s.below, o) == None
  }

  /** Adding shows the coin at o and nothing else changes; the flags keep their meaning. */
  lemma AddKeeps(s: Stack, o: OutPoint, c: Coin, overwrite: bool)
    requires s.Cache? && Inv(s) && !IsSpent(c) && Promise(s, o, overwrite)
    ensures var t := Cache(AddCoin(s.entries, o, c, overwrite), s.below);
      && Inv(t)
      && forall p :: Look(t, p) ==
           if p == o && !IsUnspendable(c.script) && !AddThrows(s.entries, o, c, overwrite) then Some(c) else Look(s, p)
  {
    var es := AddCoin(s.entries, o, c, overwrite);
    forall p | p in es ensures EntryOk(es[p], Look(s.below, p)) {
      assert p in s.entries ==> EntryOk(s.entries[p], Look(s.below, p));
    }
  }

  /** The promise is what keeps the flags honest, no more and no less. */
  lemma PromiseExact(s: Stack, o: OutPoint, c: Coin, overwrite: bool)
    requires s.Cache? && Inv(s) && !IsSpent(c) && !IsUnspendable(c.script)
    ensures Inv(Cache(AddCoin(s.entries, o, c, overwrite), s.below)) <==> Promise(s, o, overwrite)
  {
    var es := AddCoin(s.entries, o, c, overwrite);
    if Promise(s, o, overwrite) {
      AddKeeps(s, o, c, overwrite);
    } else {
      assert !EntryOk(es[o], Look(s.below, o));
      assert !LevelOk(es, s.below);
    }
  }

  /** A broken promise loses a spend: the coin below comes back. */
  lemma BrokenPromiseRevives()
    ensures exists s: Stack, o: OutPoint, c: Coin :: (s.Cache? && Inv(s) && !IsSpent(c)
      && Look(SpendCoin(Cache(AddCoin(s.entries, o, c, false), s.below), o), o) != None)
  {
    var o, c, d := OutPoint(1, 0), Coin(5, [], false, 1), Coin(7, [], false, 2);
    var s := Cache(map[], Base(map[o := c]));
    assert Inv(s.below);
    var es := AddCoin(s.entries, o, d, false);
    assert es == map[o := Entry(d, true, true)];
    assert Spend(es, o) == map[];
    assert SpendCoin(Cache(es, s.below), o) == Cache(map[], s.below);
    assert Look(SpendCoin(Cache(es, s.below), o), o) == Some(c);
    assert s.Cache? && Inv(s) && !IsSpent(d);
  }

  /** Spending removes o from the view and nothing else. */
  lemma SpendKeeps(s: Stack, o: OutPoint)
    requires s.Cache? && Inv(s)
    ensures Inv(SpendCoin(s, o)) && SameView(s.below, SpendCoin(s, o).below)
    ensures forall p :: Look(SpendCoin(s, o), p) == if p == o then None else Look(s, p)
  {
    FetchKeeps(s, o);
    var f := Fetch(s, o);
    var t := SpendCoin(s, o);
    forall p | p in t.entries ensures EntryOk(t.entries[p], Look(t.below, p)) {
      assert EntryOk(f.entries[p], Look(f.below, p));
    }
    forall p ensures Look(t, p) == if p == o then None else Look(s, p) {
      assert Look(s, p) == Look(f, p);
      if p == o && o in f.entries { assert EntryOk(f.entries[o], Look(f.below, o)); }
    }
  }

  /** Uncache never changes the view. */
  lemma UncacheKeeps(s: Stack, o: OutPoint)
    requires s.Cache? && Inv(s)
    ensures var t := Cache(Uncache(s.entries, o), s.below); Inv(t) && SameView(s, t)
  {
    var es := Uncache(s.entries, o);
    forall p | p in es ensures EntryOk(es[p], Look(s.below, p)) {
      assert EntryOk(s.entries[p], Look(s.below, p));
    }
    forall p: OutPoint ensures Look(s, p) == Look(Cache(es, s.below), p) {
      if p == o && o in s.entries { assert EntryOk(s.entries[o], Look(s.below, o)); }
    }
  }

  // ----- Flushing -----

  /** The step that throws cannot be reached. */
  lemma NeverMisapplied(s: Stack, o: OutPoint)
    requires s.Cache? && s.below.Cache? && Inv(s) && o in s.entries
    ensures !Misapplied(s.below.entries, o, s.entries[o])
  {
    assert EntryOk(s.entries[o], Look(s.below, o));
  }

  lemma MergeLook(s: Stack, o: OutPoint)
    requires s.Cache? && s.below.Cache? && Inv(s)
    ensures Look(BatchWrite(s.below, s.entries), o) == Look(s, o)
    ensures o in MergeAll(s.below.entries, s.entries) ==>
      EntryOk(MergeAll(s.below.entries, s.entries)[o], Look(s.below.below, o))
  {
    if o in s.entries { assert EntryOk(s.entries[o], Look(s.below, o)); }
    if o in s.below.entries { assert EntryOk(s.below.entries[o], Look(s.below.below, o)); }
  }

  /** Writing a level down makes the view below equal to the view above, and the meaning of
      the flags survives; it depends on nothing but the entries, so on no order. */
  lemma WriteKeeps(s: Stack)
    requires s.Cache? && Inv(s)
    ensures Inv(BatchWrite(s.below, s.entries)) && SameView(BatchWrite(s.below, s.entries), s)
  {
    var r := BatchWrite(s.below, s.entries);
    if s.below.Cache? {
      forall o: OutPoint ensures Look(r, o) == Look(s, o) { MergeLook(s, o); }
      forall o | o in r.entries ensures EntryOk(r.entries[o], Look(r.below, o)) { MergeLook(s, o); }
    } else {
      forall o: OutPoint ensures Look(r, o) == Look(s, o) {
        if o in s.entries { assert EntryOk(s.entries[o], Look(s.below, o)); }
      }
    }
  }

  lemma FlushKeeps(s: Stack)
    requires s.Cache? && Inv(s)
    ensures Inv(Flush(s)) && SameView(Flush(s), s) && SameView(Flush(s).below, s)
  {
    WriteKeeps(s);
  }

  /** Flush every cache, from the top down. */
  function FlushAll(s: Stack): Stack
    decreases Depth(s)
  {
    if s.Base? then s else Cache(map[], FlushAll(BatchWrite(s.below, s.entries)))
  }

  function Bottom(s: Stack): map<OutPoint, Coin> {
    if s.Base? then s.store else Bottom(s.below)
  }

  /** Flushing top to bottom leaves the view alone and makes the database equal to it. */
  lemma {:induction false} FlushAllCommits(s: Stack)
    requires Inv(s)
    ensures Inv(FlushAll(s)) && SameView(FlushAll(s), s) && SameView(Base(Bottom(FlushAll(s))), s)
    decreases Depth(s)
  {
    if s.Cache? {
      var b := BatchWrite(s.below, s.entries);
      WriteKeeps(s);
      FlushAllCommits(b);
      forall o: OutPoint ensures Look(FlushAll(s), o) == Look(s, o) && Look(Base(Bottom(FlushAll(s))), o) == Look(s, o) {
        assert Look(b, o) == Look(s, o);
        assert Look(FlushAll(b), o) == Look(b, o);
        assert Look(Base(Bottom(FlushAll(b))), o) == Look(b, o);
      }
    }
  }
}
