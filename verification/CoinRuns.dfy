/** Whole runs over a stack of coin caches (src/coins.cpp): they act on the views, level by
    level, as the same operations act on a stack of plain maps. */
module CoinRuns {
  import opened Common
  import opened CoinStack

  // ----- Views as maps -----

  function Known(s: Stack): set<OutPoint> {
    if s.Base? then s.store.Keys else s.entries.Keys + Known(s.below)
  }

  /** The view as a map from outpoint to unspent coin. */
  function Shown(s: Stack): map<OutPoint, Coin> {
    map o | o in Known(s) && Look(s, o).Some? :: Look(s, o).value
  }

  lemma {:induction false} LookKnown(s: Stack, o: OutPoint)
    ensures Look(s, o).Some? ==> o in Known(s)
  {
    if s.Cache? && o !in s.entries { LookKnown(s.below, o); }
  }

  lemma ShownAt(s: Stack, o: OutPoint)
    ensures o in Shown(s) <==> Look(s, o).Some?
    ensures o in Shown(s) ==> Look(s, o) == Some(Shown(s)[o])
  {
    LookKnown(s, o);
  }

  lemma ShownSame(s: Stack, t: Stack)
    requires SameView(s, t)
    ensures Shown(s) == Shown(t)
  {
    forall o: OutPoint ensures o in Shown(s) <==> o in Shown(t)
                       ensures o in Shown(s) ==> Shown(s)[o] == Shown(t)[o]
    {
      assert Look(s, o) == Look(t, o);
      ShownAt(s, o);
      ShownAt(t, o);
    }
  }

  /** Every level's view, the top first. */
  function Levels(s: Stack): (vs: seq<map<OutPoint, Coin>>)
    ensures |vs| == Depth(s) + 1
  {
    [Shown(s)] + if s.Base? then [] else Levels(s.below)
  }

  // ----- Operations -----

  datatype Op =
    | Read(o: OutPoint)
    | Add(o: OutPoint, c: Coin, overwrite: bool)
    | Remove(o: OutPoint)
    | Evict(o: OutPoint)
    | WriteBack
    | Push        // a new cache on top
    | Pop         // the top cache destroyed without being flushed

  predicate Allowed(s: Stack, op: Op) {
    match op
    case Push => true
    case Add(o, c, overwrite) => s.Cache? && !IsSpent(c) && Promise(s, o, overwrite)
    case _ => s.Cache?
  }

  function Step(s: Stack, op: Op): Stack
    requires Allowed(s, op)
  {
    match op
    case Read(o) => Fetch(s, o)
    case Add(o, c, overwrite) => Cache(AddCoin(s.entries, o, c, overwrite), s.below)
    case Remove(o) => SpendCoin(s, o)
    case Evict(o) => Cache(Uncache(s.entries, o), s.below)
    case WriteBack => Flush(s)
    case Push => Cache(map[], s)
    case Pop => s.below
  }

  /** The same operation on plain maps. Adding is refused where a coin is already there,
      unless overwriting is allowed, and outputs that nobody can spend are not kept. */
  function Plain(vs: seq<map<OutPoint, Coin>>, op: Op): seq<map<OutPoint, Coin>>
    requires |vs| > 0 && (op.WriteBack? || op.Pop? ==> |vs| > 1)
  {
    match op
    case Read(_) => vs
    case Add(o, c, overwrite) =>
      if IsUnspendable(c.script) || (!overwrite && o in vs[0]) then vs else vs[0 := vs[0][o := c]]
    case Remove(o) => vs[0 := vs[0] - {o}]
    case Evict(_) => vs
    case WriteBack => vs[1 := vs[0]]
    case Push => [vs[0]] + vs
    case Pop => vs[1..]
  }

  lemma {:induction false} FetchLevels(s: Stack, o: OutPoint)
    requires Inv(s)
    ensures Levels(Fetch(s, o)) == Levels(s)
  {
    FetchKeeps(s, o);
    ShownSame(s, Fetch(s, o));
    if s.Cache? && o !in s.entries { FetchLevels(s.below, o); }
  }

  /** A map is the view of a stack if it agrees with it everywhere. */
  lemma ShownIs(s: Stack, m: map<OutPoint, Coin>)
    requires forall p: OutPoint :: Look(s, p) == if p in m then Some(m[p]) else None
    ensures Shown(s) == m
  {
    forall p: OutPoint ensures p in Shown(s) <==> p in m ensures p in m ==> p in Shown(s) && Shown(s)[p] == m[p] {
      ShownAt(s, p);
    }
  }

  lemma AddRefines(s: Stack, o: OutPoint, c: Coin, overwrite: bool)
    requires s.Cache? && Inv(s) && !IsSpent(c) && Promise(s, o, overwrite)
    ensures AddThrows(s.entries, o, c, overwrite) <==> !IsUnspendable(c.script) && !overwrite && o in Shown(s)
    ensures Levels(Step(s, Add(o, c, overwrite))) == Plain(Levels(s), Add(o, c, overwrite))
  {
    var t, v := Step(s, Add(o, c, overwrite)), Plain(Levels(s), Add(o, c, overwrite));
    AddKeeps(s, o, c, overwrite);
    ShownAt(s, o);
    forall p: OutPoint ensures Look(t, p) == if p in v[0] then Some(v[0][p]) else None { ShownAt(s, p); }
    ShownIs(t, v[0]);
  }

  lemma SpendShows(s: Stack, o: OutPoint)
    requires s.Cache? && Inv(s)
    ensures Shown(SpendCoin(s, o)) == Shown(s) - {o}
  {
    var t, m := SpendCoin(s, o), Shown(s) - {o};
    SpendKeeps(s, o);
    forall p: OutPoint ensures Look(t, p) == if p in m then Some(m[p]) else None { ShownAt(s, p); }
    ShownIs(t, m);
  }

  lemma SpendRefines(s: Stack, o: OutPoint)
    requires s.Cache? && Inv(s)
    ensures Levels(SpendCoin(s, o)) == Plain(Levels(s), Remove(o))
  {
    SpendShows(s, o);
    SpendBelow(s, o);
    assert Levels(SpendCoin(s, o)) == [Shown(s) - {o}] + Levels(s.below);
  }

  lemma SpendBelow(s: Stack, o: OutPoint)
    requires s.Cache? && Inv(s)
    ensures Levels(SpendCoin(s, o).below) == Levels(s.below)
  {
    if o !in s.entries { FetchLevels(s.below, o); }
  }

  lemma FlushRefines(s: Stack)
    requires s.Cache? && Inv(s)
    ensures Levels(Flush(s)) == Plain(Levels(s), WriteBack)
  {
    FlushKeeps(s);
    ShownSame(Flush(s), s);
    ShownSame(Flush(s).below, s);
  }

  /** Every operation keeps the flags honest at every level and does to the stack of views
      exactly what it does to a stack of plain maps. */
  lemma StepRefines(s: Stack, op: Op)
    requires Inv(s) && Allowed(s, op)
    ensures Inv(Step(s, op))
    ensures Levels(Step(s, op)) == Plain(Levels(s), op)
  {
    match op
    case Read(o) => FetchKeeps(s, o); FetchLevels(s, o);
    case Add(o, c, overwrite) => AddKeeps(s, o, c, overwrite); AddRefines(s, o, c, overwrite);
    case Remove(o) => SpendKeeps(s, o); SpendRefines(s, o);
    case Evict(o) => UncacheKeeps(s, o); ShownSame(s, Step(s, op));
    case WriteBack => FlushKeeps(s); FlushRefines(s);
    case Push => ShownSame(s, Step(s, op));
    case Pop =>
  }

  ghost predicate IsRun(ss: seq<Stack>, ops: seq<Op>) {
    |ss| == |ops| + 1 && forall i | 0 <= i < |ops| :: StepAt(ss, ops, i)
  }

  ghost predicate StepAt(ss: seq<Stack>, ops: seq<Op>, i: nat)
    requires i < |ops| < |ss|
  {
    Allowed(ss[i], ops[i]) && ss[i + 1] == Step(ss[i], ops[i])
  }

  /** The views after the first i operations, on plain maps alone. */
  ghost predicate PlainRun(vs: seq<seq<map<OutPoint, Coin>>>, ops: seq<Op>) {
    |vs| == |ops| + 1 && forall i | 0 <= i < |ops| :: PlainAt(vs, ops, i)
  }

  ghost predicate PlainAt(vs: seq<seq<map<OutPoint, Coin>>>, ops: seq<Op>, i: nat)
    requires i < |ops| < |vs|
  {
    && |vs[i]| > 0 && (ops[i].WriteBack? || ops[i].Pop? ==> |vs[i]| > 1)
    && vs[i + 1] == Plain(vs[i], ops[i])
  }

  lemma {:induction false} RunInv(ss: seq<Stack>, ops: seq<Op>, i: nat)
    requires IsRun(ss, ops) && Inv(ss[0]) && i <= |ops|
    ensures Inv(ss[i])
  {
    if i > 0 {
      RunInv(ss, ops, i - 1);
      assert StepAt(ss, ops, i - 1);
      StepRefines(ss[i - 1], ops[i - 1]);
    }
  }

  /** Every run that keeps AddCoin's promise refines a run of plain maps. */
  lemma RunRefines(ss: seq<Stack>, ops: seq<Op>)
    requires IsRun(ss, ops) && Inv(ss[0])
    ensures forall i | 0 <= i < |ss| :: Inv(ss[i])
    ensures PlainRun(seq(|ss|, i requires 0 <= i < |ss| => Levels(ss[i])), ops)
  {
    var vs := seq(|ss|, i requires 0 <= i < |ss| => Levels(ss[i]));
    forall i | 0 <= i < |ss| ensures Inv(ss[i]) { RunInv(ss, ops, i); }
    forall i | 0 <= i < |ops| ensures PlainAt(vs, ops, i) {
      assert StepAt(ss, ops, i);
      StepRefines(ss[i], ops[i]);
    }
  }
}
