/** Coin views as linked objects (src/coins.cpp, src/txdb.cpp): a database, or a cache over
    another view. Each method is proved against the operation of the same name on stacks. */
module Coins {
  import opened Common
  import opened CoinStack

  // ----- One step of the write-back loops -----

  /** Two maps agree at a key. */
  predicate Agree(a: Entries, b: Entries, p: OutPoint) {
    (p in a <==> p in b) && (p in a ==> a[p] == b[p])
  }

  lemma MergedAt(es: Entries, child: Entries, p: OutPoint)
    ensures Agree(MergeAll(es, child), MergeAt(es, child, p), p)
  {
  }

  /** Merging one entry depends on, and changes, nothing but its outpoint. */
  lemma MergeLocal(a: Entries, b: Entries, o: OutPoint, e: Entry, p: OutPoint)
    requires Agree(a, b, p)
    ensures Agree(Merge(a, o, e), if p == o then Merge(b, o, e) else b, p)
  {
  }

  lemma MergeStep(es: Entries, child: Entries, rest: set<OutPoint>, o: OutPoint)
    requires o in rest && o in child
    ensures MergeAll(es, child - (rest - {o})) == Merge(MergeAll(es, child - rest), o, child[o])
  {
    var a, b := child - rest, child - (rest - {o});
    forall p: OutPoint ensures Agree(MergeAll(es, b), Merge(MergeAll(es, a), o, child[o]), p) {
      MergedAt(es, a, p);
      MergedAt(es, b, p);
      MergeLocal(MergeAll(es, a), MergeAt(es, a, p), o, child[o], p);
    }
    AgreeEverywhere(MergeAll(es, b), Merge(MergeAll(es, a), o, child[o]));
  }

  lemma AgreeEverywhere(a: Entries, b: Entries)
    requires forall p: OutPoint :: Agree(a, b, p)
    ensures a == b
  {
    forall p: OutPoint ensures p in a <==> p in b { assert Agree(a, b, p); }
    forall p: OutPoint | p in a ensures a[p] == b[p] { assert Agree(a, b, p); }
  }

  lemma CommitStep(store: map<OutPoint, Coin>, child: Entries, rest: set<OutPoint>, o: OutPoint)
    requires o in rest && o in child
    ensures CommitAll(store, child - (rest - {o})) == Commit(CommitAll(store, child - rest), o, child[o])
  {
    var before, after := CommitAll(store, child - rest), CommitAll(store, child - (rest - {o}));
    forall p: OutPoint ensures p in before <==> p in CommitAt(store, child - rest, p) { }
    forall p: OutPoint ensures p in after <==> p in CommitAt(store, child - (rest - {o}), p) { }
    forall p: OutPoint | p != o ensures CommitAt(store, child - (rest - {o}), p) == CommitAt(store, child - rest, p) { }
    assert CommitAt(store, child - rest, o) == store && CommitAt(store, child - (rest - {o}), o) == Commit(store, o, child[o]);
  }

  lemma Ends(es: Entries, store: map<OutPoint, Coin>, child: Entries)
    ensures MergeAll(es, child - child.Keys) == es && CommitAll(store, child - child.Keys) == store
    ensures child - {} == child
  {
  }

  /** An entry still to come meets an entry that the loop has not touched. */
  lemma StillThere(es: Entries, child: Entries, rest: set<OutPoint>, o: OutPoint)
    requires o in rest && o in child
    ensures Misapplied(MergeAll(es, child - rest), o, child[o]) <==> Misapplied(es, o, child[o])
  {
  }

  /** Some entry of the child would make BatchWrite throw. */
  predicate AnyMisapplied(es: Entries, child: Entries) {
    exists o | o in child :: Misapplied(es, o, child[o])
  }

  /** Honest flags never do. */
  lemma HonestNever(s: Stack)
    requires s.Cache? && s.below.Cache? && Inv(s)
    ensures !AnyMisapplied(s.below.entries, s.entries)
  {
    forall o | o in s.entries ensures !Misapplied(s.below.entries, o, s.entries[o]) { NeverMisapplied(s, o); }
  }

  class CoinsView {
    var base: CoinsView?
    var store: map<OutPoint, Coin>
    var cacheCoins: Entries
    ghost var Repr: set<object>

    ghost predicate Valid()
      reads this, Repr
      decreases Repr
    {
      && this in Repr
      && (base != null ==> base in Repr && base.Repr <= Repr && this !in base.Repr && base.Valid())
    }

    ghost function State(): Stack
      requires Valid()
      reads this, Repr
      decreases Repr
    {
      if base == null then Base(store) else Cache(cacheCoins, base.State())
    }

    constructor Database(store: map<OutPoint, Coin>)
      ensures Valid() && fresh(Repr) && State() == Base(store)
    {
      base, this.store, cacheCoins, Repr := null, store, map[], {this};
    }

    constructor Over(base: CoinsView)
      requires base.Valid()
      ensures Valid() && fresh(Repr - base.Repr) && this.base == base && State() == Cache(map[], base.State())
    {
      this.base, store, cacheCoins, Repr := base, map[], map[], {this} + base.Repr;
    }

    /** Finds o's entry, loading it from below if need be. */
    method FetchCoin(o: OutPoint) returns (found: bool)
      requires Valid() && base != null
      modifies Repr
      ensures Valid() && Repr == old(Repr) && base == old(base)
      ensures State() == Fetch(old(State()), o) && (found <==> o in cacheCoins)
      decreases Repr, 0
    {
      if o in cacheCoins { return true; }
      var has, tmp := base.GetCoin(o);
      if !has { return false; }
      cacheCoins := cacheCoins[o := Entry(tmp, false, false)];
      if IsSpent(tmp) {
        cacheCoins := cacheCoins[o := Entry(tmp, false, true)];
      }
      found := true;
    }

    /** True exactly when the view shows an unspent coin at o, which is returned. */
    method GetCoin(o: OutPoint) returns (found: bool, coin: Coin)
      requires Valid()
      modifies Repr
      ensures Valid() && Repr == old(Repr) && base == old(base)
      ensures State() == Fetch(old(State()), o)
      ensures Answer(old(State()), o) == if found then Some(coin) else None
      ensures Inv(old(State())) ==> Look(old(State()), o) == if found then Some(coin) else None
      decreases Repr, 1
    {
      coin := COIN_EMPTY;
      ghost var s := State();
      if Inv(s) { AnswerIsLook(s, o); }
      if base == null {
        found := o in store;
        if found { coin := store[o]; }
      } else {
        FetchAnswers(s, o);
        var has := FetchCoin(o);
        if has { coin := cacheCoins[o].coin; }
        found := has && !IsSpent(coin);
      }
    }

    method HaveCoin(o: OutPoint) returns (found: bool)
      requires Valid()
      modifies Repr
      ensures Valid() && Repr == old(Repr) && base == old(base)
      ensures State() == Fetch(old(State()), o)
      ensures found <==> Answer(old(State()), o).Some?
    {
      if base == null {
        found := o in store;
      } else {
        FetchAnswers(State(), o);
        var has := FetchCoin(o);
        found := has && !IsSpent(cacheCoins[o].coin);
      }
    }

    /** The coin at o, or a pruned one. */
    method AccessCoin(o: OutPoint) returns (coin: Coin)
      requires Valid() && base != null && Inv(State())
      modifies Repr
      ensures Valid() && Repr == old(Repr) && base == old(base)
      ensures State() == Fetch(old(State()), o)
      ensures Unspent(coin) == Look(old(State()), o)
    {
      FetchKeeps(State(), o);
      var has := FetchCoin(o);
      if has { coin := cacheCoins[o].coin; } else { coin := COIN_EMPTY; }
    }

    /** Only looks in this cache; what it finds the view shows. */
    method HaveCoinInCache(o: OutPoint) returns (found: bool)
      requires Valid() && base != null
      ensures found ==> Look(State(), o).Some?
      ensures !found ==> o !in cacheCoins || Look(State(), o) == None
    {
      found := o in cacheCoins && !IsSpent(cacheCoins[o].coin);
    }

    /** Adds a coin; thrown says that it would have replaced an unspent one against its word. */
    method AddCoin(o: OutPoint, coin: Coin, possibleOverwrite: bool) returns (thrown: bool)
      requires Valid() && base != null && !IsSpent(coin)
      modifies this
      ensures Valid() && Repr == old(Repr) && base == old(base) && base.State() == old(base.State())
      ensures cacheCoins == CoinStack.AddCoin(old(cacheCoins), o, coin, possibleOverwrite)
      ensures thrown <==> AddThrows(old(cacheCoins), o, coin, possibleOverwrite)
    {
      thrown := false;
      if IsUnspendable(coin.script) { return; }
      var it := if o in cacheCoins then cacheCoins[o] else Entry(COIN_EMPTY, false, false);
      var isNew := false;
      if !possibleOverwrite {
        if !IsSpent(it.coin) { return true; }
        isNew := !it.isDirty;
      }
      cacheCoins := cacheCoins[o := Entry(coin, true, it.isFresh || isNew)];
    }

    /** Spends the coin at o and returns it; true as soon as there was an entry, spent or not. */
    method SpendCoin(o: OutPoint) returns (done: bool, moveout: Coin)
      requires Valid() && base != null && Inv(State())
      modifies Repr
      ensures Valid() && Repr == old(Repr) && base == old(base)
      ensures State() == CoinStack.SpendCoin(old(State()), o)
      ensures Unspent(moveout) == Look(old(State()), o)
      ensures done <==> o in old(cacheCoins) || Look(old(State()), o).Some?
    {
      moveout := COIN_EMPTY;
      FetchKeeps(State(), o);
      done := FetchCoin(o);
      if !done { return; }
      var it := cacheCoins[o];
      moveout := it.coin;
      if it.isFresh {
        cacheCoins := cacheCoins - {o};
      } else {
        cacheCoins := cacheCoins[o := Entry(COIN_EMPTY, true, it.isFresh)];
      }
    }

    method Uncache(o: OutPoint)
      requires Valid() && base != null
      modifies this
      ensures Valid() && Repr == old(Repr) && base == old(base) && base.State() == old(base.State())
      ensures cacheCoins == CoinStack.Uncache(old(cacheCoins), o)
    {
      if o in cacheCoins && !cacheCoins[o].isDirty && !cacheCoins[o].isFresh {
        cacheCoins := cacheCoins - {o};
      }
    }

    /** Merges one entry of the child into this cache, or throws. */
    method MergeEntry(o: OutPoint, e: Entry) returns (thrown: bool)
      modifies this`cacheCoins
      ensures thrown <==> Misapplied(old(cacheCoins), o, e)
      ensures cacheCoins == if thrown then old(cacheCoins) else Merge(old(cacheCoins), o, e)
    {
      thrown := false;
      if e.isDirty {
        if o !in cacheCoins {
          if !(e.isFresh && IsSpent(e.coin)) {
            cacheCoins := cacheCoins[o := Entry(e.coin, true, e.isFresh)];
          }
        } else if e.isFresh && !IsSpent(cacheCoins[o].coin) {
          thrown := true;
        } else if cacheCoins[o].isFresh && IsSpent(e.coin) {
          cacheCoins := cacheCoins - {o};
        } else {
          cacheCoins := cacheCoins[o := Entry(e.coin, true, cacheCoins[o].isFresh)];
        }
      }
    }

    /** Takes over the changes of a child cache, whatever order its entries come in; thrown says
        that a fresh flag was found over an unspent coin. The entries met before it, which are
        good ones, have been merged by then; rest has the others. */
    method BatchWrite(mapCoins: Entries) returns (thrown: bool, ghost rest: set<OutPoint>)
      requires Valid()
      modifies this
      ensures Valid() && Repr == old(Repr) && base == old(base)
      ensures thrown <==> base != null && AnyMisapplied(old(cacheCoins), mapCoins)
      ensures !thrown ==> State() == CoinStack.BatchWrite(old(State()), mapCoins)
      ensures rest <= mapCoins.Keys && (thrown <==> rest != {})
      ensures thrown ==> State() == CoinStack.BatchWrite(old(State()), mapCoins - rest) && !AnyMisapplied(old(cacheCoins), mapCoins - rest)
    {
      var todo := mapCoins.Keys;
      ghost var es, db := cacheCoins, store;
      Ends(es, db, mapCoins);
      while todo != {}
        invariant todo <= mapCoins.Keys
        invariant Repr == old(Repr) && base == old(base)
        invariant base != null ==> store == db && cacheCoins == MergeAll(es, mapCoins - todo)
        invariant base != null ==> forall o | o in mapCoins && o !in todo :: !Misapplied(es, o, mapCoins[o])
        invariant base == null ==> cacheCoins == es && store == CommitAll(db, mapCoins - todo)
      {
        var o :| o in todo;
        if base == null {
          CommitStep(db, mapCoins, todo, o);
          if mapCoins[o].isDirty {
            store := if IsSpent(mapCoins[o].coin) then store - {o} else store[o := mapCoins[o].coin];
          }
        } else {
          MergeStep(es, mapCoins, todo, o);
          StillThere(es, mapCoins, todo, o);
          var bad := MergeEntry(o, mapCoins[o]);
          if bad { return true, todo; }
        }
        todo := todo - {o};
      }
      thrown, rest := false, {};
    }

    /** Pushes every change to the view below and empties this cache; it never throws. */
    method Flush()
      requires Valid() && base != null && Inv(State())
      modifies Repr
      ensures Valid() && Repr == old(Repr) && base == old(base)
      ensures State() == CoinStack.Flush(old(State()))
    {
      if base.base != null {
        assert base.State() == Cache(base.cacheCoins, base.base.State());
        HonestNever(State());
      }
      ghost var rest;
      var thrown;
      thrown, rest := base.BatchWrite(cacheCoins);
      assert !thrown;
      cacheCoins := map[];
    }

    /** Whether every input of a transaction is there, for inputs given by their outpoints; those
        of a coinbase transaction are not looked at. */
    method HaveInputs(prevouts: seq<OutPoint>, isCoinBase: bool) returns (all: bool)
      requires Valid() && base != null && Inv(State())
      modifies Repr
      ensures Valid() && Repr == old(Repr) && base == old(base)
      ensures Inv(State()) && SameView(State(), old(State())) && (isCoinBase ==> State() == old(State()))
      ensures all <==> isCoinBase || forall i | 0 <= i < |prevouts| :: Look(old(State()), prevouts[i]).Some?
    {
      ghost var s := State();
      if isCoinBase { return true; }
      var i := 0;
      while i < |prevouts|
        invariant 0 <= i <= |prevouts| && Valid() && Repr == old(Repr) && base == old(base)
        invariant Inv(State()) && SameView(State(), s)
        invariant forall j | 0 <= j < i :: Look(s, prevouts[j]).Some?
      {
        ghost var t := State();
        FetchKeeps(t, prevouts[i]);
        AnswerIsLook(t, prevouts[i]);
        var has := HaveCoin(prevouts[i]);
        assert Look(t, prevouts[i]) == Look(s, prevouts[i]);
        ViewTrans(State(), t, s);
        if !has { return false; }
        i := i + 1;
      }
      all := true;
    }
  }

  lemma ViewTrans(a: Stack, b: Stack, c: Stack)
    requires SameView(b, a) && SameView(b, c)
    ensures SameView(a, c)
  {
    forall o: OutPoint ensures Look(a, o) == Look(c, o) {
      assert Look(b, o) == Look(a, o);
      assert Look(b, o) == Look(c, o);
    }
  }
}
