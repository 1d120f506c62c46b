/** The active chain indexed by height (src/chain.h, src/chain.cpp). */
module ActiveChain {
  import opened Common
  import opened Bits
  import opened BlockTree

  /** Entry h is the ancestor at height h of the last entry. */
  ghost predicate IsChain(v: seq<BlockIndex?>) {
    v == [] || (v[|v| - 1] != null && IsChainOf(v, v[|v| - 1]))
  }

  ghost predicate IsChainOf(v: seq<BlockIndex?>, tip: BlockIndex) {
    Linked(tip) && |v| == tip.nHeight + 1 && forall h | 0 <= h < |v| :: v[h] == Ancestor(tip, h)
  }

  /** A prefix of a chain is a chain. */
  lemma PrefixIsChain(v: seq<BlockIndex?>, n: nat)
    requires IsChain(v) && 0 < n <= |v|
    ensures v[n - 1] != null && IsChainOf(v[..n], v[n - 1])
  {
    var tip := v[|v| - 1];
    forall h | 0 <= h < n ensures v[h] == Ancestor(v[n - 1], h) {
      AncestorTwice(tip, n - 1, h);
    }
  }

  /** A block in the chain has its ancestors in the chain, at their heights. */
  lemma HeldBelow(v: seq<BlockIndex?>, b: BlockIndex, h: int)
    requires IsChain(v) && Linked(b) && b.nHeight < |v| && v[b.nHeight] == b && 0 <= h <= b.nHeight
    ensures v[h] == Ancestor(b, h)
  {
    AncestorTwice(v[|v| - 1], b.nHeight, h);
  }

  /** How the source compares chains, by length and last entry; None is a read past the end of
      a vector. */
  function Compared(v: seq<BlockIndex?>, w: seq<BlockIndex?>): Option<bool> {
    if |v| != |w| then Some(false) else if v == [] then None else Some(v[|v| - 1] == w[|w| - 1])
  }

  /** The comparison tells whether two chains are equal, except that it reads past the end
      exactly if both are empty. */
  lemma SameTipSameChain(v: seq<BlockIndex?>, w: seq<BlockIndex?>)
    requires IsChain(v) && IsChain(w)
    ensures Compared(v, w) == if v == [] && w == [] then None else Some(v == w)
  {
  }

  /** No ancestor of b above a height is in the chain. */
  ghost predicate NoneAbove(v: seq<BlockIndex?>, b: BlockIndex, height: int)
    requires Linked(b)
  {
    forall h | 0 <= h <= b.nHeight && height < h < |v| :: v[h] != Ancestor(b, h)
  }

  // ----- Locators -----

  /** How far below the start the entry after n others lies, unless genesis comes first. */
  function Offset(n: nat): nat {
    if n <= 11 then n else 9 + Pow2(n - 10)
  }

  /** The step in use once n entries have been listed. */
  function StepAfter(n: nat): nat {
    if n <= 10 then 1 else Pow2(n - 10)
  }

  lemma OffsetNext(n: nat)
    ensures Offset(n + 1) == Offset(n) + StepAfter(n)
    ensures StepAfter(n + 1) == if n + 1 > 10 then 2 * StepAfter(n) else StepAfter(n)
  {
    assert Pow2(1) == 2;
    if n > 10 { assert Pow2(n - 9) == 2 * Pow2(n - 10); }
  }

  /** Entry n of the locator of a block. */
  ghost predicate LocatorEntry(start: BlockIndex, b: BlockIndex, n: nat)
    requires Linked(start)
  {
    b == Ancestor(start, Max(start.nHeight - Offset(n), 0))
  }

  /** What a locator lists: ancestors at strictly decreasing heights, from the start down to
      genesis, ten by single steps and then by doubling ones. */
  ghost predicate IsLocator(start: BlockIndex, have: seq<BlockIndex>)
    requires Linked(start)
  {
    && have != [] && have[0] == start && have[|have| - 1] == Ancestor(start, 0)
    && (forall n | 0 <= n < |have| :: LocatorEntry(start, have[n], n))
    && (forall m, n | 0 <= m < n < |have| :: have[m].nHeight > have[n].nHeight)
    && (|have| > 12 ==> Pow2(|have| - 12) < start.nHeight)
  }

  class Chain {
    var vChain: seq<BlockIndex?>

    ghost predicate Valid()
      reads this
    {
      IsChain(vChain)
    }

    constructor ()
      ensures Valid() && vChain == []
    {
      vChain := [];
    }

    function At(nHeight: int): BlockIndex?
      reads this
    {
      if nHeight < 0 || nHeight >= |vChain| then null else vChain[nHeight]
    }

    function Tip(): BlockIndex?
      reads this
    {
      if |vChain| > 0 then vChain[|vChain| - 1] else null
    }

    function Height(): int
      reads this
    {
      |vChain| - 1
    }

    predicate Contains(b: BlockIndex)
      reads this
    {
      At(b.nHeight) == b
    }

    function Next(b: BlockIndex): BlockIndex?
      reads this
    {
      if Contains(b) then At(b.nHeight + 1) else null
    }

    /** The successor of a block in the chain is the entry whose parent it is; the tip and
        blocks outside have none. */
    lemma NextIsChild(b: BlockIndex)
      requires Valid() && Linked(b)
      ensures Next(b) != null <==> Contains(b) && b != Tip()
      ensures Next(b) != null ==> Next(b).pprev == b && Contains(Next(b))
    {
      if Contains(b) && Next(b) != null {
        var n := Next(b);
        AncestorTwice(Tip(), n.nHeight, b.nHeight);
        assert Ancestor(n, b.nHeight) == Ancestor(n.pprev, b.nHeight);
      }
    }

    /** Makes b the tip: entry h becomes b's ancestor at h, though the walk stops as soon as it
        meets an entry that is already right. */
    method SetTip(b: BlockIndex?)
      requires Valid() && (b != null ==> Linked(b))
      modifies this
      ensures Valid() && Tip() == b && (b == null ==> vChain == []) && (b != null ==> IsChainOf(vChain, b))
    {
      if b == null {
        vChain := [];
        return;
      }
      ghost var was := vChain;
      var n := b.nHeight + 1;
      vChain := if n <= |vChain| then vChain[..n] else vChain + seq(n - |vChain|, _ => null);
      var p: BlockIndex? := b;
      while p != null && vChain[p.nHeight] != p
        invariant |vChain| == n
        invariant p != null ==> Linked(p) && p.nHeight <= b.nHeight && p == Ancestor(b, p.nHeight)
        invariant forall h | 0 <= h < n && (p != null ==> h > p.nHeight) :: vChain[h] == Ancestor(b, h)
        invariant p != null ==> forall h | 0 <= h <= p.nHeight :: vChain[h] == if h < |was| then was[h] else null
        decreases if p == null then -1 else p.nHeight
      {
        vChain := vChain[p.nHeight := p];
        StepDown(b, p);
        p := p.pprev;
      }
      if p != null {
        forall h | 0 <= h <= p.nHeight ensures vChain[h] == Ancestor(b, h) {
          HeldBelow(was, p, h);
          AncestorTwice(b, p.nHeight, h);
        }
      }
    }

    /** The last block that the chain has in common with b and its ancestors. */
    method FindFork(b: BlockIndex?, ghost tree: set<BlockIndex>) returns (r: BlockIndex?)
      requires Valid() && Tree(tree) && (b != null ==> b in tree)
      ensures b == null ==> r == null
      ensures r != null ==> b != null && Linked(b) && r.nHeight <= b.nHeight && r == Ancestor(b, r.nHeight) && Contains(r)
      ensures b != null ==> Linked(b) && NoneAbove(vChain, b, if r == null then -1 else r.nHeight)
    {
      if b == null { return null; }
      assert InTree(b, tree);
      r := b;
      if b.nHeight > Height() {
        ghost var steps;
        r, steps := b.GetAncestor(Height(), tree);
      }
      while r != null && !Contains(r)
        invariant r != null ==> Linked(r) && r.nHeight <= b.nHeight && r == Ancestor(b, r.nHeight)
        invariant NoneAbove(vChain, b, if r == null then -1 else r.nHeight)
        decreases if r == null then -1 else r.nHeight
      {
        StepDown(b, r);
        r := r.pprev;
      }
    }

    /** Whichever way it is looked up, the ancestor at a lower height. */
    method Lower(p: BlockIndex, height: nat, ghost tree: set<BlockIndex>) returns (r: BlockIndex)
      requires Valid() && Tree(tree) && p in tree && height <= p.nHeight
      ensures Linked(p) && r == Ancestor(p, height)
    {
      assert InTree(p, tree);
      if Contains(p) {
        HeldBelow(vChain, p, height);
        r := At(height);
      } else {
        ghost var steps;
        r, steps := p.GetAncestor(height, tree);
      }
    }

    /** Lists the blocks of a locator, from b or, without b, from the tip. */
    method GetLocator(b: BlockIndex?, ghost tree: set<BlockIndex>) returns (have: seq<BlockIndex>)
      requires Valid() && Tree(tree) && (b != null ==> b in tree) && (Tip() != null ==> Tip() in tree)
      ensures var start := if b == null then Tip() else b;
        if start == null then have == [] else Linked(start) && IsLocator(start, have)
    {
      have := [];
      var start := if b == null then Tip() else b;
      if start == null { return; }
      assert InTree(start, tree);
      var p: BlockIndex, nStep := start, 1;
      while true
        invariant p in tree && LocatorEntry(start, p, |have|)
        invariant nStep == StepAfter(|have|)
        invariant forall n | 0 <= n < |have| :: LocatorEntry(start, have[n], n) && have[n].nHeight > 0
        decreases p.nHeight
      {
        have := have + [p];
        if p.nHeight == 0 { break; }
        var nHeight := Max(p.nHeight - nStep, 0);
        NextEntry(start, p, |have| - 1, nHeight);
        AncestorIn(p, nHeight, tree);
        p := Lower(p, nHeight, tree);
        if |have| > 10 { nStep := nStep * 2; }
      }
      LocatorShape(start, have);
    }
  }

  /** One step down from an ancestor. */
  lemma StepDown(b: BlockIndex, p: BlockIndex)
    requires Linked(b) && Linked(p) && p.nHeight <= b.nHeight && p == Ancestor(b, p.nHeight)
    ensures p.pprev != null ==> Linked(p.pprev) && p.pprev.nHeight == p.nHeight - 1 && p.pprev == Ancestor(b, p.nHeight - 1)
    ensures p.pprev == null ==> p.nHeight == 0
  {
    if p.pprev != null { AncestorTwice(b, p.nHeight, p.nHeight - 1); }
  }

  lemma {:induction false} OffsetGrows(m: nat, n: nat)
    requires m < n
    ensures Offset(m) < Offset(n)
  {
    OffsetNext(n - 1);
    if m < n - 1 { OffsetGrows(m, n - 1); }
  }

  lemma NextEntry(start: BlockIndex, p: BlockIndex, n: nat, height: nat)
    requires Linked(start) && LocatorEntry(start, p, n) && p.nHeight > 0 && height == Max(p.nHeight - StepAfter(n), 0)
    ensures height < p.nHeight && LocatorEntry(start, Ancestor(p, height), n + 1)
    ensures StepAfter(n + 1) == if n + 1 > 10 then 2 * StepAfter(n) else StepAfter(n)
  {
    OffsetNext(n);
    AncestorTwice(start, p.nHeight, height);
  }

  lemma LocatorShape(start: BlockIndex, have: seq<BlockIndex>)
    requires Linked(start) && have != [] && have[|have| - 1].nHeight == 0
    requires forall n | 0 <= n < |have| :: LocatorEntry(start, have[n], n)
    requires forall n | 0 <= n < |have| - 1 :: have[n].nHeight > 0
    ensures IsLocator(start, have)
  {
    var last := |have| - 1;
    assert LocatorEntry(start, have[0], 0) && LocatorEntry(start, have[last], last);
    forall m, n | 0 <= m < n < |have| ensures have[m].nHeight > have[n].nHeight {
      OffsetGrows(m, n);
      assert LocatorEntry(start, have[m], m) && LocatorEntry(start, have[n], n);
    }
    if |have| > 12 { assert LocatorEntry(start, have[last - 1], last - 1); }
  }
}
