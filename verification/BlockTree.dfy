/** Block index entries linked into a tree, with their skip pointers (src/chain.h, src/chain.cpp). */
module BlockTree {
  import opened SkipHeights

  class BlockIndex {
    const pprev: BlockIndex?
    const nHeight: nat
    var pskip: BlockIndex?

    constructor (prev: BlockIndex?)
      ensures pprev == prev && pskip == null
      ensures nHeight == if prev == null then 0 else prev.nHeight + 1
    {
      pprev := prev;
      nHeight := if prev == null then 0 else prev.nHeight + 1;
      pskip := null;
    }

    /** The ancestor at a height, or null; follows skip pointers where they help. With all of
        them in place it takes a number of steps that is quadratic in the length of the height. */
    method GetAncestor(height: int, ghost tree: set<BlockIndex>) returns (r: BlockIndex?, ghost steps: nat)
      requires this in tree && Tree(tree)
      ensures Linked(this)
      ensures (r == null) == (height > nHeight || height < 0)
      ensures r != null ==> r == Ancestor(this, height)
      ensures r != null && Skipping(tree) ==> steps == Steps(nHeight, height)
    {
      assert InTree(this, tree);
      steps := 0;
      if height > nHeight || height < 0 { return null, steps; }
      var walk: BlockIndex := this;
      var heightWalk: int := nHeight;
      while heightWalk > height
        invariant walk in tree && Linked(walk) && height <= heightWalk == walk.nHeight <= nHeight
        invariant Ancestor(walk, height) == Ancestor(this, height)
        invariant Skipping(tree) ==> steps + Steps(heightWalk, height) == Steps(nHeight, height)
        decreases heightWalk
      {
        steps := steps + 1;
        var heightSkip := GetSkipHeight(heightWalk);
        var heightSkipPrev := GetSkipHeight(heightWalk - 1);
        SkipsBack(heightWalk);
        assert InTree(walk, tree);
        assert Skipping(tree) ==> HasSkip(walk);
        if walk.pskip != null &&
           (heightSkip == height ||
            (heightSkip > height && !(heightSkipPrev < heightSkip - 2 && heightSkipPrev >= height))) {
          AncestorIn(walk, heightSkip, tree);
          AncestorTwice(walk, heightSkip, height);
          walk := walk.pskip;
          heightWalk := heightSkip;
        } else {
          assert walk.pprev != null;
          walk := walk.pprev;
          heightWalk := heightWalk - 1;
        }
      }
      r := walk;
    }

    /** Sets the skip pointer of an entry whose ancestors are in place. */
    method BuildSkip(ghost tree: set<BlockIndex>)
      requires this in tree && Tree(tree)
      modifies this
      ensures Tree(tree) && Linked(this)
      ensures pprev != null ==> GetSkipHeight(nHeight) < nHeight && pskip == Ancestor(this, GetSkipHeight(nHeight))
    {
      assert InTree(this, tree);
      if pprev != null {
        SkipsBack(nHeight);
        ghost var steps;
        pskip, steps := pprev.GetAncestor(GetSkipHeight(nHeight), tree);
      }
      forall b | b in tree ensures InTree(b, tree) { assert old(InTree(b, tree)); }
    }
  }

  /** Heights count the steps back to a block without parent. */
  ghost predicate Linked(b: BlockIndex)
    decreases b.nHeight
  {
    if b.pprev == null then b.nHeight == 0
    else b.pprev.nHeight < b.nHeight == b.pprev.nHeight + 1 && Linked(b.pprev)
  }

  /** The naive walk over parents. */
  ghost function Ancestor(b: BlockIndex, height: int): (r: BlockIndex)
    requires Linked(b) && 0 <= height <= b.nHeight
    ensures Linked(r) && r.nHeight == height
    decreases b.nHeight
  {
    if height == b.nHeight then b else Ancestor(b.pprev, height)
  }

  ghost predicate SkipOk(b: BlockIndex)
    requires Linked(b)
    reads b
  {
    b.pskip != null ==>
      b.nHeight > 0 && GetSkipHeight(b.nHeight) < b.nHeight && b.pskip == Ancestor(b, GetSkipHeight(b.nHeight))
  }

  /** Entries closed under parents, with skip pointers unset or set by BuildSkip. */
  ghost predicate Tree(tree: set<BlockIndex>)
    reads tree
  {
    forall b {:trigger InTree(b, tree)} | b in tree :: InTree(b, tree)
  }

  ghost predicate HasSkip(b: BlockIndex)
    reads b
  {
    b.pprev != null ==> b.pskip != null
  }

  /** Every skip pointer has been set. */
  ghost predicate Skipping(tree: set<BlockIndex>)
    reads tree
  {
    forall b {:trigger HasSkip(b)} | b in tree :: HasSkip(b)
  }

  ghost predicate InTree(b: BlockIndex, tree: set<BlockIndex>)
    reads b
  {
    Linked(b) && SkipOk(b) && (b.pprev != null ==> b.pprev in tree)
  }

  lemma {:induction false} AncestorIn(b: BlockIndex, height: int, tree: set<BlockIndex>)
    requires b in tree && Tree(tree) && 0 <= height <= b.nHeight
    ensures Linked(b) && Ancestor(b, height) in tree
    decreases b.nHeight
  {
    assert InTree(b, tree);
    if height < b.nHeight { AncestorIn(b.pprev, height, tree); }
  }

  lemma {:induction false} AncestorTwice(b: BlockIndex, mid: int, height: int)
    requires Linked(b) && 0 <= height <= mid <= b.nHeight
    ensures Ancestor(Ancestor(b, mid), height) == Ancestor(b, height)
    decreases b.nHeight
  {
    if mid < b.nHeight { AncestorTwice(b.pprev, mid, height); }
  }

  /** Adding a new entry on top of a tree, as yet without skip pointer, gives a tree. */
  lemma TreeGrows(tree: set<BlockIndex>, b: BlockIndex)
    requires Tree(tree) && b.pskip == null && (b.pprev == null || b.pprev in tree)
    requires b.nHeight == if b.pprev == null then 0 else b.pprev.nHeight + 1
    ensures Tree(tree + {b})
  {
    assert b.pprev != null ==> InTree(b.pprev, tree);
    forall c | c in tree + {b} ensures InTree(c, tree + {b}) {
      if c in tree { assert InTree(c, tree); }
    }
  }
}
