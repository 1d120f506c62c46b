/** A bounded multimap that forgets its oldest entry (src/cachemultimap.h): a list of items,
    newest first, and an index from key to value to list node. */
module CacheMultiMaps {
  import C = CacheMaps

  // ----- What it stands for: pairs by age, each pair once -----

  ghost predicate PairsOnce<K, V>(c: seq<(K, V)>) {
    forall i, j | 0 <= i < j < |c| :: c[i] != c[j]
  }

  /** A full map is pruned first, whether or not the pair is then added. */
  function Pruned<K, V>(c: seq<(K, V)>, max: nat): seq<(K, V)> {
    if |c| == max && |c| > 0 then c[..|c| - 1] else c
  }

  function Put<K(==), V(==)>(c: seq<(K, V)>, max: nat, k: K, v: V): seq<(K, V)> {
    if (k, v) in Pruned(c, max) then Pruned(c, max) else [(k, v)] + Pruned(c, max)
  }

  function DropKey<K(==), V>(c: seq<(K, V)>, k: K): seq<(K, V)> {
    if c == [] then []
    else DropKey(c[..|c| - 1], k) + if c[|c| - 1].0 == k then [] else [c[|c| - 1]]
  }

  function DropPair<K(==), V(==)>(c: seq<(K, V)>, k: K, v: V): seq<(K, V)> {
    if c == [] then []
    else DropPair(c[..|c| - 1], k, v) + if c[|c| - 1] == (k, v) then [] else [c[|c| - 1]]
  }

  lemma {:induction false} DropKeyMember<K, V>(c: seq<(K, V)>, k: K, p: (K, V))
    ensures p in DropKey(c, k) <==> p in c && p.0 != k
    ensures |DropKey(c, k)| <= |c|
  {
    if c != [] {
      DropKeyMember(c[..|c| - 1], k, p);
      assert c == c[..|c| - 1] + [c[|c| - 1]];
    }
  }

  lemma {:induction false} DropPairMember<K, V>(c: seq<(K, V)>, k: K, v: V, p: (K, V))
    ensures p in DropPair(c, k, v) <==> p in c && p != (k, v)
    ensures |DropPair(c, k, v)| <= |c|
  {
    if c != [] {
      DropPairMember(c[..|c| - 1], k, v, p);
      assert c == c[..|c| - 1] + [c[|c| - 1]];
    }
  }

  lemma {:induction false} DropKeyOnce<K, V>(c: seq<(K, V)>, k: K)
    requires PairsOnce(c)
    ensures PairsOnce(DropKey(c, k))
  {
    if c != [] {
      var a, last := c[..|c| - 1], c[|c| - 1];
      DropKeyOnce(a, k);
      DropKeyMember(a, k, last);
      assert last !in a;
    }
  }

  lemma {:induction false} DropPairOnce<K, V>(c: seq<(K, V)>, k: K, v: V)
    requires PairsOnce(c)
    ensures PairsOnce(DropPair(c, k, v))
  {
    if c != [] {
      var a, last := c[..|c| - 1], c[|c| - 1];
      DropPairOnce(a, k, v);
      DropPairMember(a, k, v, last);
      assert last !in a;
    }
  }

  /** Afterwards the pair is there, and every other pair but an evicted oldest one. */
  lemma PutMember<K, V>(c: seq<(K, V)>, max: nat, k: K, v: V, p: (K, V))
    requires PairsOnce(c)
    ensures PairsOnce(Put(c, max, k, v)) && (k, v) in Put(c, max, k, v)
    ensures p == (k, v) || (p in Put(c, max, k, v) <==> p in c && !(|c| == max && |c| > 0 && p == c[|c| - 1]))
  {
    var d := Pruned(c, max);
    if |c| == max && |c| > 0 { assert c == d + [c[|c| - 1]]; }
    var e := Put(c, max, k, v);
    if (k, v) !in d {
      assert e[0] == (k, v);
      forall i, j | 0 <= i < j < |e| ensures e[i] != e[j] {
        assert e[j] == d[j - 1];
        assert i > 0 ==> e[i] == d[i - 1];
      }
    }
  }

  /** A pair is taken for new although it is there exactly if it is the oldest of a full map:
      it has been pruned by then. */
  lemma TakenForNew<K, V>(c: seq<(K, V)>, max: nat, k: K, v: V)
    requires PairsOnce(c) && (k, v) in c
    ensures (k, v) !in Pruned(c, max) <==> |c| == max && c[|c| - 1] == (k, v)
  {
    if |c| == max && c[|c| - 1] != (k, v) {
      var i :| 0 <= i < |c| && c[i] == (k, v);
      assert Pruned(c, max)[i] == (k, v);
    }
  }

  /** Offering a pair that is there leaves the map as it is exactly if the map is not full or
      holds nothing else; otherwise an entry is lost or moved. */
  lemma RefusedUnchanged<K, V>(c: seq<(K, V)>, max: nat, k: K, v: V)
    requires PairsOnce(c) && (k, v) in c
    ensures Put(c, max, k, v) == c <==> |c| != max || |c| == 1
  {
    TakenForNew(c, max, k, v);
    if |c| == max && c[|c| - 1] == (k, v) && |c| > 1 {
      assert c[0] != c[|c| - 1] && Put(c, max, k, v)[0] == (k, v);
    }
  }

  lemma BoundKept<K, V>(c: seq<(K, V)>, max: nat, k: K, v: V)
    requires |c| <= max
    ensures |Put(c, max, k, v)| <= max <==> max >= 1
  {
  }

  datatype Op<K, V> = Putting(key: K, value: V) | Dropping(key: K) | DroppingPair(key: K, value: V)

  function Apply<K(==), V(==)>(c: seq<(K, V)>, max: nat, op: Op<K, V>): seq<(K, V)> {
    match op
    case Putting(k, v) => Put(c, max, k, v)
    case Dropping(k) => DropKey(c, k)
    case DroppingPair(k, v) => DropPair(c, k, v)
  }

  function Run<K(==), V(==)>(ops: seq<Op<K, V>>, max: nat): seq<(K, V)> {
    if ops == [] then [] else Apply(Run(ops[..|ops| - 1], max), max, ops[|ops| - 1])
  }

  /** Over every run from an empty map each pair is there once and a positive bound is kept. */
  lemma {:induction false} RunKeeps<K, V>(ops: seq<Op<K, V>>, max: nat)
    ensures PairsOnce(Run(ops, max)) && (max >= 1 ==> |Run(ops, max)| <= max)
  {
    if ops != [] {
      RunKeeps(ops[..|ops| - 1], max);
      ApplyKeeps(Run(ops[..|ops| - 1], max), max, ops[|ops| - 1]);
    }
  }

  lemma ApplyKeeps<K, V>(c: seq<(K, V)>, max: nat, op: Op<K, V>)
    requires PairsOnce(c) && (max >= 1 ==> |c| <= max)
    ensures PairsOnce(Apply(c, max, op)) && (max >= 1 ==> |Apply(c, max, op)| <= max)
  {
    match op
    case Putting(k, v) => PutMember(c, max, k, v, (k, v));
    case Dropping(k) =>
      DropKeyOnce(c, k);
      if c != [] { DropKeyMember(c, k, c[0]); }
    case DroppingPair(k, v) =>
      DropPairOnce(c, k, v);
      if c != [] { DropPairMember(c, k, v, c[0]); }
  }

  // ----- The structure -----

  type Index<K, V> = map<K, map<V, nat>>

  predicate PairOk<K, V>(item: C.Item<K, V>, index: Index<K, V>, next: nat) {
    item.node < next && item.key in index && item.value in index[item.key] && index[item.key][item.value] == item.node
  }

  ghost predicate Listed<K, V>(items: seq<C.Item<K, V>>, k: K, v: V) {
    exists i :: 0 <= i < |items| && items[i].key == k && items[i].value == v
  }

  /** No key without values, and nothing indexed that is not in the list. */
  ghost predicate KeyOk<K(!new), V(!new)>(items: seq<C.Item<K, V>>, inner: map<V, nat>, k: K) {
    inner != map[] && forall v {:trigger Listed(items, k, v)} | v in inner :: Listed(items, k, v)
  }

  ghost predicate Indexed<K(!new), V(!new)>(items: seq<C.Item<K, V>>, index: Index<K, V>, next: nat) {
    && (forall i {:trigger PairOk(items[i], index, next)} | 0 <= i < |items| :: PairOk(items[i], index, next))
    && C.NodesOnce(items)
    && (forall k {:trigger KeyOk(items, index[k], k)} | k in index :: KeyOk(items, index[k], k))
  }

  predicate Has<K(==), V>(index: Index<K, V>, k: K, v: V) {
    k in index && v in index[k]
  }

  lemma IndexedPairs<K(!new), V(!new)>(items: seq<C.Item<K, V>>, index: Index<K, V>, next: nat)
    requires Indexed(items, index, next)
    ensures PairsOnce(C.PairsOf(items))
    ensures forall k, v :: Has(index, k, v) <==> (k, v) in C.PairsOf(items)
  {
    var c := C.PairsOf(items);
    forall i, j | 0 <= i < j < |items| ensures c[i] != c[j] {
      assert PairOk(items[i], index, next) && PairOk(items[j], index, next);
    }
    forall k, v ensures Has(index, k, v) <==> (k, v) in c {
      if Has(index, k, v) {
        assert KeyOk(items, index[k], k) && Listed(items, k, v);
        var h :| 0 <= h < |items| && items[h].key == k && items[h].value == v;
        assert c[h] == (k, v);
      }
      if (k, v) in c {
        var h :| 0 <= h < |c| && c[h] == (k, v);
        assert PairOk(items[h], index, next);
      }
    }
  }

  /** The index with one pair taken out, and its key if that was the last value. */
  function Unindexed<K(==), V(==)>(index: Index<K, V>, k: K, v: V): Index<K, V>
    requires k in index
  {
    var inner := index[k] - {v};
    if inner == map[] then index - {k} else index[k := inner]
  }

  function Without<K, V>(items: seq<C.Item<K, V>>, i: nat): seq<C.Item<K, V>>
    requires i < |items|
  {
    items[..i] + items[i + 1..]
  }

  lemma WithoutAt<K, V>(items: seq<C.Item<K, V>>, i: nat, h: nat)
    requires i < |items| && h < |items| && h != i
    ensures var j := if h < i then h else h - 1; j < |Without(items, i)| && Without(items, i)[j] == items[h]
  {
  }

  lemma RemovedPairs<K(!new), V(!new)>(items: seq<C.Item<K, V>>, index: Index<K, V>, next: nat, i: nat)
    requires Indexed(items, index, next) && i < |items|
    ensures items[i].key in index
    ensures forall j | 0 <= j < |items| - 1 :: PairOk(Without(items, i)[j], Unindexed(index, items[i].key, items[i].value), next)
    ensures C.NodesOnce(Without(items, i))
  {
    var rest, x := Without(items, i), items[i];
    assert PairOk(x, index, next);
    var less := Unindexed(index, x.key, x.value);
    forall j | 0 <= j < |rest| ensures PairOk(rest[j], less, next) {
      var h := if j < i then j else j + 1;
      assert rest[j] == items[h] && PairOk(items[h], index, next);
      if items[h].key == x.key { assert items[h].value in index[x.key] - {x.value}; }
    }
  }

  lemma RemovedKeys<K(!new), V(!new)>(items: seq<C.Item<K, V>>, index: Index<K, V>, next: nat, i: nat, k: K)
    requires Indexed(items, index, next) && i < |items| && items[i].key in index
    requires k in Unindexed(index, items[i].key, items[i].value)
    ensures KeyOk(Without(items, i), Unindexed(index, items[i].key, items[i].value)[k], k)
  {
    var rest, x := Without(items, i), items[i];
    var less := Unindexed(index, x.key, x.value);
    assert KeyOk(items, index[k], k);
    forall v | v in less[k] ensures Listed(rest, k, v) {
      assert v in index[k] && Listed(items, k, v);
      var h :| 0 <= h < |items| && items[h].key == k && items[h].value == v;
      assert h != i;
      WithoutAt(items, i, h);
    }
  }

  lemma Removed<K(!new), V(!new)>(items: seq<C.Item<K, V>>, index: Index<K, V>, next: nat, i: nat)
    requires Indexed(items, index, next) && i < |items|
    ensures items[i].key in index && items[i].value in index[items[i].key]
    ensures Indexed(Without(items, i), Unindexed(index, items[i].key, items[i].value), next)
  {
    assert PairOk(items[i], index, next);
    RemovedPairs(items, index, next, i);
    forall k | k in Unindexed(index, items[i].key, items[i].value)
      ensures KeyOk(Without(items, i), Unindexed(index, items[i].key, items[i].value)[k], k)
    {
      RemovedKeys(items, index, next, i, k);
    }
  }

  lemma PushedKeys<K(!new), V(!new)>(items: seq<C.Item<K, V>>, index: Index<K, V>, next: nat, key: K, value: V, k: K)
    requires Indexed(items, index, next) && k in Reindexed(index, key, value, next)
    ensures KeyOk([C.Item(next, key, value)] + items, Reindexed(index, key, value, next)[k], k)
  {
    var more, wider := [C.Item(next, key, value)] + items, Reindexed(index, key, value, next);
    assert k in index ==> KeyOk(items, index[k], k);
    forall v | v in wider[k] ensures Listed(more, k, v) {
      if k == key && v == value {
        assert more[0].key == k && more[0].value == v;
      } else {
        assert Listed(items, k, v);
        var h :| 0 <= h < |items| && items[h].key == k && items[h].value == v;
        assert more[h + 1] == items[h];
      }
    }
    if k == key { assert value in wider[k]; }
  }

  function Reindexed<K(==), V>(index: Index<K, V>, key: K, value: V, node: nat): Index<K, V> {
    index[key := (if key in index then index[key] else map[])[value := node]]
  }

  lemma PushedItems<K(!new), V(!new)>(items: seq<C.Item<K, V>>, index: Index<K, V>, next: nat, key: K, value: V)
    requires Indexed(items, index, next) && !Has(index, key, value)
    ensures var more, wider := [C.Item(next, key, value)] + items, Reindexed(index, key, value, next);
      forall j | 0 <= j < |more| :: PairOk(more[j], wider, next + 1)
  {
    var more, wider := [C.Item(next, key, value)] + items, Reindexed(index, key, value, next);
    forall j | 0 <= j < |more| ensures PairOk(more[j], wider, next + 1) {
      if j > 0 { assert PairOk(items[j - 1], index, next) && more[j] == items[j - 1]; }
    }
  }

  lemma PushedNodes<K, V>(items: seq<C.Item<K, V>>, x: C.Item<K, V>)
    requires C.NodesOnce(items) && forall i | 0 <= i < |items| :: items[i].node < x.node
    ensures C.NodesOnce([x] + items)
  {
    var more := [x] + items;
    forall i, j | 0 <= i < j < |more| ensures more[i].node != more[j].node {
      assert more[j] == items[j - 1];
      assert i > 0 ==> more[i] == items[i - 1];
    }
  }

  lemma Pushed<K(!new), V(!new)>(items: seq<C.Item<K, V>>, index: Index<K, V>, next: nat, key: K, value: V)
    requires Indexed(items, index, next) && !Has(index, key, value)
    ensures Indexed([C.Item(next, key, value)] + items, Reindexed(index, key, value, next), next + 1)
  {
    var more, wider := [C.Item(next, key, value)] + items, Reindexed(index, key, value, next);
    PushedItems(items, index, next, key, value);
    forall i | 0 <= i < |items| ensures items[i].node < next { assert PairOk(items[i], index, next); }
    PushedNodes(items, C.Item(next, key, value));
    forall k | k in wider ensures KeyOk(more, wider[k], k) { PushedKeys(items, index, next, key, value, k); }
  }

  lemma Reachable<K(!new), V(!new)>(items: seq<C.Item<K, V>>, index: Index<K, V>, next: nat, k: K, v: V)
    requires Indexed(items, index, next) && Has(index, k, v)
    ensures exists j :: 0 <= j < |items| && items[j].node == index[k][v]
    ensures forall j | 0 <= j < |items| :: items[j].node == index[k][v] ==> items[j].key == k && items[j].value == v
  {
    assert KeyOk(items, index[k], k) && Listed(items, k, v);
    var h :| 0 <= h < |items| && items[h].key == k && items[h].value == v;
    assert PairOk(items[h], index, next);
    forall j | 0 <= j < |items| && items[j].node == index[k][v] ensures items[j].key == k && items[j].value == v {
      C.SameItem(items, j, h);
    }
  }

  // ----- Removals seen from outside -----

  lemma {:induction false} DropKeySkip<K, V>(c: seq<(K, V)>, i: nat, k: K)
    requires i < |c| && c[i].0 == k
    ensures DropKey(c[..i] + c[i + 1..], k) == DropKey(c, k)
  {
    var n := |c| - 1;
    if i == n {
      assert c[..i] + c[i + 1..] == c[..n];
    } else {
      DropKeySkip(c[..n], i, k);
      var d := c[..i] + c[i + 1..];
      assert d[..|d| - 1] == c[..n][..i] + c[..n][i + 1..] && d[|d| - 1] == c[n];
    }
  }

  lemma {:induction false} DropKeyNone<K, V>(c: seq<(K, V)>, k: K)
    requires forall i | 0 <= i < |c| :: c[i].0 != k
    ensures DropKey(c, k) == c
  {
    if c != [] { DropKeyNone(c[..|c| - 1], k); }
  }

  lemma {:induction false} DropPairNone<K, V>(c: seq<(K, V)>, k: K, v: V)
    requires (k, v) !in c
    ensures DropPair(c, k, v) == c
  {
    if c != [] { DropPairNone(c[..|c| - 1], k, v); }
  }

  lemma {:induction false} DropPairIs<K, V>(c: seq<(K, V)>, i: nat, k: K, v: V)
    requires PairsOnce(c) && i < |c| && c[i] == (k, v)
    ensures DropPair(c, k, v) == c[..i] + c[i + 1..]
  {
    var n := |c| - 1;
    var a, last := c[..n], c[n];
    if i == n {
      assert (k, v) !in a;
      DropPairNone(a, k, v);
    } else {
      DropPairIs(a, i, k, v);
      assert last != c[i];
    }
  }

  class CacheMultiMap<K(==, !new), V(==, !new)> {
    var nMaxSize: nat
    var nCurrentSize: nat
    var listItems: seq<C.Item<K, V>>
    var mapIndex: Index<K, V>
    var nextNode: nat

    ghost predicate Valid()
      reads this
    {
      nCurrentSize == |listItems| && Indexed(listItems, mapIndex, nextNode)
    }

    function Contents(): seq<(K, V)>
      reads this
    {
      C.PairsOf(listItems)
    }

    constructor (nMaxSize: nat)
      ensures Valid() && Contents() == [] && this.nMaxSize == nMaxSize
    {
      this.nMaxSize := nMaxSize;
      nCurrentSize, listItems, mapIndex, nextNode := 0, [], map[], 0;
    }

    /** Follows an index entry to its item. */
    method Follow(node: nat) returns (i: nat)
      requires exists j :: 0 <= j < |listItems| && listItems[j].node == node
      ensures i < |listItems| && listItems[i].node == node
    {
      i := 0;
      while listItems[i].node != node
        invariant i < |listItems| && forall j | 0 <= j < i :: listItems[j].node != node
        decreases |listItems| - i
      {
        i := i + 1;
      }
    }

    /** A key is known exactly when some pair has it. */
    method HasKey(key: K) returns (found: bool)
      requires Valid()
      ensures found <==> exists v :: (key, v) in Contents()
    {
      IndexedPairs(listItems, mapIndex, nextNode);
      found := key in mapIndex;
      if found {
        assert KeyOk(listItems, mapIndex[key], key);
        assert mapIndex[key] != map[];
        var v :| v in mapIndex[key];
        assert Has(mapIndex, key, v);
      } else {
        forall v ensures (key, v) !in Contents() { assert !Has(mapIndex, key, v); }
      }
    }

    /** Prunes a full map, then adds the pair unless it is there. */
    method Insert(key: K, value: V) returns (added: bool)
      requires Valid()
      modifies this
      ensures Valid() && nMaxSize == old(nMaxSize)
      ensures Contents() == Put(old(Contents()), nMaxSize, key, value)
      ensures added <==> (key, value) !in Pruned(old(Contents()), nMaxSize)
    {
      if nCurrentSize == nMaxSize {
        PruneLast();
      }
      added := AddPair(key, value);
    }

    method AddPair(key: K, value: V) returns (added: bool)
      requires Valid()
      modifies this
      ensures Valid() && nMaxSize == old(nMaxSize)
      ensures added <==> (key, value) !in old(Contents())
      ensures Contents() == if added then [(key, value)] + old(Contents()) else old(Contents())
    {
      ghost var index := mapIndex;
      assert Has(index, key, value) <==> (key, value) in Contents() by { IndexedPairs(listItems, mapIndex, nextNode); }
      if key !in mapIndex {
        mapIndex := mapIndex[key := map[]];
      }
      if value in mapIndex[key] {
        return false;
      }
      PushFront(key, value, index);
      added := true;
    }

    /** Adds a new item in front; the key has an inner map, perhaps a new one. */
    method PushFront(key: K, value: V, ghost index: Index<K, V>)
      requires nCurrentSize == |listItems| && Indexed(listItems, index, nextNode) && !Has(index, key, value)
      requires mapIndex == if key in index then index else index[key := map[]]
      modifies this
      ensures Valid() && nMaxSize == old(nMaxSize) && Contents() == [(key, value)] + old(Contents())
    {
      Pushed(listItems, index, nextNode, key, value);
      PairsCons(C.Item(nextNode, key, value), listItems);
      mapIndex := Filed(mapIndex, key, value, nextNode, index);
      listItems := [C.Item(nextNode, key, value)] + listItems;
      nextNode := nextNode + 1;
      nCurrentSize := nCurrentSize + 1;
    }

    method PruneLast()
      requires Valid()
      modifies this
      ensures Valid() && nMaxSize == old(nMaxSize)
      ensures Contents() == if old(Contents()) == [] then [] else old(Contents())[..|old(Contents())| - 1]
    {
      if nCurrentSize < 1 { return; }
      RemoveItem(|listItems| - 1);
    }

    /** Takes an item out of the list, and out of the index with its key if that was its last. */
    method RemoveItem(i: nat)
      requires Valid() && i < |listItems|
      modifies this
      ensures Valid() && nMaxSize == old(nMaxSize)
      ensures Contents() == old(Contents())[..i] + old(Contents())[i + 1..]
    {
      Removed(listItems, mapIndex, nextNode, i);
      PairsWithout(listItems, i);
      var item := listItems[i];
      mapIndex, listItems, nCurrentSize :=
        Unindexed(mapIndex, item.key, item.value), Without(listItems, i), nCurrentSize - 1;
    }

    method ErasePair(key: K, value: V)
      requires Valid()
      modifies this
      ensures Valid() && nMaxSize == old(nMaxSize) && Contents() == DropPair(old(Contents()), key, value)
    {
      IndexedPairs(listItems, mapIndex, nextNode);
      assert Has(mapIndex, key, value) <==> (key, value) in Contents();
      if key !in mapIndex || value !in mapIndex[key] {
        DropPairNone(Contents(), key, value);
        return;
      }
      Reachable(listItems, mapIndex, nextNode, key, value);
      var i := Follow(mapIndex[key][value]);
      DropPairIs(Contents(), i, key, value);
      RemoveItem(i);
    }

    /** Erases every value of a key. */
    method EraseKey(key: K)
      requires Valid()
      modifies this
      ensures Valid() && nMaxSize == old(nMaxSize) && Contents() == DropKey(old(Contents()), key)
    {
      if key !in mapIndex {
        NoneOf(listItems, mapIndex, nextNode, key);
        return;
      }
      EraseValues(key);
      NoneOf(listItems, mapIndex - {key}, nextNode, key);
      mapIndex := mapIndex - {key};
    }

    /** The loop over the values of a key. */
    method EraseValues(key: K)
      requires Valid() && key in mapIndex
      modifies this`listItems, this`nCurrentSize
      ensures nCurrentSize == |listItems| && Indexed(listItems, mapIndex - {key}, nextNode)
      ensures DropKey(Contents(), key) == DropKey(old(Contents()), key)
    {
      var rest := mapIndex[key].Keys;
      CutNothing(listItems, mapIndex, nextNode, key);
      while rest != {}
        invariant rest <= mapIndex[key].Keys && nCurrentSize == |listItems|
        invariant Indexed(listItems, Cut(mapIndex, key, rest), nextNode)
        invariant DropKey(Contents(), key) == DropKey(old(Contents()), key)
      {
        var v :| v in rest;
        EraseOne(key, v, rest);
        rest := rest - {v};
      }
    }

    /** Erases one value's item, leaving the index as it is for now. */
    method EraseOne(key: K, v: V, ghost rest: set<V>)
      requires key in mapIndex && v in rest && rest <= mapIndex[key].Keys
      requires nCurrentSize == |listItems| && Indexed(listItems, Cut(mapIndex, key, rest), nextNode)
      modifies this`listItems, this`nCurrentSize
      ensures nCurrentSize == |listItems| && Indexed(listItems, Cut(mapIndex, key, rest - {v}), nextNode)
      ensures DropKey(Contents(), key) == DropKey(old(Contents()), key)
    {
      ghost var shrunk := Cut(mapIndex, key, rest);
      Reachable(listItems, shrunk, nextNode, key, v);
      var i := Follow(mapIndex[key][v]);
      DropKeySkip(Contents(), i, key);
      PairsWithout(listItems, i);
      Removed(listItems, shrunk, nextNode, i);
      CutNext(mapIndex, key, rest, v);
      listItems := Without(listItems, i);
      nCurrentSize := nCurrentSize - 1;
    }

    method Clear()
      modifies this
      ensures Valid() && Contents() == [] && nMaxSize == old(nMaxSize)
    {
      mapIndex, listItems, nCurrentSize := map[], [], 0;
    }

    /** Makes a new index for the list. */
    method RebuildIndex()
      modifies this`mapIndex
      ensures mapIndex == Rebuilt(listItems)
    {
      mapIndex := map[];
      var i := 0;
      while i < |listItems|
        invariant 0 <= i <= |listItems| && mapIndex == Rebuilt(listItems[..i])
      {
        assert listItems[..i + 1][..i] == listItems[..i];
        var item := listItems[i];
        ghost var index := mapIndex;
        if item.key !in mapIndex {
          mapIndex := mapIndex[item.key := map[]];
        }
        mapIndex := Filed(mapIndex, item.key, item.value, item.node, index);
        i := i + 1;
      }
      assert listItems[..i] == listItems;
    }
  }

  /** The index made from a list. */
  function Rebuilt<K(==), V(==)>(items: seq<C.Item<K, V>>): Index<K, V> {
    if items == [] then map[]
    else
      var x := items[|items| - 1];
      Reindexed(Rebuilt(items[..|items| - 1]), x.key, x.value, x.node)
  }

  /** Of a pair that a damaged list repeats it has the last item. */
  lemma {:induction false} RebuiltLast<K, V>(items: seq<C.Item<K, V>>, i: nat)
    requires i < |items| && forall j | i < j < |items| :: items[j].key != items[i].key || items[j].value != items[i].value
    ensures Has(Rebuilt(items), items[i].key, items[i].value)
    ensures Rebuilt(items)[items[i].key][items[i].value] == items[i].node
  {
    var n := |items| - 1;
    if i < n { RebuiltLast(items[..n], i); }
  }

  lemma {:induction false} RebuiltIndexes<K(!new), V(!new)>(items: seq<C.Item<K, V>>, next: nat)
    requires C.NodesOnce(items) && PairsOnce(C.PairsOf(items)) && forall i | 0 <= i < |items| :: items[i].node < next
    ensures Indexed(items, Rebuilt(items), next)
  {
    if items != [] {
      var n := |items| - 1;
      assert C.PairsOf(items[..n]) == C.PairsOf(items)[..n];
      RebuiltIndexes(items[..n], next);
      Extended(items, n, Rebuilt(items[..n]), next);
      assert items[..n + 1] == items;
    }
  }

  /** The new index agrees with the list exactly if the list has no pair twice. */
  lemma RebuiltAgrees<K(!new), V(!new)>(items: seq<C.Item<K, V>>, next: nat)
    requires C.NodesOnce(items) && forall i | 0 <= i < |items| :: items[i].node < next
    ensures Indexed(items, Rebuilt(items), next) <==> PairsOnce(C.PairsOf(items))
  {
    if PairsOnce(C.PairsOf(items)) { RebuiltIndexes(items, next); }
    if Indexed(items, Rebuilt(items), next) { IndexedPairs(items, Rebuilt(items), next); }
  }

  /** An inner map cut down to some of its values. */
  function Kept<V(==)>(inner: map<V, nat>, rest: set<V>): map<V, nat> {
    map v | v in inner && v in rest :: inner[v]
  }

  /** The index as if only the values in rest were left of a key. */
  function Cut<K(==), V(==)>(index: Index<K, V>, key: K, rest: set<V>): Index<K, V>
    requires key in index
  {
    if rest == {} then index - {key} else index[key := Kept(index[key], rest)]
  }

  lemma EmptyInner<V>(inner: map<V, nat>)
    ensures inner.Keys == {} <==> inner == map[]
  {
  }

  lemma CutNothing<K(!new), V(!new)>(items: seq<C.Item<K, V>>, index: Index<K, V>, next: nat, key: K)
    requires Indexed(items, index, next) && key in index
    ensures Cut(index, key, index[key].Keys) == index
  {
    assert KeyOk(items, index[key], key);
    assert Kept(index[key], index[key].Keys) == index[key];
    EmptyInner(index[key]);
  }

  lemma CutNext<K, V>(index: Index<K, V>, key: K, rest: set<V>, v: V)
    requires key in index && v in rest && rest <= index[key].Keys
    ensures key in Cut(index, key, rest) && Unindexed(Cut(index, key, rest), key, v) == Cut(index, key, rest - {v})
  {
    var inner := Cut(index, key, rest)[key] - {v};
    assert inner == Kept(index[key], rest - {v});
    if rest - {v} == {} {
      assert inner == map[];
      assert Cut(index, key, rest) - {key} == index - {key};
    } else {
      var u :| u in rest - {v};
      assert u in inner;
    }
  }

  /** Enters a value under a key that has an inner map. */
  function Filed<K(==), V(==)>(m: Index<K, V>, key: K, value: V, node: nat, ghost index: Index<K, V>): (r: Index<K, V>)
    requires m == if key in index then index else index[key := map[]]
    ensures r == Reindexed(index, key, value, node)
  {
    var inner: map<V, nat> := m[key][value := node];
    m[key := inner]
  }

  lemma PairsCons<K, V>(x: C.Item<K, V>, items: seq<C.Item<K, V>>)
    ensures C.PairsOf([x] + items) == [(x.key, x.value)] + C.PairsOf(items)
  {
  }

  lemma PairsWithout<K, V>(items: seq<C.Item<K, V>>, i: nat)
    requires i < |items|
    ensures C.PairsOf(Without(items, i)) == C.PairsOf(items)[..i] + C.PairsOf(items)[i + 1..]
  {
  }

  lemma NoneOf<K(!new), V(!new)>(items: seq<C.Item<K, V>>, index: Index<K, V>, next: nat, key: K)
    requires Indexed(items, index, next) && key !in index
    ensures DropKey(C.PairsOf(items), key) == C.PairsOf(items)
  {
    var c := C.PairsOf(items);
    forall i | 0 <= i < |items| ensures c[i].0 != key { assert PairOk(items[i], index, next); }
    DropKeyNone(c, key);
  }

  lemma Extended<K(!new), V(!new)>(items: seq<C.Item<K, V>>, i: nat, index: Index<K, V>, next: nat)
    requires i < |items| && Indexed(items[..i], index, next) && items[i].node < next
    requires C.NodesOnce(items) && PairsOnce(C.PairsOf(items))
    ensures Indexed(items[..i + 1], Reindexed(index, items[i].key, items[i].value, items[i].node), next)
  {
    var a, b, x := items[..i], items[..i + 1], items[i];
    var more := Reindexed(index, x.key, x.value, x.node);
    forall j | 0 <= j < |b| ensures PairOk(b[j], more, next) {
      if j < i {
        assert b[j] == a[j] && PairOk(a[j], index, next);
        assert C.PairsOf(items)[j] != C.PairsOf(items)[i];
      }
    }
    forall k | k in more ensures KeyOk(b, more[k], k) { ExtendedKeys(a, b, x, index, next, k); }
  }

  lemma ExtendedKeys<K(!new), V(!new)>(a: seq<C.Item<K, V>>, b: seq<C.Item<K, V>>, x: C.Item<K, V>, index: Index<K, V>, next: nat, k: K)
    requires Indexed(a, index, next) && b == a + [x] && k in Reindexed(index, x.key, x.value, x.node)
    ensures KeyOk(b, Reindexed(index, x.key, x.value, x.node)[k], k)
  {
    var more := Reindexed(index, x.key, x.value, x.node);
    assert k in index ==> KeyOk(a, index[k], k);
    forall v | v in more[k] ensures Listed(b, k, v) {
      if k == x.key && v == x.value {
        assert b[|a|] == x;
      } else {
        assert Listed(a, k, v);
        var h :| 0 <= h < |a| && a[h].key == k && a[h].value == v;
        assert b[h] == a[h];
      }
    }
    if k == x.key { assert x.value in more[k]; }
  }
}
