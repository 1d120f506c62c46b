/** A bounded map that forgets its oldest key (src/cachemap.h): a list of items, newest first,
    and an index from key to list node. A node is known by a number of its own. */
module CacheMaps {
  import opened Common

  datatype Item<K, V> = Item(node: nat, key: K, value: V)

  // ----- What it stands for: pairs by age, each key once -----

  function IndexOf<K(==), V>(c: seq<(K, V)>, k: K): (r: int)
    ensures -1 <= r < |c| && (r >= 0 ==> c[r].0 == k)
    ensures r < 0 ==> forall i | 0 <= i < |c| :: c[i].0 != k
  {
    if c == [] then -1 else if c[|c| - 1].0 == k then |c| - 1 else IndexOf(c[..|c| - 1], k)
  }

  ghost predicate KeysOnce<K, V>(c: seq<(K, V)>) {
    forall i, j | 0 <= i < j < |c| :: c[i].0 != c[j].0
  }

  /** Updates in place, or else adds in front, dropping the oldest from a full map. */
  function Put<K(==), V>(c: seq<(K, V)>, max: nat, k: K, v: V): seq<(K, V)> {
    var i := IndexOf(c, k);
    if i >= 0 then c[i := (k, v)]
    else [(k, v)] + if |c| == max && |c| > 0 then c[..|c| - 1] else c
  }

  function Drop<K(==), V>(c: seq<(K, V)>, k: K): seq<(K, V)> {
    var i := IndexOf(c, k);
    if i >= 0 then c[..i] + c[i + 1..] else c
  }

  function Lookup<K(==), V>(c: seq<(K, V)>, k: K): Option<V> {
    var i := IndexOf(c, k);
    if i >= 0 then Some(c[i].1) else None
  }

  lemma IndexUnique<K, V>(c: seq<(K, V)>, k: K, i: nat)
    requires KeysOnce(c) && i < |c| && c[i].0 == k
    ensures IndexOf(c, k) == i
  {
    var r := IndexOf(c, k);
    assert r >= 0;
    SamePlace(c, r, i);
  }

  lemma SamePlace<K, V>(c: seq<(K, V)>, i: nat, j: nat)
    requires KeysOnce(c) && i < |c| && j < |c| && c[i].0 == c[j].0
    ensures i == j
  {
  }

  /** The key that a new entry pushes out. */
  predicate Evicted<K(==), V>(c: seq<(K, V)>, max: nat, k: K, other: K) {
    IndexOf(c, k) < 0 && |c| == max && |c| > 0 && c[|c| - 1].0 == other
  }

  /** A put value is found; another key keeps its value unless it was the oldest of a full map. */
  lemma PutLookup<K, V>(c: seq<(K, V)>, max: nat, k: K, v: V, other: K)
    requires KeysOnce(c)
    ensures KeysOnce(Put(c, max, k, v)) && Lookup(Put(c, max, k, v), k) == Some(v)
    ensures other == k || Lookup(Put(c, max, k, v), other) == if Evicted(c, max, k, other) then None else Lookup(c, other)
  {
    if IndexOf(c, k) >= 0 {
      UpdateLookup(c, IndexOf(c, k), k, v, other);
    } else {
      var kept := if |c| == max && |c| > 0 then c[..|c| - 1] else c;
      KeptLookup(c, other);
      AddLookup(kept, k, v, other);
    }
  }

  lemma UpdateLookup<K, V>(c: seq<(K, V)>, i: nat, k: K, v: V, other: K)
    requires KeysOnce(c) && i < |c| && c[i].0 == k
    ensures KeysOnce(c[i := (k, v)]) && Lookup(c[i := (k, v)], k) == Some(v)
    ensures other == k || Lookup(c[i := (k, v)], other) == Lookup(c, other)
  {
    var d := c[i := (k, v)];
    IndexUnique(d, k, i);
    var j := IndexOf(c, other);
    if other != k && j >= 0 { IndexUnique(d, other, j); }
  }

  lemma AddLookup<K, V>(c: seq<(K, V)>, k: K, v: V, other: K)
    requires KeysOnce(c) && IndexOf(c, k) < 0
    ensures KeysOnce([(k, v)] + c) && Lookup([(k, v)] + c, k) == Some(v)
    ensures other == k || Lookup([(k, v)] + c, other) == Lookup(c, other)
  {
    var d := [(k, v)] + c;
    forall i, j | 0 <= i < j < |d| ensures d[i].0 != d[j].0 {
      assert d[j] == c[j - 1];
      if i > 0 { assert d[i] == c[i - 1]; }
    }
    IndexUnique(d, k, 0);
    var j := IndexOf(c, other);
    if other != k && j >= 0 {
      assert d[j + 1] == c[j];
      IndexUnique(d, other, j + 1);
    } else if other != k {
      NotThere(d, other);
    }
  }

  lemma NotThere<K, V>(c: seq<(K, V)>, k: K)
    requires forall i | 0 <= i < |c| :: c[i].0 != k
    ensures IndexOf(c, k) == -1
  {
  }

  lemma KeptLookup<K, V>(c: seq<(K, V)>, other: K)
    requires KeysOnce(c)
    ensures |c| > 0 ==> KeysOnce(c[..|c| - 1])
    ensures |c| > 0 ==> Lookup(c[..|c| - 1], other) == if c[|c| - 1].0 == other then None else Lookup(c, other)
    ensures |c| > 0 ==> forall k | IndexOf(c, k) < 0 :: IndexOf(c[..|c| - 1], k) < 0
  {
  }

  lemma DropLookup<K, V>(c: seq<(K, V)>, k: K, other: K)
    requires KeysOnce(c)
    ensures KeysOnce(Drop(c, k)) && Lookup(Drop(c, k), k) == None
    ensures other != k ==> Lookup(Drop(c, k), other) == Lookup(c, other)
  {
    var d, i, j := Drop(c, k), IndexOf(c, k), IndexOf(c, other);
    if i >= 0 && other != k && j >= 0 {
      IndexUnique(d, other, if j < i then j else j - 1);
    }
  }

  /** The size stays within bounds exactly when the bound is at least one: a map that may hold
      nothing never prunes and grows with every new key. */
  lemma BoundKept<K, V>(c: seq<(K, V)>, max: nat, k: K, v: V)
    requires |c| <= max
    ensures |Put(c, max, k, v)| <= max <==> max >= 1
  {
  }

  /** Once above its bound it only grows. */
  lemma NeverShrinks<K, V>(c: seq<(K, V)>, max: nat, k: K, v: V)
    requires |c| > max
    ensures |Put(c, max, k, v)| == |c| + if IndexOf(c, k) < 0 then 1 else 0
  {
  }

  datatype Op<K, V> = Putting(key: K, value: V) | Dropping(key: K)

  function Apply<K(==), V>(c: seq<(K, V)>, max: nat, op: Op<K, V>): seq<(K, V)> {
    match op case Putting(k, v) => Put(c, max, k, v) case Dropping(k) => Drop(c, k)
  }

  function Run<K(==), V>(ops: seq<Op<K, V>>, max: nat): seq<(K, V)> {
    if ops == [] then [] else Apply(Run(ops[..|ops| - 1], max), max, ops[|ops| - 1])
  }

  /** Over every run from an empty map each key is there once and a positive bound is kept. */
  lemma {:induction false} RunKeeps<K, V>(ops: seq<Op<K, V>>, max: nat)
    ensures KeysOnce(Run(ops, max)) && (max >= 1 ==> |Run(ops, max)| <= max)
  {
    if ops != [] {
      var c, op := Run(ops[..|ops| - 1], max), ops[|ops| - 1];
      RunKeeps(ops[..|ops| - 1], max);
      match op
      case Putting(k, v) =>
        PutLookup(c, max, k, v, k);
        if max >= 1 { BoundKept(c, max, k, v); }
      case Dropping(k) => DropLookup(c, k, k);
    }
  }

  // ----- The structure -----

  function PairsOf<K, V>(items: seq<Item<K, V>>): (c: seq<(K, V)>)
    ensures |c| == |items| && forall i | 0 <= i < |items| :: c[i] == (items[i].key, items[i].value)
  {
    seq(|items|, i requires 0 <= i < |items| => (items[i].key, items[i].value))
  }

  predicate ItemOk<K, V>(item: Item<K, V>, index: map<K, nat>, next: nat) {
    item.node < next && item.key in index && index[item.key] == item.node
  }

  ghost predicate Listed<K, V>(items: seq<Item<K, V>>, k: K) {
    exists i :: 0 <= i < |items| && items[i].key == k
  }

  ghost predicate NodesOnce<K, V>(items: seq<Item<K, V>>) {
    forall i, j | 0 <= i < j < |items| :: items[i].node != items[j].node
  }

  /** Every item is indexed by its key, nothing else is, and nodes are distinct. */
  ghost predicate Indexed<K, V>(items: seq<Item<K, V>>, index: map<K, nat>, next: nat) {
    && (forall i {:trigger ItemOk(items[i], index, next)} | 0 <= i < |items| :: ItemOk(items[i], index, next))
    && NodesOnce(items)
    && (forall k {:trigger Listed(items, k)} | k in index :: Listed(items, k))
  }

  lemma IndexedOnce<K, V>(items: seq<Item<K, V>>, index: map<K, nat>, next: nat)
    requires Indexed(items, index, next)
    ensures KeysOnce(PairsOf(items))
    ensures forall k :: k in index <==> IndexOf(PairsOf(items), k) >= 0
  {
    var c := PairsOf(items);
    forall i, j | 0 <= i < j < |items| ensures c[i].0 != c[j].0 {
      assert ItemOk(items[i], index, next) && ItemOk(items[j], index, next);
    }
    forall k ensures k in index <==> IndexOf(c, k) >= 0 {
      if k in index { assert Listed(items, k); }
      if IndexOf(c, k) >= 0 { assert ItemOk(items[IndexOf(c, k)], index, next); }
    }
  }

  lemma Removed<K, V>(items: seq<Item<K, V>>, index: map<K, nat>, next: nat, i: nat)
    requires Indexed(items, index, next) && i < |items|
    ensures Indexed(items[..i] + items[i + 1..], index - {items[i].key}, next)
  {
    var rest, less := items[..i] + items[i + 1..], index - {items[i].key};
    assert ItemOk(items[i], index, next);
    forall j | 0 <= j < |rest| ensures ItemOk(rest[j], less, next) {
      var h := if j < i then j else j + 1;
      assert rest[j] == items[h] && ItemOk(items[h], index, next);
    }
    forall k | k in less ensures Listed(rest, k) {
      assert Listed(items, k);
      var h :| 0 <= h < |items| && items[h].key == k;
      var j := if h < i then h else h - 1;
      assert rest[j] == items[h];
    }
  }

  lemma Pushed<K, V>(items: seq<Item<K, V>>, index: map<K, nat>, next: nat, key: K, value: V)
    requires Indexed(items, index, next) && key !in index
    ensures Indexed([Item(next, key, value)] + items, index[key := next], next + 1)
  {
    var more, wider := [Item(next, key, value)] + items, index[key := next];
    forall j | 0 <= j < |more| ensures ItemOk(more[j], wider, next + 1) {
      if j > 0 { assert ItemOk(items[j - 1], index, next); }
    }
    forall i, j | 0 <= i < j < |more| ensures more[i].node != more[j].node {
      assert ItemOk(items[j - 1], index, next);
      assert i > 0 ==> more[i] == items[i - 1];
    }
    forall k | k in wider ensures Listed(more, k) {
      if k == key {
        assert more[0].key == k;
      } else {
        assert Listed(items, k);
        var h :| 0 <= h < |items| && items[h].key == k;
        assert more[h + 1].key == k;
      }
    }
  }

  lemma Revalued<K, V>(items: seq<Item<K, V>>, index: map<K, nat>, next: nat, i: nat, value: V)
    requires Indexed(items, index, next) && i < |items|
    ensures Indexed(items[i := items[i].(value := value)], index, next)
  {
    var other := items[i := items[i].(value := value)];
    forall j | 0 <= j < |other| ensures ItemOk(other[j], index, next) { assert ItemOk(items[j], index, next); }
    forall k | k in index ensures Listed(other, k) {
      assert Listed(items, k);
      var h :| 0 <= h < |items| && items[h].key == k;
      assert other[h].key == k;
    }
  }

  lemma PairsUpdated<K, V>(items: seq<Item<K, V>>, i: nat, value: V)
    requires i < |items|
    ensures PairsOf(items[i := items[i].(value := value)]) == PairsOf(items)[i := (items[i].key, value)]
  {
  }

  lemma NewKey<K, V>(items: seq<Item<K, V>>, i: nat)
    requires KeysOnce(PairsOf(items)) && i < |items|
    ensures forall j | 0 <= j < i :: items[j].key != items[i].key
  {
    var c := PairsOf(items);
    forall j | 0 <= j < i ensures items[j].key != items[i].key { assert c[j].0 != c[i].0; }
  }

  lemma Extended<K, V>(items: seq<Item<K, V>>, i: nat, index: map<K, nat>, next: nat)
    requires i < |items| && Indexed(items[..i], index, next) && items[i].node < next && NodesOnce(items)
    requires forall j | 0 <= j < i :: items[j].key != items[i].key
    ensures Indexed(items[..i + 1], index[items[i].key := items[i].node], next)
  {
    var a, b, more := items[..i], items[..i + 1], index[items[i].key := items[i].node];
    forall j | 0 <= j < |b| ensures ItemOk(b[j], more, next) {
      if j < i { assert a[j] == b[j] && ItemOk(a[j], index, next); }
    }
    forall k | k in more ensures Listed(b, k) {
      if k == items[i].key {
        assert b[i].key == k;
      } else {
        assert Listed(a, k);
        var h :| 0 <= h < |a| && a[h].key == k;
        assert b[h].key == k;
      }
    }
  }

  /** The index made from a list. */
  function Rebuilt<K(==), V>(items: seq<Item<K, V>>): map<K, nat> {
    if items == [] then map[]
    else Rebuilt(items[..|items| - 1])[items[|items| - 1].key := items[|items| - 1].node]
  }

  /** Of a key that a damaged list repeats it has the last item. */
  lemma {:induction false} RebuiltLast<K, V>(items: seq<Item<K, V>>, i: nat)
    requires i < |items| && forall j | i < j < |items| :: items[j].key != items[i].key
    ensures items[i].key in Rebuilt(items) && Rebuilt(items)[items[i].key] == items[i].node
  {
    var n := |items| - 1;
    if i < n { RebuiltLast(items[..n], i); }
  }

  lemma {:induction false} RebuiltIndexes<K, V>(items: seq<Item<K, V>>, next: nat)
    requires NodesOnce(items) && KeysOnce(PairsOf(items)) && forall i | 0 <= i < |items| :: items[i].node < next
    ensures Indexed(items, Rebuilt(items), next)
  {
    if items != [] {
      var n := |items| - 1;
      var c, d := PairsOf(items), PairsOf(items[..n]);
      assert d == c[..n];
      RebuiltIndexes(items[..n], next);
      NewKey(items, n);
      Extended(items, n, Rebuilt(items[..n]), next);
      assert items[..n + 1] == items;
    }
  }

  /** The new index agrees with the list exactly if the list has no key twice. */
  lemma RebuiltAgrees<K(!new), V>(items: seq<Item<K, V>>, next: nat)
    requires NodesOnce(items) && forall i | 0 <= i < |items| :: items[i].node < next
    ensures Indexed(items, Rebuilt(items), next) <==> KeysOnce(PairsOf(items))
  {
    if KeysOnce(PairsOf(items)) { RebuiltIndexes(items, next); }
    if Indexed(items, Rebuilt(items), next) { IndexedOnce(items, Rebuilt(items), next); }
  }

  lemma SameItem<K, V>(items: seq<Item<K, V>>, i: nat, j: nat)
    requires NodesOnce(items) && i < |items| && j < |items| && items[i].node == items[j].node
    ensures i == j
  {
  }

  /** The node of an indexed key is in the list, under that key alone. */
  lemma Reachable<K, V>(items: seq<Item<K, V>>, index: map<K, nat>, next: nat, key: K)
    requires Indexed(items, index, next) && key in index
    ensures exists j :: 0 <= j < |items| && items[j].node == index[key]
    ensures forall j | 0 <= j < |items| :: items[j].node == index[key] ==> items[j].key == key
  {
    assert Listed(items, key);
    var h :| 0 <= h < |items| && items[h].key == key;
    assert ItemOk(items[h], index, next);
    forall j | 0 <= j < |items| && items[j].node == index[key] ensures items[j].key == key {
      SameItem(items, j, h);
    }
  }

  class CacheMap<K(==, !new), V> {
    var nMaxSize: nat
    var nCurrentSize: nat
    var listItems: seq<Item<K, V>>
    var mapIndex: map<K, nat>
    var nextNode: nat

    ghost predicate Valid()
      reads this
    {
      nCurrentSize == |listItems| && Indexed(listItems, mapIndex, nextNode)
    }

    function Contents(): seq<(K, V)>
      reads this
    {
      PairsOf(listItems)
    }

    constructor (nMaxSize: nat)
      ensures Valid() && Contents() == [] && this.nMaxSize == nMaxSize
    {
      this.nMaxSize := nMaxSize;
      nCurrentSize, listItems, mapIndex, nextNode := 0, [], map[], 0;
    }

    /** A copy has the same items and an index of its own. */
    constructor Copy(other: CacheMap<K, V>)
      requires other.Valid()
      ensures Valid() && Contents() == other.Contents() && nMaxSize == other.nMaxSize
    {
      nMaxSize, nCurrentSize, listItems := other.nMaxSize, other.nCurrentSize, other.listItems;
      mapIndex, nextNode := map[], other.nextNode;
      new;
      IndexedOnce(listItems, other.mapIndex, nextNode);
      forall i | 0 <= i < |listItems| ensures listItems[i].node < nextNode {
        assert ItemOk(listItems[i], other.mapIndex, nextNode);
      }
      RebuildIndex();
      RebuiltAgrees(listItems, nextNode);
    }

    /** Follows an index entry to its item. */
    method Follow(node: nat) returns (i: nat)
      requires exists j :: 0 <= j < |listItems| && listItems[j].node == node
      ensures i < |listItems| && listItems[i].node == node
    {
      i := 0;
      while listItems[i].node != node
        invariant i < |listItems| && forall j | 0 <= j < i :: listItems[j].node != node
        decreases |listItems| - i
      {
        i := i + 1;
      }
    }

    method HasKey(key: K) returns (found: bool)
      requires Valid()
      ensures found <==> Lookup(Contents(), key).Some?
    {
      IndexedOnce(listItems, mapIndex, nextNode);
      found := key in mapIndex;
    }

    method Get(key: K) returns (value: Option<V>)
      requires Valid()
      ensures value == Lookup(Contents(), key)
    {
      IndexedOnce(listItems, mapIndex, nextNode);
      if key !in mapIndex { return None; }
      Reachable(listItems, mapIndex, nextNode, key);
      var i := Follow(mapIndex[key]);
      IndexUnique(Contents(), key, i);
      value := Some(listItems[i].value);
    }

    /** Updates in place, or adds in front and forgets the oldest. */
    method Insert(key: K, value: V)
      requires Valid()
      modifies this
      ensures Valid() && nMaxSize == old(nMaxSize) && Contents() == Put(old(Contents()), nMaxSize, key, value)
    {
      IndexedOnce(listItems, mapIndex, nextNode);
      if key in mapIndex {
        Overwrite(key, value);
        return;
      }
      if nCurrentSize == nMaxSize {
        PruneLast();
      }
      PushFront(key, value);
    }

    method Overwrite(key: K, value: V)
      requires Valid() && key in mapIndex
      modifies this`listItems
      ensures Valid() && IndexOf(old(Contents()), key) >= 0
      ensures Contents() == old(Contents())[IndexOf(old(Contents()), key) := (key, value)]
    {
      IndexedOnce(listItems, mapIndex, nextNode);
      Reachable(listItems, mapIndex, nextNode, key);
      var i := Follow(mapIndex[key]);
      IndexUnique(Contents(), key, i);
      Revalued(listItems, mapIndex, nextNode, i, value);
      PairsUpdated(listItems, i, value);
      listItems := listItems[i := listItems[i].(value := value)];
    }

    method PushFront(key: K, value: V)
      requires Valid() && key !in mapIndex
      modifies this
      ensures Valid() && nMaxSize == old(nMaxSize) && Contents() == [(key, value)] + old(Contents())
    {
      Pushed(listItems, mapIndex, nextNode, key, value);
      listItems := [Item(nextNode, key, value)] + listItems;
      mapIndex := mapIndex[key := nextNode];
      nextNode := nextNode + 1;
      nCurrentSize := nCurrentSize + 1;
    }

    method PruneLast()
      requires Valid()
      modifies this
      ensures Valid() && nMaxSize == old(nMaxSize) && mapIndex.Keys <= old(mapIndex.Keys)
      ensures Contents() == if old(Contents()) == [] then [] else old(Contents())[..|old(Contents())| - 1]
    {
      if nCurrentSize < 1 { return; }
      var n := |listItems| - 1;
      RemoveItem(n);
    }

    method Erase(key: K)
      requires Valid()
      modifies this
      ensures Valid() && nMaxSize == old(nMaxSize) && Contents() == Drop(old(Contents()), key)
    {
      IndexedOnce(listItems, mapIndex, nextNode);
      if key !in mapIndex { return; }
      Reachable(listItems, mapIndex, nextNode, key);
      var i := Follow(mapIndex[key]);
      IndexUnique(Contents(), key, i);
      RemoveItem(i);
    }

    /** Takes an item out of the list and the index. */
    method RemoveItem(i: nat)
      requires Valid() && i < |listItems|
      modifies this
      ensures Valid() && nMaxSize == old(nMaxSize) && mapIndex.Keys <= old(mapIndex.Keys)
      ensures Contents() == old(Contents())[..i] + old(Contents())[i + 1..]
    {
      Removed(listItems, mapIndex, nextNode, i);
      mapIndex := mapIndex - {listItems[i].key};
      listItems := listItems[..i] + listItems[i + 1..];
      nCurrentSize := nCurrentSize - 1;
    }

    /** Makes a new index for the list. */
    method RebuildIndex()
      modifies this`mapIndex
      ensures mapIndex == Rebuilt(listItems)
    {
      mapIndex := map[];
      var i := 0;
      while i < |listItems|
        invariant 0 <= i <= |listItems| && mapIndex == Rebuilt(listItems[..i])
      {
        assert listItems[..i + 1][..i] == listItems[..i];
        mapIndex := mapIndex[listItems[i].key := listItems[i].node];
        i := i + 1;
      }
      assert listItems[..i] == listItems;
    }

    method Clear()
      modifies this
      ensures Valid() && Contents() == [] && nMaxSize == old(nMaxSize)
    {
      mapIndex, listItems, nCurrentSize := map[], [], 0;
    }
  }
}
