/** The skip list as one thread uses it (db/skiplist.h, `Insert`, the searches and the
    iterator): a sorted set of keys. */
module SkipListOperations {
  import opened InternalKeys
  import opened SkipLists

  /** `p` and the link after it at level `l` surround the target. */
  ghost predicate PrevAt(nodes: seq<Node>, chains: seq<seq<nat>>, target: Option<int>, l: nat, p: nat) {
    l < |chains| && p < |nodes| && l < |nodes[p].next| && Around(nodes, chains[l], target, p, nodes[p].next[l])
  }

  /** The node with the smallest key at or after the target, if there is one. */
  ghost predicate FirstFrom(nodes: seq<Node>, keys: set<int>, target: int, r: Option<nat>) {
    match r
    case None => forall k :: k in keys ==> k < target
    case Some(n) =>
      && 0 < n < |nodes| && nodes[n].key in keys && nodes[n].key >= target
      && forall k :: k in keys && k >= target ==> nodes[n].key <= k
  }

  /** The node with the largest key before the target, if there is one. */
  ghost predicate LastBefore(nodes: seq<Node>, keys: set<int>, target: Option<int>, r: Option<nat>) {
    match r
    case None => forall k :: k in keys ==> !IsBefore(k, target)
    case Some(n) =>
      && 0 < n < |nodes| && nodes[n].key in keys && IsBefore(nodes[n].key, target)
      && forall k :: k in keys && IsBefore(k, target) ==> k <= nodes[n].key
  }

  class SkipList {
    var nodes: seq<Node>
    var maxHeight: nat
    ghost var chains: seq<seq<nat>>

    ghost predicate Valid()
      reads this
    {
      ListOk(nodes, maxHeight, chains)
    }

    /** The keys in the list. */
    ghost function Keys(): set<int>
      requires Valid()
      reads this
    {
      KeysOf(nodes, chains[0])
    }

    constructor ()
      ensures Valid() && Keys() == {}
    {
      nodes, maxHeight := [Node(0, seq(MAX_HEIGHT, _ => None))], 1;
      chains := seq(MAX_HEIGHT, _ => [0]);
    }

    /** The first node at or after `key`, and the node before `key` on each level. */
    method FindGreaterOrEqual(key: int) returns (result: Option<nat>, prev: seq<nat>)
      requires Valid()
      ensures |prev| == MAX_HEIGHT
      ensures forall l :: 0 <= l < maxHeight ==> PrevAt(nodes, chains, Some(key), l, prev[l])
      ensures PrevAt(nodes, chains, Some(key), 0, prev[0]) && result == nodes[prev[0]].next[0]
    {
      hide ListOk, Around, SearchOk;
      prev := seq(MAX_HEIGHT, _ => 0);
      HeightOk(nodes, maxHeight, chains);
      var x: nat, level: nat := 0, maxHeight - 1;
      SearchStart(nodes, maxHeight, chains, Some(key), level);
      ghost var i := PositionOf(nodes, maxHeight, chains, Some(key), x, level);
      while true
        invariant 0 <= level < maxHeight && |prev| == MAX_HEIGHT && SearchOk(nodes, chains, Some(key), x, level)
        invariant PositionIs(nodes, chains, x, level, i)
        invariant forall l :: level < l < maxHeight ==> PrevAt(nodes, chains, Some(key), l, prev[l])
        decreases level, |chains[level]| - i
      {
        SearchStep(nodes, maxHeight, chains, Some(key), x, level);
        PositionStep(nodes, maxHeight, chains, x, level, i);
        var next := nodes[x].next[level];
        if next.Some? && nodes[next.value].key < key {
          x := next.value;
          i := i + 1;
        } else {
          prev := prev[level := x];
          if level == 0 {
            return next, prev;
          }
          level := level - 1;
          i := PositionOf(nodes, maxHeight, chains, Some(key), x, level);
        }
      }
    }

    /** The last node before the target, or the head; with no target, the last node of the
        list (`FindLast`). */
    method FindLessThan(target: Option<int>) returns (x: nat)
      requires Valid()
      ensures PrevAt(nodes, chains, target, 0, x)
    {
      hide ListOk, Around, SearchOk;
      HeightOk(nodes, maxHeight, chains);
      x := 0;
      var level := maxHeight - 1;
      SearchStart(nodes, maxHeight, chains, target, level);
      ghost var i := PositionOf(nodes, maxHeight, chains, target, x, level);
      while true
        invariant 0 <= level < maxHeight && SearchOk(nodes, chains, target, x, level)
        invariant PositionIs(nodes, chains, x, level, i)
        decreases level, |chains[level]| - i
      {
        SearchStep(nodes, maxHeight, chains, target, x, level);
        PositionStep(nodes, maxHeight, chains, x, level, i);
        var next := nodes[x].next[level];
        if next.None? || !IsBefore(nodes[next.value].key, target) {
          if level == 0 {
            return;
          }
          level := level - 1;
          i := PositionOf(nodes, maxHeight, chains, target, x, level);
        } else {
          x := next.value;
          i := i + 1;
        }
      }
    }

    /** Adds a key that is not in the list, as a node of the given height. */
    method Insert(key: int, height: nat)
      requires Valid() && key !in Keys() && 1 <= height <= MAX_HEIGHT
      modifies this
      ensures Valid() && Keys() == old(Keys()) + {key}
      ensures maxHeight == if height > old(maxHeight) then height else old(maxHeight)
      ensures |nodes| == old(|nodes|) + 1 && Gained(old(chains), chains, old(|nodes|), height)
    {
      hide ListOk, Placed, Linking, Prepared, KeysOf, PrevAt;
      ghost var c0 := chains;
      var next, prev := FindGreaterOrEqual(key);
      HeightOk(nodes, maxHeight, chains);
      PrevsPlaced(nodes, maxHeight, chains, key, prev);
      ghost var listHeight := maxHeight;
      if height > maxHeight {
        for l := maxHeight to height
          invariant |prev| == MAX_HEIGHT && maxHeight == listHeight && nodes == old(nodes) && chains == c0
          invariant forall k :: 0 <= k < l ==> Placed(nodes, chains[k], prev[k], key)
        {
          prev := prev[l := 0];
          HeadPlaced(nodes, maxHeight, chains, l, key);
        }
        maxHeight := height;
      }
      var x := |nodes|;
      var node := Node(key, seq(height, _ => None));
      AllocateKeeps(nodes, listHeight, chains, node, prev);
      nodes := nodes + [node];
      Link(x, height, prev);
      KeysGrow(old(nodes), nodes, listHeight, c0, chains[0], x, key);
    }

    /** Links the new node at its levels, the lowest first: its own link, then the one to it. */
    method Link(x: nat, height: nat, prev: seq<nat>)
      requires Valid() && Linking(nodes, maxHeight, chains, x, prev, 0) && |nodes[x].next| == height
      modifies this`nodes, this`chains
      ensures Valid() && SameKeys(old(nodes), nodes) && Gained(old(chains), chains, x, height)
    {
      hide ListOk, Placed, Prepared;
      HeightOk(nodes, maxHeight, chains);
      for l := 0 to height
        invariant ListOk(nodes, maxHeight, chains) && Linking(nodes, maxHeight, chains, x, prev, l)
        invariant SameKeys(old(nodes), nodes) && Gained(old(chains), chains, x, l)
      {
        PrepareKeeps(nodes, maxHeight, chains, x, prev, l);
        nodes := SetNext(nodes, x, l, nodes[prev[l]].next[l]);
        LinkBounds(nodes, maxHeight, chains, x, prev, l);
        chains := LinkKeeps(nodes, maxHeight, chains, x, prev, l);
        nodes := SetNext(nodes, prev[l], l, Some(x));
      }
    }

    method Contains(key: int) returns (r: bool)
      requires Valid()
      ensures r <==> key in Keys()
    {
      var x, prev := FindGreaterOrEqual(key);
      AroundFirst(nodes, chains[0], key, prev[0], x);
      r := x.Some? && nodes[x.value].key == key;
    }

    // ---- iterator ----

    method Seek(target: int) returns (node: Option<nat>)
      requires Valid()
      ensures FirstFrom(nodes, Keys(), target, node)
    {
      ghost var prev;
      node, prev := FindGreaterOrEqual(target);
      AroundFirst(nodes, chains[0], target, prev[0], node);
    }

    method SeekToLast() returns (node: Option<nat>)
      requires Valid()
      ensures LastBefore(nodes, Keys(), None, node)
    {
      var x := FindLessThan(None);
      AroundLast(nodes, chains[0], None, x, nodes[x].next[0]);
      node := if x == 0 then None else Some(x);
    }

    /** Steps back by searching again, since nodes have no link to the one before. */
    method Prev(node: nat) returns (before: Option<nat>)
      requires Valid() && 0 < node < |nodes|
      ensures LastBefore(nodes, Keys(), Some(nodes[node].key), before)
    {
      var x := FindLessThan(Some(nodes[node].key));
      AroundLast(nodes, chains[0], Some(nodes[node].key), x, nodes[x].next[0]);
      before := if x == 0 then None else Some(x);
    }

    /** Steps to the node with the next larger key. */
    method Next(node: nat) returns (after: Option<nat>)
      requires Valid() && 0 < node < |nodes| && node in chains[0]
      ensures FirstFrom(nodes, Keys(), nodes[node].key + 1, after)
    {
      ghost var c := chains[0];
      ghost var i := ChainNode(nodes, 0, c, node);
      if i + 1 < |c| { ChainOrder(nodes, 0, c, i, i + 1); }
      AroundAt(nodes, 0, c, Some(nodes[node].key + 1), i);
      after := nodes[node].next[0];
      AroundFirst(nodes, c, nodes[node].key + 1, node, after);
    }
  }

  ghost function KeysOf(nodes: seq<Node>, c: seq<nat>): set<int> {
    set n | n in c && 0 < n < |nodes| :: nodes[n].key
  }

  lemma HeightOk(nodes: seq<Node>, maxHeight: nat, chains: seq<seq<nat>>)
    requires ListOk(nodes, maxHeight, chains)
    ensures 1 <= maxHeight <= MAX_HEIGHT == |chains| && |nodes| > 0
  {
  }

  // ---- position of a search in its level, for termination ----

  ghost predicate PositionIs(nodes: seq<Node>, chains: seq<seq<nat>>, x: nat, level: nat, i: nat) {
    level < |chains| && i < |chains[level]| && chains[level][i] == x
  }

  lemma PositionOf(nodes: seq<Node>, maxHeight: nat, chains: seq<seq<nat>>, target: Option<int>, x: nat, level: nat)
    returns (i: nat)
    requires ListOk(nodes, maxHeight, chains) && SearchOk(nodes, chains, target, x, level)
    ensures PositionIs(nodes, chains, x, level, i) && x < |nodes| && level < |nodes[x].next|
  {
    i := ChainNode(nodes, level, chains[level], x);
  }

  lemma PositionStep(nodes: seq<Node>, maxHeight: nat, chains: seq<seq<nat>>, x: nat, level: nat, i: nat)
    requires ListOk(nodes, maxHeight, chains) && PositionIs(nodes, chains, x, level, i)
    ensures x < |nodes| && level < |nodes[x].next|
    ensures nodes[x].next[level].Some? ==> PositionIs(nodes, chains, nodes[x].next[level].value, level, i + 1)
  {
    ChainOrder(nodes, level, chains[level], i, i);
  }

  // ---- inserting ----

  lemma PrevsPlaced(nodes: seq<Node>, maxHeight: nat, chains: seq<seq<nat>>, key: int, prev: seq<nat>)
    requires ListOk(nodes, maxHeight, chains) && key !in KeysOf(nodes, chains[0]) && maxHeight <= |prev|
    requires forall l :: 0 <= l < maxHeight ==> PrevAt(nodes, chains, Some(key), l, prev[l])
    ensures forall l :: 0 <= l < maxHeight ==> Placed(nodes, chains[l], prev[l], key)
  {
    hide Placed, Around, Chain;
    forall l | 0 <= l < maxHeight ensures Placed(nodes, chains[l], prev[l], key) {
      assert PrevAt(nodes, chains, Some(key), l, prev[l]);
      forall n | n in chains[l] && n != 0 ensures n < |nodes| && nodes[n].key != key {
        assert l > 0 ==> Within(chains[l], chains[0]);
        var i := ChainNode(nodes, l, chains[l], n);
      }
      AroundPlaces(nodes, l, chains[l], key, prev[l], nodes[prev[l]].next[l]);
    }
  }

  lemma HeadPlaced(nodes: seq<Node>, maxHeight: nat, chains: seq<seq<nat>>, l: nat, key: int)
    requires ListOk(nodes, maxHeight, chains) && maxHeight <= l < MAX_HEIGHT
    ensures Placed(nodes, chains[l], 0, key)
  {
    assert Fits(nodes, chains[l], 0, key);
  }

  ghost predicate SameKeys(was: seq<Node>, nodes: seq<Node>) {
    |nodes| == |was| && forall n :: 0 <= n < |was| ==> nodes[n].key == was[n].key && |nodes[n].next| == |was[n].next|
  }

  /** The chains below `level` have gained the node `x`, the others nothing. */
  ghost predicate Gained(was: seq<seq<nat>>, chains: seq<seq<nat>>, x: nat, level: nat) {
    |was| == MAX_HEIGHT == |chains| && forall l :: 0 <= l < MAX_HEIGHT ==> GainedAt(was[l], chains[l], x, l < level)
  }

  ghost predicate GainedAt(was: seq<nat>, c: seq<nat>, x: nat, gained: bool) {
    forall n :: n in c <==> n in was || (gained && n == x)
  }

  lemma LinkBounds(nodes: seq<Node>, maxHeight: nat, chains: seq<seq<nat>>, x: nat, prev: seq<nat>, level: nat)
    requires Linking(nodes, maxHeight, chains, x, prev, level) && Prepared(nodes, x, prev, level)
    ensures level < |prev| && prev[level] < |nodes| && level < |nodes[prev[level]].next|
  {
  }

  lemma KeysGrow(was: seq<Node>, nodes: seq<Node>, maxHeight: nat, chains: seq<seq<nat>>, c: seq<nat>, x: nat, key: int)
    requires ListOk(was, maxHeight, chains)
    requires |nodes| == |was| + 1 && x == |was| && nodes[x].key == key
    requires forall n :: 0 <= n < |was| ==> nodes[n].key == was[n].key
    requires forall n :: n in c <==> n in chains[0] || n == x
    ensures KeysOf(nodes, c) == KeysOf(was, chains[0]) + {key}
  {
    forall n | n in chains[0] ensures n < |was| {
      var i := ChainNode(was, 0, chains[0], n);
    }
    forall k | k in KeysOf(was, chains[0]) + {key} ensures k in KeysOf(nodes, c) {
      if k != key {
        var n :| n in chains[0] && 0 < n < |was| && was[n].key == k;
        assert n in c && nodes[n].key == k;
      } else {
        assert x in c && nodes[x].key == k;
      }
    }
  }

  // ---- what the searches find ----

  lemma AroundFirst(nodes: seq<Node>, c: seq<nat>, target: int, p: nat, q: Option<nat>)
    requires Around(nodes, c, Some(target), p, q)
    ensures FirstFrom(nodes, KeysOf(nodes, c), target, q)
    ensures target in KeysOf(nodes, c) <==> q.Some? && nodes[q.value].key == target
  {
    if q.Some? { assert nodes[q.value].key in KeysOf(nodes, c); }
  }

  lemma AroundLast(nodes: seq<Node>, c: seq<nat>, target: Option<int>, p: nat, q: Option<nat>)
    requires Around(nodes, c, target, p, q)
    ensures LastBefore(nodes, KeysOf(nodes, c), target, if p == 0 then None else Some(p))
  {
    if p != 0 { assert nodes[p].key in KeysOf(nodes, c); }
  }
}
