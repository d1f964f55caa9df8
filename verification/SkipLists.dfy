/** The skip list of the memtable (db/skiplist.h): its sequential operations, and one search
    that runs while inserts link their nodes.

    A key is an integer: the list looks at keys only through its comparator.  A node is its
    index in the arena; node 0 is the head, whose key is never looked at. */
module SkipLists {
  import opened InternalKeys

  const MAX_HEIGHT: nat := 12

  datatype Node = Node(key: int, next: seq<Option<nat>>)

  /** The nodes linked at level `l`, head first: each link leads to the next of them, in
      rising order of keys, and the last link is null. */
  ghost predicate Chain(nodes: seq<Node>, l: nat, c: seq<nat>) {
    && |c| > 0 && c[0] == 0
    && (forall i :: 0 <= i < |c| ==> LinkAt(nodes, l, c, i))
    && (forall i, j :: 1 <= i < j < |c| ==> Ascend(nodes, c, i, j))
  }

  ghost predicate LinkAt(nodes: seq<Node>, l: nat, c: seq<nat>, i: nat)
    requires i < |c|
  {
    && c[i] < |nodes| && l < |nodes[c[i]].next| && (i > 0 ==> c[i] != 0)
    && nodes[c[i]].next[l] == if i + 1 < |c| then Some(c[i + 1]) else None
  }

  ghost predicate Ascend(nodes: seq<Node>, c: seq<nat>, i: nat, j: nat)
    requires i < |c| && j < |c|
  {
    c[i] < |nodes| && c[j] < |nodes| && nodes[c[i]].key < nodes[c[j]].key
  }

  /** Every level is a chain and a sublist of the level below. */
  ghost predicate ListOk(nodes: seq<Node>, maxHeight: nat, chains: seq<seq<nat>>) {
    && |chains| == MAX_HEIGHT && 1 <= maxHeight <= MAX_HEIGHT
    && |nodes| > 0 && |nodes[0].next| == MAX_HEIGHT
    && (forall l :: 0 <= l < MAX_HEIGHT ==> Chain(nodes, l, chains[l]))
    && (forall l, m :: 0 <= l < m < MAX_HEIGHT ==> Within(chains[m], chains[l]))
    && (forall l :: maxHeight <= l < MAX_HEIGHT ==> chains[l] == [0])
  }

  ghost predicate Within(c: seq<nat>, d: seq<nat>) {
    forall n :: n in c ==> n in d
  }

  /** A target of None stands for a key after all others. */
  predicate IsBefore(key: int, target: Option<int>) {
    target.None? || key < target.value
  }

  /** Node `n` of a chain comes before the target: it is the head or has a smaller key. */
  predicate NodeBefore(nodes: seq<Node>, n: nat, target: Option<int>)
    requires n < |nodes|
  {
    n == 0 || IsBefore(nodes[n].key, target)
  }

  /** `p` is the last node of the chain before the target and `q` the link that follows it. */
  ghost predicate Around(nodes: seq<Node>, c: seq<nat>, target: Option<int>, p: nat, q: Option<nat>) {
    && p in c && p < |nodes| && NodeBefore(nodes, p, target)
    && (forall n :: n in c ==> n < |nodes|)
    && (forall n :: n in c && NodeBefore(nodes, n, target) ==>
        n == p || n == 0 || (p != 0 && nodes[n].key < nodes[p].key))
    && match q
       case None => forall n :: n in c ==> NodeBefore(nodes, n, target)
       case Some(m) =>
         && m in c && !NodeBefore(nodes, m, target)
         && forall n :: n in c && !NodeBefore(nodes, n, target) ==> n == m || nodes[m].key < nodes[n].key
  }

  /** The neighbours in a chain, by position. */
  lemma AroundAt(nodes: seq<Node>, l: nat, c: seq<nat>, target: Option<int>, i: nat)
    requires Chain(nodes, l, c) && i < |c|
    requires LinkAt(nodes, l, c, i) ==> NodeBefore(nodes, c[i], target)
    requires i + 1 < |c| && LinkAt(nodes, l, c, i + 1) ==> !NodeBefore(nodes, c[i + 1], target)
    ensures c[i] < |nodes| && l < |nodes[c[i]].next| && Around(nodes, c, target, c[i], nodes[c[i]].next[l])
  {
    ChainOrder(nodes, l, c, i, i);
    forall n | n in c ensures n < |nodes| &&
      if NodeBefore(nodes, n, target) then n == c[i] || n == 0 || (c[i] != 0 && nodes[n].key < nodes[c[i]].key)
      else i + 1 < |c| && c[i + 1] < |nodes| && (n == c[i + 1] || nodes[c[i + 1]].key < nodes[n].key)
    {
      var j :| 0 <= j < |c| && c[j] == n;
      ChainOrder(nodes, l, c, i, j);
      if i + 1 < |c| { ChainOrder(nodes, l, c, i + 1, j); }
    }
  }

  lemma ChainOrder(nodes: seq<Node>, l: nat, c: seq<nat>, i: nat, j: nat)
    requires Chain(nodes, l, c) && i < |c| && j < |c|
    ensures LinkAt(nodes, l, c, i) && LinkAt(nodes, l, c, j) && (c[j] == 0 <==> j == 0)
    ensures 1 <= i < j ==> nodes[c[i]].key < nodes[c[j]].key
    ensures 1 <= j < i ==> nodes[c[j]].key < nodes[c[i]].key
  {
    assert LinkAt(nodes, l, c, i) && LinkAt(nodes, l, c, j);
    assert (1 <= i < j ==> Ascend(nodes, c, i, j)) && (1 <= j < i ==> Ascend(nodes, c, j, i));
  }

  lemma ChainNode(nodes: seq<Node>, l: nat, c: seq<nat>, n: nat) returns (i: nat)
    requires Chain(nodes, l, c) && n in c
    ensures i < |c| && c[i] == n && LinkAt(nodes, l, c, i)
  {
    i :| 0 <= i < |c| && c[i] == n;
    assert LinkAt(nodes, l, c, i);
  }

  // ---- linking one level ----

  /** `next[level]` of node `n` set to `m`. */
  function SetNext(nodes: seq<Node>, n: nat, level: nat, m: Option<nat>): seq<Node>
    requires n < |nodes| && level < |nodes[n].next|
  {
    nodes[n := Node(nodes[n].key, nodes[n].next[level := m])]
  }

  /** A store to a link that the chain of level `l` does not follow. */
  lemma ChainKept(nodes: seq<Node>, n: nat, level: nat, m: Option<nat>, l: nat, c: seq<nat>)
    requires Chain(nodes, l, c) && n < |nodes| && level < |nodes[n].next|
    requires l != level || n !in c
    ensures Chain(SetNext(nodes, n, level, m), l, c)
  {
    var nodes' := SetNext(nodes, n, level, m);
    forall i | 0 <= i < |c| ensures LinkAt(nodes', l, c, i) {
      assert LinkAt(nodes, l, c, i) && c[i] in c;
    }
    forall i, j | 1 <= i < j < |c| ensures Ascend(nodes', c, i, j) {
      assert Ascend(nodes, c, i, j);
    }
  }

  /** The chain with node `x` put in after position `i`. */
  function PutIn(c: seq<nat>, i: nat, x: nat): (d: seq<nat>)
    requires i < |c|
    ensures |d| == |c| + 1
    ensures forall j :: 0 <= j < |d| ==> d[j] == if j <= i then c[j] else if j == i + 1 then x else c[j - 1]
    ensures forall n :: n in d <==> n == x || n in c
  {
    var d := c[..i + 1] + [x] + c[i + 1..];
    assert c == c[..i + 1] + c[i + 1..];
    assert forall n :: n in d <==> n in c[..i + 1] || n == x || n in c[i + 1..];
    d
  }

  /** Position `j` of the chain lies on one side of the new node. */
  lemma Sides(nodes: seq<Node>, x: nat, level: nat, c: seq<nat>, i: nat, j: nat)
    requires Chain(nodes, level, c) && i < |c| && j < |c| && 0 < x < |nodes|
    requires Fits(nodes, c, i, nodes[x].key)
    ensures LinkAt(nodes, level, c, j)
    ensures j > 0 ==> if j <= i then nodes[c[j]].key < nodes[x].key else nodes[x].key < nodes[c[j]].key
    ensures j != i ==> c[j] != c[i]
  {
    ChainOrder(nodes, level, c, i, j);
    if i + 1 < |c| { ChainOrder(nodes, level, c, i + 1, j); }
  }

  /** A node with this key belongs after position `i`. */
  ghost predicate Fits(nodes: seq<Node>, c: seq<nat>, i: nat, key: int)
    requires i < |c|
  {
    && c[i] < |nodes| && NodeBefore(nodes, c[i], Some(key))
    && (i + 1 < |c| ==> c[i + 1] < |nodes| && key < nodes[c[i + 1]].key)
  }

  /** Storing the link to a prepared node puts it into the chain of that level, in order. */
  lemma ChainLinked(nodes: seq<Node>, x: nat, level: nat, c: seq<nat>, i: nat)
    requires Chain(nodes, level, c) && i < |c| && 0 < x < |nodes| && level < |nodes[x].next|
    requires Fits(nodes, c, i, nodes[x].key)
    requires LinkAt(nodes, level, c, i) ==> nodes[x].next[level] == nodes[c[i]].next[level]
    ensures x !in c && LinkAt(nodes, level, c, i) && Chain(SetNext(nodes, c[i], level, Some(x)), level, PutIn(c, i, x))
  {
    Sides(nodes, x, level, c, i, i);
    var d, nodes' := PutIn(c, i, x), SetNext(nodes, c[i], level, Some(x));
    forall j | 0 <= j < |c| ensures c[j] != x { Sides(nodes, x, level, c, i, j); }
    forall j | 0 <= j < |d| ensures LinkAt(nodes', level, d, j) {
      Sides(nodes, x, level, c, i, if j <= i then j else j - 1);
    }
    forall j, k | 1 <= j < k < |d| ensures Ascend(nodes', d, j, k) {
      StillAscend(nodes, x, level, c, i, j, k);
    }
  }

  lemma StillAscend(nodes: seq<Node>, x: nat, level: nat, c: seq<nat>, i: nat, j: nat, k: nat)
    requires Chain(nodes, level, c) && i < |c| && 0 < x < |nodes|
    requires Fits(nodes, c, i, nodes[x].key) && 1 <= j < k < |c| + 1
    ensures Ascend(nodes, PutIn(c, i, x), j, k)
  {
    var j', k' := if j <= i then j else j - 1, if k <= i then k else k - 1;
    Sides(nodes, x, level, c, i, j');
    Sides(nodes, x, level, c, i, k');
    ChainOrder(nodes, level, c, j', k');
  }

  // ---- an insert in progress ----

  /** The new node belongs right after `p`. */
  ghost predicate Placed(nodes: seq<Node>, c: seq<nat>, p: nat, key: int) {
    exists i :: 0 <= i < |c| && c[i] == p && Fits(nodes, c, i, key)
  }

  /** Node `x` is linked at the levels below `level` and at no other, and `prev` still names
      the nodes to link it after. */
  ghost predicate Linking(nodes: seq<Node>, maxHeight: nat, chains: seq<seq<nat>>, x: nat, prev: seq<nat>, level: nat) {
    && |chains| == MAX_HEIGHT && 0 < x < |nodes| && level <= |nodes[x].next| <= maxHeight && |nodes[x].next| <= |prev|
    && |nodes[x].next| <= MAX_HEIGHT
    && (forall l :: 0 <= l < level ==> x in chains[l])
    && (forall l :: level <= l < MAX_HEIGHT ==> x !in chains[l])
    && (forall l :: level <= l < |nodes[x].next| ==> Placed(nodes, chains[l], prev[l], nodes[x].key))
  }

  ghost predicate Prepared(nodes: seq<Node>, x: nat, prev: seq<nat>, level: nat) {
    && x < |nodes| && level < |nodes[x].next| && level < |prev| && prev[level] < |nodes|
    && level < |nodes[prev[level]].next|
    && nodes[x].next[level] == nodes[prev[level]].next[level]
  }

  lemma PlacedNode(nodes: seq<Node>, l: nat, c: seq<nat>, p: nat, key: int) returns (i: nat)
    requires Chain(nodes, l, c) && Placed(nodes, c, p, key)
    ensures i < |c| && c[i] == p && Fits(nodes, c, i, key) && LinkAt(nodes, l, c, i)
  {
    i :| 0 <= i < |c| && c[i] == p && Fits(nodes, c, i, key);
    assert LinkAt(nodes, l, c, i);
  }

  lemma PlacedKept(nodes: seq<Node>, nodes': seq<Node>, c: seq<nat>, p: nat, key: int)
    requires Placed(nodes, c, p, key) && |nodes| <= |nodes'|
    requires forall n :: 0 <= n < |nodes| ==> nodes'[n].key == nodes[n].key
    ensures Placed(nodes', c, p, key)
  {
    var i :| 0 <= i < |c| && c[i] == p && Fits(nodes, c, i, key);
    assert Fits(nodes', c, i, key);
  }

  /** First store of a round: the new node's own link, which no reader can reach yet. */
  lemma PrepareKeeps(nodes: seq<Node>, maxHeight: nat, chains: seq<seq<nat>>, x: nat, prev: seq<nat>, level: nat)
    requires ListOk(nodes, maxHeight, chains) && Linking(nodes, maxHeight, chains, x, prev, level)
    requires level < |nodes[x].next|
    ensures prev[level] < |nodes| && level < |nodes[prev[level]].next|
    ensures var nodes' := SetNext(nodes, x, level, nodes[prev[level]].next[level]);
      ListOk(nodes', maxHeight, chains) && Linking(nodes', maxHeight, chains, x, prev, level) &&
        Prepared(nodes', x, prev, level)
  {
    hide Chain, Placed, Within;
    var i := PlacedNode(nodes, level, chains[level], prev[level], nodes[x].key);
    var m := nodes[prev[level]].next[level];
    var nodes' := SetNext(nodes, x, level, m);
    forall l | 0 <= l < MAX_HEIGHT ensures Chain(nodes', l, chains[l]) {
      ChainKept(nodes, x, level, m, l, chains[l]);
    }
    forall l | level <= l < |nodes[x].next| ensures Placed(nodes', chains[l], prev[l], nodes[x].key) {
      PlacedKept(nodes, nodes', chains[l], prev[l], nodes[x].key);
    }
  }

  /** Second store of a round: the node joins the chain of this level. */
  lemma LinkKeeps(nodes: seq<Node>, maxHeight: nat, chains: seq<seq<nat>>, x: nat, prev: seq<nat>, level: nat)
    returns (chains': seq<seq<nat>>)
    requires ListOk(nodes, maxHeight, chains) && Linking(nodes, maxHeight, chains, x, prev, level)
    requires Prepared(nodes, x, prev, level)
    ensures |chains'| == MAX_HEIGHT && forall l :: 0 <= l < MAX_HEIGHT && l != level ==> chains'[l] == chains[l]
    ensures forall n :: n in chains'[level] <==> n == x || n in chains[level]
    ensures var nodes' := SetNext(nodes, prev[level], level, Some(x));
      ListOk(nodes', maxHeight, chains') && Linking(nodes', maxHeight, chains', x, prev, level + 1)
  {
    hide Chain, Placed;
    var i := PlacedNode(nodes, level, chains[level], prev[level], nodes[x].key);
    var nodes' := SetNext(nodes, prev[level], level, Some(x));
    ChainLinked(nodes, x, level, chains[level], i);
    chains' := chains[level := PutIn(chains[level], i, x)];
    forall l | 0 <= l < MAX_HEIGHT && l != level ensures Chain(nodes', l, chains'[l]) {
      ChainKept(nodes, prev[level], level, Some(x), l, chains[l]);
    }
    forall l | level < l < |nodes[x].next| ensures Placed(nodes', chains'[l], prev[l], nodes[x].key) {
      PlacedKept(nodes, nodes', chains[l], prev[l], nodes[x].key);
    }
    forall l, m | 0 <= l < m < MAX_HEIGHT ensures Within(chains'[m], chains'[l]) {
      assert Within(chains[m], chains[l]);
    }
  }

  /** The node the search leaves in `prev` is where a new key belongs. */
  lemma AroundPlaces(nodes: seq<Node>, l: nat, c: seq<nat>, key: int, p: nat, q: Option<nat>)
    requires Chain(nodes, l, c) && Around(nodes, c, Some(key), p, q)
    requires forall n :: n in c && n != 0 ==> nodes[n].key != key
    ensures Placed(nodes, c, p, key)
  {
    var i := ChainNode(nodes, l, c, p);
    if i + 1 < |c| {
      ChainOrder(nodes, l, c, i, i + 1);
      assert c[i + 1] in c;
    }
    assert Fits(nodes, c, i, key);
  }

  /** Raising the height of the list and adding a node that nothing links to yet. */
  lemma AllocateKeeps(nodes: seq<Node>, maxHeight: nat, chains: seq<seq<nat>>, x: Node, prev: seq<nat>)
    requires ListOk(nodes, maxHeight, chains) && 1 <= |x.next| <= MAX_HEIGHT && |x.next| <= |prev|
    requires forall l :: 0 <= l < |x.next| ==> Placed(nodes, chains[l], prev[l], x.key)
    ensures var nodes', height := nodes + [x], if |x.next| > maxHeight then |x.next| else maxHeight;
      ListOk(nodes', height, chains) && Linking(nodes', height, chains, |nodes|, prev, 0)
  {
    hide Placed, Within;
    var nodes' := nodes + [x];
    forall l | 0 <= l < MAX_HEIGHT ensures Chain(nodes', l, chains[l]) && |nodes| !in chains[l] {
      var c := chains[l];
      forall i | 0 <= i < |c| ensures LinkAt(nodes', l, c, i) && c[i] != |nodes| { assert LinkAt(nodes, l, c, i); }
      forall i, j | 1 <= i < j < |c| ensures Ascend(nodes', c, i, j) { assert Ascend(nodes, c, i, j); }
    }
    forall l | 0 <= l < |x.next| ensures Placed(nodes', chains[l], prev[l], x.key) {
      PlacedKept(nodes, nodes', chains[l], prev[l], x.key);
    }
  }

  // ---- one reading step of a search ----

  /** A search stands on a node of its level that comes before the target. */
  ghost predicate SearchOk(nodes: seq<Node>, chains: seq<seq<nat>>, target: Option<int>, x: nat, level: nat) {
    && |chains| == MAX_HEIGHT && level < MAX_HEIGHT && x in chains[level] && x < |nodes| && level < |nodes[x].next|
    && NodeBefore(nodes, x, target)
  }

  /** Moving along the level keeps to it; otherwise the next node is known, and the search may
      go down or, on the bottom level, is done. */
  lemma SearchStep(nodes: seq<Node>, maxHeight: nat, chains: seq<seq<nat>>, target: Option<int>, x: nat, level: nat)
    requires ListOk(nodes, maxHeight, chains) && SearchOk(nodes, chains, target, x, level)
    ensures var next := nodes[x].next[level];
      && (next.Some? ==> next.value < |nodes|)
      && if next.Some? && IsBefore(nodes[next.value].key, target) then
           SearchOk(nodes, chains, target, next.value, level) && x != next.value
         else
           && Around(nodes, chains[level], target, x, next)
           && (level > 0 ==> SearchOk(nodes, chains, target, x, level - 1))
  {
    hide Around, ListOk;
    assert Chain(nodes, level, chains[level]) &&
      (level > 0 ==> Chain(nodes, level - 1, chains[level - 1]) && Within(chains[level], chains[level - 1])) by {
      LevelOk(nodes, maxHeight, chains, level);
    }
    var c := chains[level];
    var i := ChainNode(nodes, level, c, x);
    if i + 1 < |c| { ChainOrder(nodes, level, c, i, i + 1); }
    if !(i + 1 < |c| && IsBefore(nodes[c[i + 1]].key, target)) {
      AroundAt(nodes, level, c, target, i);
      if level > 0 {
        var j := ChainNode(nodes, level - 1, chains[level - 1], x);
      }
    }
  }

  lemma LevelOk(nodes: seq<Node>, maxHeight: nat, chains: seq<seq<nat>>, level: nat)
    requires ListOk(nodes, maxHeight, chains) && level < MAX_HEIGHT
    ensures Chain(nodes, level, chains[level])
    ensures level > 0 ==> Chain(nodes, level - 1, chains[level - 1]) && Within(chains[level], chains[level - 1])
  {
  }

  lemma SearchStart(nodes: seq<Node>, maxHeight: nat, chains: seq<seq<nat>>, target: Option<int>, level: nat)
    requires ListOk(nodes, maxHeight, chains) && level < MAX_HEIGHT
    ensures SearchOk(nodes, chains, target, 0, level)
  {
    var c := chains[level];
    assert Chain(nodes, level, c) && c[0] == 0 && LinkAt(nodes, level, c, 0);
  }
}
