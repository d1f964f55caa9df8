/** A search of the skip list interleaved, load by load, with inserts, store by store, under
    sequentially consistent memory (db/skiplist.h 260-368).

    Inserts are serialised by their caller, so nothing changes the list during the search an
    insert begins with; that search is one step.  Searches only read, so one search at a
    time stands for any number of them.  `FindGreaterOrEqual`, `FindLessThan` and `FindLast`
    load the same links in the same order, `FindLast` for a target after all keys (None); the
    first returns the link `after`, the other two the node `before`. */
module SkipListRuns {
  import opened InternalKeys
  import opened SkipLists
  import opened SkipListOperations

  datatype Writer = Idle | Inserting(x: nat, prev: seq<nat>, level: nat, prepared: bool)

  /** A finished search: the link it returns and the node before it. */
  datatype Reader = Resting | Searching(target: Option<int>, x: nat, level: nat) | Found(target: Option<int>,
    before: nat, after: Option<nat>)

  datatype State = State(nodes: seq<Node>, maxHeight: nat, writer: Writer, reader: Reader)

  datatype Step = BeginInsert(key: int, height: nat,
                              prev: seq<nat>) | StoreNext | BeginSearch(target: Option<int>) | LoadNext

  ghost predicate Init(s: State) {
    s == State([Node(0, [None, None, None, None, None, None, None, None, None, None, None, None])], 1, Idle, Resting)
  }

  /** Search, new height, new node: nothing links to the node yet. */
  ghost predicate BeginInsertStep(s: State, s': State, key: int, height: nat, prev: seq<nat>) {
    && s.writer.Idle? && 1 <= height <= MAX_HEIGHT && |prev| == MAX_HEIGHT
    && (forall c :: Chain(s.nodes, 0, c) ==> key !in KeysOf(s.nodes, c))
    && (forall l :: s.maxHeight <= l < height ==> prev[l] == 0)
    && (forall l, c :: 0 <= l < s.maxHeight && l < MAX_HEIGHT && Chain(s.nodes, l, c) ==>
          prev[l] < |s.nodes| && l < |s.nodes[prev[l]].next| &&
            Around(s.nodes, c, Some(key), prev[l], s.nodes[prev[l]].next[l]))
    && s' == s.(nodes := s.nodes + [Node(key, seq(height, _ => None))],
                maxHeight := if height > s.maxHeight then height else s.maxHeight,
                writer := Inserting(|s.nodes|, prev, 0, false))
  }

  /** One store of the linking loop: to the new node's own link, then to the link before it. */
  ghost predicate StoreNextStep(s: State, s': State) {
    && s.writer.Inserting?
    && var w := s.writer;
       && w.x < |s.nodes| && w.level < |w.prev| && w.prev[w.level] < |s.nodes|
       && w.level < |s.nodes[w.x].next| && w.level < |s.nodes[w.prev[w.level]].next|
       && if !w.prepared then
            s' == s.(nodes := SetNext(s.nodes, w.x, w.level, s.nodes[w.prev[w.level]].next[w.level]),
                     writer := w.(prepared := true))
          else
            s' == s.(nodes := SetNext(s.nodes, w.prev[w.level], w.level, Some(w.x)),
                     writer := if w.level + 1 < |s.nodes[w.x].next| then w.(level := w.level + 1, prepared := false)
                       else Idle)
  }

  ghost predicate BeginSearchStep(s: State, s': State, target: Option<int>) {
    && !s.reader.Searching? && s.maxHeight > 0
    && s' == s.(reader := Searching(target, 0, s.maxHeight - 1))
  }

  /** One load of the search loop. */
  ghost predicate LoadNextStep(s: State, s': State) {
    && s.reader.Searching?
    && var r := s.reader;
       && r.x < |s.nodes| && r.level < |s.nodes[r.x].next|
       && var next := s.nodes[r.x].next[r.level];
          && (next.Some? ==> next.value < |s.nodes|)
          && s' == s.(reader :=
               if next.Some? && IsBefore(s.nodes[next.value].key, r.target) then r.(x := next.value)
               else if r.level > 0 then r.(level := r.level - 1)
               else Found(r.target, r.x, next))
  }

  ghost predicate NextStep(s: State, s': State, step: Step) {
    match step
    case BeginInsert(key, height, prev) => BeginInsertStep(s, s', key, height, prev)
    case StoreNext => StoreNextStep(s, s')
    case BeginSearch(target) => BeginSearchStep(s, s', target)
    case LoadNext => LoadNextStep(s, s')
  }

  ghost predicate Run(states: seq<State>, steps: seq<Step>) {
    && |states| == |steps| + 1 && Init(states[0])
    && forall i :: 0 <= i < |steps| ==> NextStep(states[i], states[i + 1], steps[i])
  }

  // ---- the invariant ----

  ghost predicate WriterOk(s: State, chains: seq<seq<nat>>) {
    s.writer.Inserting? ==>
      && Linking(s.nodes, s.maxHeight, chains, s.writer.x, s.writer.prev, s.writer.level)
      && s.writer.x < |s.nodes| && s.writer.level < |s.nodes[s.writer.x].next|
      && (s.writer.prepared ==> Prepared(s.nodes, s.writer.x, s.writer.prev, s.writer.level))
  }

  ghost predicate ReaderOk(s: State, chains: seq<seq<nat>>) {
    s.reader.Searching? ==> SearchOk(s.nodes, chains, s.reader.target, s.reader.x, s.reader.level)
  }

  /** Every level is a sorted sublist of the level below, at every moment. */
  ghost predicate InvWith(s: State, chains: seq<seq<nat>>) {
    ListOk(s.nodes, s.maxHeight, chains) && WriterOk(s, chains) && ReaderOk(s, chains)
  }

  /** Nodes stay in their levels and keep their keys and heights. */
  ghost predicate Grows(s: State, chains: seq<seq<nat>>, s': State, chains': seq<seq<nat>>) {
    && |chains| == MAX_HEIGHT == |chains'| && |s.nodes| <= |s'.nodes|
    && (forall n :: 0 <= n < |s.nodes| ==> s'.nodes[n].key == s.nodes[n].key && |s'.nodes[n].next| == |s.nodes[n].next|)
    && (forall l :: 0 <= l < MAX_HEIGHT ==> Within(chains[l], chains'[l]))
  }

  lemma SearchKept(s: State, chains: seq<seq<nat>>, s': State, chains': seq<seq<nat>>)
    requires Grows(s, chains, s', chains') && ReaderOk(s, chains) && s'.reader == s.reader
    ensures ReaderOk(s', chains')
  {
    if s.reader.Searching? { assert Within(chains[s.reader.level], chains'[s.reader.level]); }
  }

  lemma InitInv(s: State) returns (chains: seq<seq<nat>>)
    requires Init(s)
    ensures InvWith(s, chains)
  {
    chains := seq(MAX_HEIGHT, _ => [0]);
    forall l | 0 <= l < MAX_HEIGHT ensures Chain(s.nodes, l, chains[l]) {
      assert LinkAt(s.nodes, l, chains[l], 0);
    }
  }

  lemma BeginInsertInv(s: State, chains: seq<seq<nat>>, s': State, key: int, height: nat, prev: seq<nat>)
    requires InvWith(s, chains) && BeginInsertStep(s, s', key, height, prev)
    ensures InvWith(s', chains) && Grows(s, chains, s', chains)
  {
    hide Chain, Around, Placed, KeysOf;
    assert |chains| == MAX_HEIGHT;
    forall l | 0 <= l < s.maxHeight ensures PrevAt(s.nodes, chains, Some(key), l, prev[l]) {
      assert Chain(s.nodes, l, chains[l]);
    }
    assert Chain(s.nodes, 0, chains[0]);
    PrevsPlaced(s.nodes, s.maxHeight, chains, key, prev);
    forall l | 0 <= l < height ensures Placed(s.nodes, chains[l], prev[l], key) {
      if l >= s.maxHeight { HeadPlaced(s.nodes, s.maxHeight, chains, l, key); }
    }
    var node := Node(key, seq(height, _ => None));
    AllocateKeeps(s.nodes, s.maxHeight, chains, node, prev);
    SearchKept(s, chains, s', chains);
  }

  lemma StoreNextInv(s: State, chains: seq<seq<nat>>, s': State) returns (chains': seq<seq<nat>>)
    requires InvWith(s, chains) && StoreNextStep(s, s')
    ensures InvWith(s', chains') && Grows(s, chains, s', chains')
  {
    hide ListOk, Linking, Prepared;
    var w := s.writer;
    HeightOk(s.nodes, s.maxHeight, chains);
    chains' := chains;
    if !w.prepared {
      PrepareKeeps(s.nodes, s.maxHeight, chains, w.x, w.prev, w.level);
    } else {
      chains' := LinkKeeps(s.nodes, s.maxHeight, chains, w.x, w.prev, w.level);
    }
    SearchKept(s, chains, s', chains');
  }

  lemma NextInv(s: State, chains: seq<seq<nat>>, s': State, step: Step) returns (chains': seq<seq<nat>>)
    requires InvWith(s, chains) && NextStep(s, s', step)
    ensures InvWith(s', chains') && Grows(s, chains, s', chains')
  {
    hide ListOk, Linking, Prepared, SearchOk, BeginInsertStep, StoreNextStep;
    HeightOk(s.nodes, s.maxHeight, chains);
    chains' := chains;
    match step
    case BeginInsert(key, height, prev) => BeginInsertInv(s, chains, s', key, height, prev);
    case StoreNext => chains' := StoreNextInv(s, chains, s');
    case BeginSearch(target) => SearchStart(s.nodes, s.maxHeight, chains, target, s.maxHeight - 1);
    case LoadNext => SearchStep(s.nodes, s.maxHeight, chains, s.reader.target, s.reader.x, s.reader.level);
  }

  /** At every moment of every run the levels are sorted sublists of one another, and between
      any two moments nodes only join them. */
  lemma {:induction false} RunInv(states: seq<State>, steps: seq<Step>, i: nat, j: nat)
    returns (chains: seq<seq<nat>>, chains': seq<seq<nat>>)
    requires Run(states, steps) && i <= j < |states|
    ensures InvWith(states[i], chains) && InvWith(states[j], chains') && Grows(states[i], chains, states[j], chains')
    decreases j
  {
    hide InvWith, Init, NextStep;
    if j == 0 {
      chains := InitInv(states[0]);
      chains' := chains;
      GrowsSame(states[0], chains);
    } else if i < j {
      var mid;
      chains, mid := RunInv(states, steps, i, j - 1);
      chains' := NextInv(states[j - 1], mid, states[j], steps[j - 1]);
    } else {
      var first, mid := RunInv(states, steps, j - 1, j - 1);
      chains := NextInv(states[j - 1], mid, states[j], steps[j - 1]);
      chains' := chains;
      GrowsSame(states[j], chains);
    }
  }

  lemma GrowsSame(s: State, chains: seq<seq<nat>>)
    requires InvWith(s, chains)
    ensures Grows(s, chains, s, chains)
  {
  }

  // ---- what a search returns ----

  /** In the bottom list of `s`, `before` is the last node before the target and `after` the
      first node at or after it. */
  ghost predicate Answers(s: State, target: Option<int>, before: nat, after: Option<nat>) {
    exists c :: Chain(s.nodes, 0, c) && Around(s.nodes, c, target, before, after)
  }

  /** A search that finishes while inserts go on returns what is right at some moment after it
      began and before it ended. */
  lemma {:induction false} SearchLinearizes(states: seq<State>, steps: seq<Step>, i: nat, j: nat) returns (k: nat)
    requires Run(states, steps) && i < j < |states| && steps[i].BeginSearch? && states[j].reader.Found?
    requires forall m :: i < m < j ==> !steps[m].BeginSearch?
    ensures i < k < j && Answers(states[k], steps[i].target, states[j].reader.before, states[j].reader.after)
    ensures states[j].reader.target == steps[i].target
  {
    hide InvWith, Init, BeginInsertStep, Answers;
    SearchTarget(states, steps, i, j);
    assert NextStep(states[j - 1], states[j], steps[j - 1]);
    SameReader(states[j - 1], states[j], steps[j - 1]);
    if steps[j - 1].LoadNext? {
      var first, chains := RunInv(states, steps, j - 1, j - 1);
      LastLoad(states[j - 1], chains, states[j]);
      SearchTarget(states, steps, i, j - 1);
      k := j - 1;
    } else {
      assert j - 1 > i by { assert NextStep(states[i], states[i + 1], steps[i]); }
      k := SearchLinearizes(states, steps, i, j - 1);
    }
  }

  lemma SameReader(s: State, s': State, step: Step)
    requires NextStep(s, s', step)
    ensures step.BeginInsert? || step.StoreNext? ==> s'.reader == s.reader
  {
  }

  lemma {:induction false} SearchTarget(states: seq<State>, steps: seq<Step>, i: nat, j: nat)
    requires Run(states, steps) && i < j < |states| && steps[i].BeginSearch?
    requires forall m :: i < m < j ==> !steps[m].BeginSearch?
    ensures !states[j].reader.Resting? && states[j].reader.target == steps[i].target
  {
    hide Init, BeginInsertStep;
    assert NextStep(states[j - 1], states[j], steps[j - 1]);
    SameReader(states[j - 1], states[j], steps[j - 1]);
    if i < j - 1 { SearchTarget(states, steps, i, j - 1); }
  }

  /** The last load of a search decides its answer. */
  lemma LastLoad(s: State, chains: seq<seq<nat>>, s': State)
    requires InvWith(s, chains) && LoadNextStep(s, s') && s'.reader.Found?
    ensures s'.reader.target == s.reader.target && Answers(s, s.reader.target, s'.reader.before, s'.reader.after)
  {
    hide Around, Linking, Prepared;
    var r := s.reader;
    SearchStep(s.nodes, s.maxHeight, chains, r.target, r.x, r.level);
    assert Chain(s.nodes, 0, chains[0]);
    assert Around(s.nodes, chains[0], r.target, s'.reader.before, s'.reader.after);
  }

  // ---- nothing that was there is missed ----

  lemma {:induction false} ChainUnique(nodes: seq<Node>, l: nat, c: seq<nat>, d: seq<nat>, n: nat)
    requires Chain(nodes, l, c) && Chain(nodes, l, d) && n < |c|
    ensures n < |d| && c[n] == d[n]
  {
    if n > 0 {
      ChainUnique(nodes, l, c, d, n - 1);
      ChainOrder(nodes, l, c, n - 1, n);
      ChainOrder(nodes, l, d, n - 1, n - 1);
    }
  }

  /** A node that was in the bottom list when the search began and is at or after the target
      is not passed over: the search returns it or one with a smaller key. */
  lemma SearchMissesNothing(states: seq<State>, steps: seq<Step>, i: nat, j: nat, c: seq<nat>, n: nat)
    requires Run(states, steps) && i < j < |states| && steps[i].BeginSearch? && states[j].reader.Found?
    requires forall m :: i < m < j ==> !steps[m].BeginSearch?
    requires Chain(states[i].nodes, 0, c) && n in c && 0 < n < |states[i].nodes|
    requires !IsBefore(states[i].nodes[n].key, steps[i].target)
    ensures var r := states[j].reader.after;
      r.Some? && r.value < |states[j].nodes| && states[j].nodes[r.value].key <= states[i].nodes[n].key
  {
    hide InvWith, NextStep, Init, Around;
    var k := SearchLinearizes(states, steps, i, j);
    var r := states[j].reader.after;
    var d :| Chain(states[k].nodes, 0, d) && Around(states[k].nodes, d, steps[i].target, states[j].reader.before, r);
    var chains, chains' := RunInv(states, steps, i, k);
    InBottom(states[i], chains, c, n);
    assert Within(chains[0], chains'[0]);
    InBottomBack(states[k], chains', d, n);
    FirstIsLeast(states[k].nodes, d, steps[i].target, states[j].reader.before, r, n);
    var again, last := RunInv(states, steps, k, j);
  }

  lemma InBottom(s: State, chains: seq<seq<nat>>, c: seq<nat>, n: nat)
    requires InvWith(s, chains) && Chain(s.nodes, 0, c) && n in c
    ensures n in chains[0]
  {
    var i := ChainNode(s.nodes, 0, c, n);
    ChainUnique(s.nodes, 0, c, chains[0], i);
  }

  lemma InBottomBack(s: State, chains: seq<seq<nat>>, c: seq<nat>, n: nat)
    requires InvWith(s, chains) && Chain(s.nodes, 0, c) && n in chains[0]
    ensures n in c
  {
    var i := ChainNode(s.nodes, 0, chains[0], n);
    ChainUnique(s.nodes, 0, chains[0], c, i);
  }

  lemma FirstIsLeast(nodes: seq<Node>, c: seq<nat>, target: Option<int>, p: nat, q: Option<nat>, n: nat)
    requires Around(nodes, c, target, p, q) && n in c && 0 < n < |nodes| && !IsBefore(nodes[n].key, target)
    ensures q.Some? && q.value < |nodes| && nodes[q.value].key <= nodes[n].key
  {
  }

  // ---- the searches of backward iteration ----

  /** The three searches at once, by the keys in the list at some moment of the search:
      `FindLessThan` and `FindLast` return the node of the largest key before the target,
      `FindGreaterOrEqual` that of the smallest key at or after it. */
  lemma SearchesLinearize(states: seq<State>, steps: seq<Step>, i: nat, j: nat) returns (k: nat, keys: set<int>)
    requires Run(states, steps) && i < j < |states| && steps[i].BeginSearch? && states[j].reader.Found?
    requires forall m :: i < m < j ==> !steps[m].BeginSearch?
    ensures i < k < j && (exists c :: Chain(states[k].nodes, 0, c) && keys == KeysOf(states[k].nodes, c))
    ensures var before, after := states[j].reader.before, states[j].reader.after;
      && LastBefore(states[k].nodes, keys, steps[i].target, if before == 0 then None else Some(before))
      && (steps[i].target.Some? ==> FirstFrom(states[k].nodes, keys, steps[i].target.value, after))
      && (steps[i].target.None? ==> after == None)
  {
    hide Around, NextStep, Init, KeysOf, Chain, LastBefore, FirstFrom;
    k := SearchLinearizes(states, steps, i, j);
    var nodes, before, after := states[k].nodes, states[j].reader.before, states[j].reader.after;
    var c :| Chain(nodes, 0, c) && Around(nodes, c, steps[i].target, before, after);
    keys := KeysOf(nodes, c);
    AroundLast(nodes, c, steps[i].target, before, after);
    if steps[i].target.Some? {
      AroundFirst(nodes, c, steps[i].target.value, before, after);
    } else {
      NothingAfterAll(nodes, c, before, after);
    }
  }

  lemma NothingAfterAll(nodes: seq<Node>, c: seq<nat>, p: nat, q: Option<nat>)
    requires Around(nodes, c, None, p, q)
    ensures q == None
  {
  }

  /** A step back passes over no node that was in the list when it began: the search returns
      it or one with a larger key before the target. */
  lemma SearchBackMissesNothing(states: seq<State>, steps: seq<Step>, i: nat, j: nat, c: seq<nat>, n: nat)
    requires Run(states, steps) && i < j < |states| && steps[i].BeginSearch? && states[j].reader.Found?
    requires forall m :: i < m < j ==> !steps[m].BeginSearch?
    requires Chain(states[i].nodes, 0, c) && n in c && 0 < n < |states[i].nodes|
    requires IsBefore(states[i].nodes[n].key, steps[i].target)
    ensures var r := states[j].reader.before;
      0 < r < |states[j].nodes| && states[i].nodes[n].key <= states[j].nodes[r].key
  {
    hide InvWith, NextStep, Init, Around;
    var k := SearchLinearizes(states, steps, i, j);
    var r := states[j].reader.before;
    var d :| Chain(states[k].nodes, 0, d) && Around(states[k].nodes, d, steps[i].target, r, states[j].reader.after);
    var chains, chains' := RunInv(states, steps, i, k);
    InBottom(states[i], chains, c, n);
    assert Within(chains[0], chains'[0]);
    InBottomBack(states[k], chains', d, n);
    LastIsGreatest(states[k].nodes, d, steps[i].target, r, states[j].reader.after, n);
    var again, last := RunInv(states, steps, k, j);
  }

  lemma LastIsGreatest(nodes: seq<Node>, c: seq<nat>, target: Option<int>, p: nat, q: Option<nat>, n: nat)
    requires Around(nodes, c, target, p, q) && n in c && 0 < n < |nodes| && IsBefore(nodes[n].key, target)
    ensures 0 < p < |nodes| && nodes[n].key <= nodes[p].key
  {
  }
}
