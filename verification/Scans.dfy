/** Scanning a whole snapshot with the iterator (include/leveldb/iterator.h): first to last and
    last to first give the same pairs, and they are the snapshot map. */
module Scans {
  import opened InternalKeys
  import opened MemIterators
  import opened MergingIterators
  import opened DbIterators

  type Pair = (UserKey, string)

  /** Keys and values of the shown entries among the first `n`. */
  ghost function ShownPairs(entries: seq<Entry>, s: nat, n: nat): seq<Pair>
    requires n <= |entries|
  {
    if n == 0 then []
    else if Shown(entries, s, n - 1) then
      ShownPairs(entries, s, n - 1) + [(entries[n - 1].key.user, entries[n - 1].value)]
    else ShownPairs(entries, s, n - 1)
  }

  ghost predicate KeysAscend(pairs: seq<Pair>) {
    forall i, j :: 0 <= i < j < |pairs| ==> pairs[i].0 < pairs[j].0
  }

  lemma {:induction false} ShownPairsAre(entries: seq<Entry>, s: nat, n: nat, p: Pair)
    requires n <= |entries|
    ensures p in ShownPairs(entries, s, n) <==>
            exists i: nat :: i < n && Shown(entries, s, i) && entries[i].key.user == p.0 && entries[i].value == p.1
  {
    hide Shown;
    if n > 0 {
      ShownPairsAre(entries, s, n - 1, p);
      if i: nat :| i < n && Shown(entries, s, i) && entries[i].key.user == p.0 && entries[i].value == p.1 {
        assert i == n - 1 || i < n - 1;
      }
    }
  }

  lemma {:induction false} ShownPairsAscend(entries: seq<Entry>, s: nat, n: nat)
    requires Sorted(entries) && n <= |entries|
    ensures KeysAscend(ShownPairs(entries, s, n))
  {
    hide Shown, Sorted;
    if n > 0 {
      ShownPairsAscend(entries, s, n - 1);
      if Shown(entries, s, n - 1) {
        var init := ShownPairs(entries, s, n - 1);
        forall k | 0 <= k < |init| ensures init[k].0 < entries[n - 1].key.user {
          assert init[k] in init;
          ShownPairsAre(entries, s, n - 1, init[k]);
          var i: nat :| i < n - 1 && Shown(entries, s, i) && entries[i].key.user == init[k].0 &&
            entries[i].value == init[k].1;
          ShownAscend(entries, s, i, n - 1);
        }
      }
    }
  }

  /** Passing entries that are not shown adds no pair. */
  lemma {:induction false} NoPairsBetween(entries: seq<Entry>, s: nat, from: nat, to: nat)
    requires from <= to <= |entries| && forall i: nat :: from <= i < to ==> !Shown(entries, s, i)
    ensures ShownPairs(entries, s, to) == ShownPairs(entries, s, from)
  {
    hide Shown;
    if from < to { NoPairsBetween(entries, s, from, to - 1); }
  }

  /** How far a scan forward has come: up to the shown entry it stands on, or to the end. */
  ghost function Reached(r: Option<nat>, end: nat): nat {
    match r
    case None => end
    case Some(i) => i
  }

  lemma PairsToNext(entries: seq<Entry>, s: nat, from: nat)
    requires from <= |entries|
    ensures Reached(NextShown(entries, s, from), |entries|) <= |entries|
    ensures ShownPairs(entries, s, Reached(NextShown(entries, s, from), |entries|)) == ShownPairs(entries, s, from)
  {
    var r := NextShown(entries, s, from);
    assert r.Some? ==> Shown(entries, s, r.value);
    NoPairsBetween(entries, s, from, Reached(r, |entries|));
  }

  /** What is left to a scan backward: up to and including the shown entry it stands on. */
  ghost function Left(r: Option<nat>): nat {
    match r
    case None => 0
    case Some(i) => i + 1
  }

  lemma PairsToPrev(entries: seq<Entry>, s: nat, to: nat)
    requires to <= |entries|
    ensures Left(PrevShown(entries, s, to)) <= to
    ensures ShownPairs(entries, s, Left(PrevShown(entries, s, to))) == ShownPairs(entries, s, to)
  {
    var r := PrevShown(entries, s, to);
    NoPairsBetween(entries, s, Left(r), to);
  }

  // ---- entries that arrive during the scan ----

  /** Run `c` becomes one list after the other, each with new entries newer than the snapshot;
      `unions` are those of all runs. */
  ghost predicate Arriving(runs: seq<seq<Entry>>, c: nat, lists: seq<seq<Entry>>, unions: seq<seq<Entry>>, s: nat)
    decreases lists
  {
    && |lists| == |unions|
    && (lists != [] ==>
          && Arrives(runs, c, lists[0], unions[0], s)
          && Arriving(runs[c := lists[0]], c, lists[1..], unions[1..], s))
  }

  ghost predicate Arrives(runs: seq<seq<Entry>>, c: nat, list: seq<Entry>, union: seq<Entry>, s: nat) {
    && c < |runs| && Sorted(list) && IsUnion(union, runs[c := list])
    && (forall e :: e in runs[c] ==> e in list)
    && forall e :: e in list && e !in runs[c] ==> e.key.sequence > s
  }

  /** Pairs are in one order only. */
  lemma {:induction false} SamePairs(a: seq<Pair>, b: seq<Pair>)
    requires KeysAscend(a) && KeysAscend(b) && forall p :: p in a <==> p in b
    ensures a == b
  {
    hide KeysAscend;
    EmptyToo(a, b);
    if a != [] {
      LastPair(a, b);
      var i, j := a[..|a| - 1], b[..|b| - 1];
      InitAscends(a);
      InitAscends(b);
      assert a == i + [a[|a| - 1]] && b == j + [b[|b| - 1]];
      forall p ensures p in i <==> p in j {
        LastOnce(a, p);
        LastOnce(b, p);
      }
      SamePairs(i, j);
    }
  }

  lemma EmptyToo(a: seq<Pair>, b: seq<Pair>)
    requires forall p :: p in a <==> p in b
    ensures a == [] <==> b == []
  {
    if a != [] { assert a[0] in a; }
    if b != [] { assert b[0] in b; }
  }

  lemma LastPair(a: seq<Pair>, b: seq<Pair>)
    requires KeysAscend(a) && KeysAscend(b) && a != [] && b != [] && forall p :: p in a <==> p in b
    ensures a[|a| - 1] == b[|b| - 1]
  {
    assert a[|a| - 1] in b && b[|b| - 1] in a;
    var k :| 0 <= k < |b| && b[k] == a[|a| - 1];
    var m :| 0 <= m < |a| && a[m] == b[|b| - 1];
  }

  lemma InitAscends(a: seq<Pair>)
    requires KeysAscend(a) && a != []
    ensures KeysAscend(a[..|a| - 1])
  {
  }

  lemma LastOnce(a: seq<Pair>, p: Pair)
    requires KeysAscend(a) && a != []
    ensures p in a[..|a| - 1] <==> p in a && p != a[|a| - 1]
  {
    assert a == a[..|a| - 1] + [a[|a| - 1]];
    if k :| 0 <= k < |a| - 1 && a[k] == p { assert a[..|a| - 1][k] == p; }
  }

  /** Newer entries change neither the pairs nor how many of them lie before a shown one. */
  lemma PairsGrown(entries: seq<Entry>, more: seq<Entry>, s: nat, i: nat, j: nat)
    requires GrownBy(entries, more, s) && i <= |entries| && j <= |more|
    requires if i < |entries| then j < |more| && more[j] == entries[i] else j == |more|
    ensures ShownPairs(more, s, j) == ShownPairs(entries, s, i)
  {
    hide GrownBy, Shown, ShownPairs, KeysAscend, Sorted;
    GrownParts(entries, more, s);
    ShownPairsAscend(entries, s, i);
    ShownPairsAscend(more, s, j);
    forall p: Pair ensures p in ShownPairs(entries, s, i) <==> p in ShownPairs(more, s, j) {
      PairGrown(entries, more, s, i, j, p);
    }
    SamePairs(ShownPairs(entries, s, i), ShownPairs(more, s, j));
  }

  lemma PairGrown(entries: seq<Entry>, more: seq<Entry>, s: nat, i: nat, j: nat, p: Pair)
    requires GrownBy(entries, more, s) && i <= |entries| && j <= |more|
    requires if i < |entries| then j < |more| && more[j] == entries[i] else j == |more|
    ensures p in ShownPairs(entries, s, i) <==> p in ShownPairs(more, s, j)
  {
    hide GrownBy, Shown, ShownPairs, Sorted;
    GrownParts(entries, more, s);
    ShownPairsAre(entries, s, i, p);
    ShownPairsAre(more, s, j, p);
    if k: nat :| k < i && Shown(entries, s, k) && entries[k].key.user == p.0 && entries[k].value == p.1 {
      assert entries[k] in more;
      var m :| 0 <= m < |more| && more[m] == entries[k];
      ShownGrown(entries, more, s, k, m);
      if i < |entries| { Ordered(entries, k, i); Ordered(more, m, j); }
    }
    if m: nat :| m < j && Shown(more, s, m) && more[m].key.user == p.0 && more[m].value == p.1 {
      ShownVisible(more, s, m);
      assert more[m] in more;
      var k :| 0 <= k < |entries| && entries[k] == more[m];
      ShownGrown(entries, more, s, k, m);
      if i < |entries| { Ordered(entries, k, i); Ordered(more, m, j); }
    }
  }

  lemma ShownVisible(entries: seq<Entry>, s: nat, i: nat)
    requires Shown(entries, s, i)
    ensures i < |entries| && entries[i].key.sequence <= s
  {
  }

  // ---- scanning ----

  lemma OnShown(it: DbIterator)
    requires it.Valid() && it.valid
    ensures it.at < |it.entries| && Shown(it.entries, it.snapshot, it.at)
  {
  }

  /** Puts the next list under child `c`, if there is one. */
  method Receive(it: DbIterator, c: nat, lists: seq<seq<Entry>>, ghost unions: seq<seq<Entry>>)
    returns (lists': seq<seq<Entry>>, ghost unions': seq<seq<Entry>>)
    requires it.Valid() && Arriving(it.runs, c, lists, unions, it.snapshot)
    requires lists != [] ==> c < |it.iter.children| && it.iter.children[c].Mem?
    modifies it`entries, it`runs, it`at, it.Parts()
    ensures it.Valid() && Arriving(it.runs, c, lists', unions', it.snapshot)
    ensures if lists == [] then lists' == [] && it.entries == old(it.entries) && it.at == old(it.at)
            else |lists'| == |lists| - 1
    ensures GrownBy(old(it.entries), it.entries, it.snapshot)
    ensures it.valid ==> it.at < |it.entries| && it.entries[it.at] == old(it.entries[it.at])
  {
    lists', unions' := lists, unions;
    if lists != [] {
      it.Grow(c, lists[0], unions[0]);
      lists', unions' := lists[1..], unions[1..];
    } else {
      it.ReadyParts();
      NotGrown(it.entries, it.snapshot);
    }
  }

  lemma NotGrown(entries: seq<Entry>, s: nat)
    requires Sorted(entries)
    ensures GrownBy(entries, entries, s)
  {
  }

  /** Visits the current pair, after perhaps more entries have arrived. */
  method Visit(it: DbIterator, c: nat, lists: seq<seq<Entry>>, ghost unions: seq<seq<Entry>>)
    returns (pair: Pair, lists': seq<seq<Entry>>, ghost unions': seq<seq<Entry>>)
    requires it.Valid() && it.valid && Arriving(it.runs, c, lists, unions, it.snapshot)
    requires lists != [] ==> c < |it.iter.children| && it.iter.children[c].Mem?
    modifies it`entries, it`runs, it`at, it.Parts()
    ensures it.Valid() && Arriving(it.runs, c, lists', unions', it.snapshot)
    ensures if lists == [] then lists' == [] && it.entries == old(it.entries) && it.at == old(it.at)
            else |lists'| == |lists| - 1
    ensures it.at < |it.entries| && old(it.at) < |old(it.entries)|
    ensures var s := it.snapshot;
      && ShownPairs(it.entries, s, |it.entries|) == ShownPairs(old(it.entries), s, |old(it.entries)|)
      && ShownPairs(it.entries, s, it.at) == ShownPairs(old(it.entries), s, old(it.at))
      && ShownPairs(it.entries, s, it.at + 1) == ShownPairs(it.entries, s, it.at) + [pair]
      && ShownPairs(old(it.entries), s, old(it.at) + 1) == ShownPairs(old(it.entries), s, old(it.at)) + [pair]
  {
    hide DbIterator.Valid, Shown, ShownPairs, Arriving, GrownBy;
    ghost var s, was, i := it.snapshot, it.entries, it.at;
    OnShown(it);
    PairStep(was, s, i);
    lists', unions' := Receive(it, c, lists, unions);
    OnShown(it);
    PairsGrown(was, it.entries, s, i, it.at);
    PairsGrown(was, it.entries, s, |was|, |it.entries|);
    PairStep(it.entries, s, it.at);
    var key := it.Key();
    var value := it.Value();
    pair := (key, value);
  }

  /** From the first pair to the last, while entries arrive in child `c` between the calls. */
  method ScanForward(it: DbIterator, c: nat, lists: seq<seq<Entry>>, ghost unions: seq<seq<Entry>>)
    returns (pairs: seq<Pair>)
    requires it.Valid() && Arriving(it.runs, c, lists, unions, it.snapshot)
    requires lists != [] ==> c < |it.iter.children| && it.iter.children[c].Mem?
    modifies it, it.Parts()
    ensures it.Valid() && !it.valid
    ensures pairs == ShownPairs(old(it.entries), it.snapshot, |old(it.entries)|)
  {
    hide DbIterator.Valid, Shown, NextShown, ShownPairs, Arriving;
    ghost var all, s := ShownPairs(it.entries, it.snapshot, |it.entries|), it.snapshot;
    it.SeekToFirst();
    var rest := lists;
    ghost var more := unions;
    pairs := [];
    PairsToNext(it.entries, s, 0);
    NoPairs(it.entries, s);
    while it.valid
      invariant it.Valid() && Arriving(it.runs, c, rest, more, s) && |rest| <= |lists|
      invariant Reached(it.Position(), |it.entries|) <= |it.entries|
      invariant pairs == ShownPairs(it.entries, s, Reached(it.Position(), |it.entries|))
      invariant ShownPairs(it.entries, s, |it.entries|) == all
      decreases |rest|, |it.entries| - Reached(it.Position(), |it.entries|)
    {
      var pair;
      pair, rest, more := Visit(it, c, rest, more);
      PairsToNext(it.entries, s, it.at + 1);
      ReachedMoves(it.entries, s, it.at);
      pairs := pairs + [pair];
      it.Next();
    }
  }

  lemma ReachedMoves(entries: seq<Entry>, s: nat, at: nat)
    requires at < |entries|
    ensures Reached(NextShown(entries, s, at + 1), |entries|) > at
  {
  }

  lemma NoPairs(entries: seq<Entry>, s: nat)
    ensures ShownPairs(entries, s, 0) == []
  {
  }

  lemma PairStep(entries: seq<Entry>, s: nat, i: nat)
    requires i < |entries| && Shown(entries, s, i)
    ensures ShownPairs(entries, s, i + 1) == ShownPairs(entries, s, i) + [(entries[i].key.user, entries[i].value)]
  {
  }

  /** From the last pair to the first, each put in front, while entries arrive. */
  method ScanBackward(it: DbIterator, c: nat, lists: seq<seq<Entry>>, ghost unions: seq<seq<Entry>>)
    returns (pairs: seq<Pair>)
    requires it.Valid() && Arriving(it.runs, c, lists, unions, it.snapshot)
    requires lists != [] ==> c < |it.iter.children| && it.iter.children[c].Mem?
    modifies it, it.Parts()
    ensures it.Valid() && !it.valid
    ensures pairs == ShownPairs(old(it.entries), it.snapshot, |old(it.entries)|)
  {
    hide DbIterator.Valid, Shown, PrevShown, ShownPairs, Arriving;
    ghost var all, s := ShownPairs(it.entries, it.snapshot, |it.entries|), it.snapshot;
    it.SeekToLast();
    var rest := lists;
    ghost var more := unions;
    pairs := [];
    PairsToPrev(it.entries, s, |it.entries|);
    while it.valid
      invariant it.Valid() && Arriving(it.runs, c, rest, more, s) && |rest| <= |lists|
      invariant Left(it.Position()) <= |it.entries|
      invariant ShownPairs(it.entries, s, Left(it.Position())) + pairs == all
      decreases |rest|, Left(it.Position())
    {
      var pair;
      pair, rest, more := Visit(it, c, rest, more);
      PairsToPrev(it.entries, s, it.at);
      pairs := [pair] + pairs;
      it.Prev();
    }
    NoPairs(it.entries, s);
  }
}
