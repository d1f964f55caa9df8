/** The iterator of a memtable (db/memtable.cc, db/skiplist.h) while other threads put entries
    into the list: it behaves as a cursor over the entries it meets. */
module MemIterators {
  import opened InternalKeys
  import opened VersionReads
  import opened Cursors

  datatype Direction = Forward | Reverse

  /** The node of a list and the cursor that its iterator behaves as are on the same entry. */
  ghost predicate Places(list: seq<Entry>, node: nat, seen: Cursor) {
    && Sorted(list) && Sorted(seen.entries) && (forall e :: e in seen.entries ==> e in list)
    && (seen.Valid() <==> node < |list|)
    && (seen.Valid() ==> list[node] == seen.entries[seen.pos])
  }

  /** Moving on in this direction meets no entry of the list that the cursor does not have. */
  ghost predicate Behind(list: seq<Entry>, seen: Cursor, direction: Direction) {
    seen.Valid() ==> forall e :: e in list && e !in seen.entries ==>
      if direction.Forward? then Before(e.key, seen.Key()) else Before(seen.Key(), e.key)
  }

  // ---- finding and moving in a sorted run ----

  lemma SeekIndexIs(run: seq<Entry>, target: InternalKey, i: nat)
    requires i <= |run|
    requires forall j :: 0 <= j < i ==> Before(run[j].key, target)
    requires i < |run| ==> !Before(run[i].key, target)
    ensures SeekIndex(run, target) == i
  {
  }

  lemma SeekIndexOfMember(union: seq<Entry>, n: nat)
    requires Sorted(union) && n < |union|
    ensures SeekIndex(union, union[n].key) == n
  {
    SeekIndexIs(union, union[n].key, n);
  }

  /** An index is where a key is sought if it splits the run at the key. */
  lemma MemberIndex(run: seq<Entry>, e: Entry)
    requires Sorted(run) && e in run
    ensures SeekIndex(run, e.key) < |run| && run[SeekIndex(run, e.key)] == e
  {
    var i :| 0 <= i < |run| && run[i] == e;
    SeekIndexOfMember(run, i);
  }

  lemma Ordered(run: seq<Entry>, a: nat, b: nat)
    requires Sorted(run) && a < |run| && b < |run|
    ensures a < b <==> Before(run[a].key, run[b].key)
  {
    if a < b { SortedIndex(run, a, b); }
    if b < a { SortedIndex(run, b, a); }
  }

  /** The next entry of the list is the next entry of the cursor. */
  lemma NextMet(list: seq<Entry>, node: nat, seen: Cursor)
    requires Places(list, node, seen) && seen.Valid() && Behind(list, seen, Forward) && node + 1 < |list|
    ensures seen.pos + 1 < |seen.entries| && seen.entries[seen.pos + 1] == list[node + 1]
  {
    var i := seen.pos;
    Ordered(list, node, node + 1);
    assert list[node + 1] in list;
    var k :| 0 <= k < |seen.entries| && seen.entries[k] == list[node + 1];
    Ordered(seen.entries, i, k);
    if i + 1 < k {
      assert seen.entries[i + 1] in list;
      var m :| 0 <= m < |list| && list[m] == seen.entries[i + 1];
      Ordered(seen.entries, i, i + 1);
      Ordered(seen.entries, i + 1, k);
      Ordered(list, node, m);
      Ordered(list, m, node + 1);
    }
  }

  lemma NodeNext(list: seq<Entry>, node: nat, seen: Cursor)
    requires Places(list, node, seen) && seen.Valid() && Behind(list, seen, Forward)
    ensures Places(list, node + 1, seen.Next()) && Behind(list, seen.Next(), Forward)
  {
    var i := seen.pos;
    if node + 1 < |list| {
      NextMet(list, node, seen);
      Ordered(seen.entries, i, i + 1);
    } else if i + 1 < |seen.entries| {
      assert seen.entries[i + 1] in list;
      var m :| 0 <= m < |list| && list[m] == seen.entries[i + 1];
      Ordered(seen.entries, i, i + 1);
      Ordered(list, node, m);
    }
  }

  lemma PrevMet(list: seq<Entry>, node: nat, seen: Cursor)
    requires Places(list, node, seen) && seen.Valid() && Behind(list, seen, Reverse) && node > 0
    ensures seen.pos > 0 && seen.entries[seen.pos - 1] == list[node - 1]
  {
    var i := seen.pos;
    Ordered(list, node - 1, node);
    assert list[node - 1] in list;
    var k :| 0 <= k < |seen.entries| && seen.entries[k] == list[node - 1];
    Ordered(seen.entries, k, i);
    if k < i - 1 {
      assert seen.entries[i - 1] in list;
      var m :| 0 <= m < |list| && list[m] == seen.entries[i - 1];
      Ordered(seen.entries, i - 1, i);
      Ordered(seen.entries, k, i - 1);
      Ordered(list, m, node);
      Ordered(list, node - 1, m);
    }
  }

  lemma NodePrev(list: seq<Entry>, node: nat, seen: Cursor)
    requires Places(list, node, seen) && seen.Valid() && Behind(list, seen, Reverse)
    ensures Places(list, if node == 0 then |list| else node - 1, seen.Prev()) && Behind(list, seen.Prev(), Reverse)
  {
    var i := seen.pos;
    if node > 0 {
      PrevMet(list, node, seen);
      Ordered(seen.entries, i - 1, i);
    } else if i > 0 {
      assert seen.entries[i - 1] in list;
      var m :| 0 <= m < |list| && list[m] == seen.entries[i - 1];
      Ordered(seen.entries, i - 1, i);
      Ordered(list, m, node);
    }
  }

  // ---- a list that grows under its iterator ----

  /** Those entries of a run that are in `keep`. */
  ghost function Only(run: seq<Entry>, keep: set<Entry>): seq<Entry> {
    if run == [] then []
    else
      var last := run[|run| - 1];
      Only(run[..|run| - 1], keep) + (if last in keep then [last] else [])
  }

  lemma {:induction false} OnlyMembers(run: seq<Entry>, keep: set<Entry>, e: Entry)
    ensures e in Only(run, keep) <==> e in run && e in keep
  {
    if run != [] {
      OnlyMembers(run[..|run| - 1], keep, e);
      assert run == run[..|run| - 1] + [run[|run| - 1]];
    }
  }

  lemma {:induction false} OnlySorted(run: seq<Entry>, keep: set<Entry>)
    requires Sorted(run)
    ensures Sorted(Only(run, keep))
  {
    if run != [] {
      var init, last := run[..|run| - 1], run[|run| - 1];
      OnlySorted(init, keep);
      var some := Only(init, keep);
      forall k | 0 <= k < |some| ensures Before(some[k].key, last.key) {
        assert some[k] in some;
        OnlyMembers(init, keep, some[k]);
        var m :| 0 <= m < |init| && init[m] == some[k];
        SortedIndex(run, m, |run| - 1);
      }
    }
  }

  /** A cursor that stays on its entry while its run grows. */
  function Regrown(c: Cursor, later: seq<Entry>): Cursor {
    Cursor(later, if c.Valid() then SeekIndex(later, c.Key()) else |later|)
  }

  predicate IsAhead(c: Cursor, e: Entry, direction: Direction) {
    c.Valid() && if direction.Forward? then Before(c.Key(), e.key) else Before(e.key, c.Key())
  }

  /** Every new entry lies ahead of the cursor. */
  ghost predicate Ahead(c: Cursor, later: seq<Entry>, direction: Direction) {
    forall e :: e in later && e !in c.entries ==> IsAhead(c, e, direction)
  }

  /** What the cursor has of a grown list: its own entries and those ahead of it. */
  ghost function Met(c: Cursor, later: seq<Entry>, direction: Direction): seq<Entry> {
    Only(later, set e | e in later && (e in c.entries || IsAhead(c, e, direction)))
  }

  lemma MetIs(list: seq<Entry>, node: nat, seen: Cursor, later: seq<Entry>, direction: Direction)
    requires Places(list, node, seen) && Behind(list, seen, direction)
    requires Sorted(later) && forall e :: e in list ==> e in later
    ensures var met := Met(seen, later, direction);
      && (forall e :: e in seen.entries ==> e in met) && Ahead(seen, met, direction)
      && Places(later, if node < |list| then SeekIndex(later, list[node].key) else |later|, Regrown(seen, met))
      && Behind(later, Regrown(seen, met), direction)
  {
    hide Only, SeekIndex, IsAhead;
    var keep := set e | e in later && (e in seen.entries || IsAhead(seen, e, direction));
    var met := Met(seen, later, direction);
    forall e ensures e in met <==> e in later && (e in seen.entries || IsAhead(seen, e, direction)) {
      OnlyMembers(later, keep, e);
    }
    OnlySorted(later, keep);
    if seen.Valid() {
      assert list[node] in list && seen.entries[seen.pos] in seen.entries;
      MemberIndex(later, list[node]);
      MemberIndex(met, list[node]);
      NotMetIsBehind(seen, later, direction);
    }
  }

  lemma NotMetIsBehind(seen: Cursor, later: seq<Entry>, direction: Direction)
    requires seen.Valid() && Sorted(later) && seen.entries[seen.pos] in later
    ensures forall e :: e in later && e !in seen.entries && !IsAhead(seen, e, direction) ==>
              if direction.Forward? then Before(e.key, seen.Key()) else Before(seen.Key(), e.key)
  {
    var j :| 0 <= j < |later| && later[j] == seen.entries[seen.pos];
    forall e | e in later && e !in seen.entries && !IsAhead(seen, e, direction)
      ensures if direction.Forward? then Before(e.key, seen.Key()) else Before(seen.Key(), e.key)
    {
      var i :| 0 <= i < |later| && later[i] == e;
      assert i != j;
      if i < j { SortedIndex(later, i, j); } else { SortedIndex(later, j, i); }
    }
  }

  // ---- the iterator ----

  /** The iterator of a memtable: a node of its list, into which entries may be put meanwhile.
      An entry put behind the node is not part of `seen`, the cursor that the iterator behaves
      as, until the iterator seeks again. */
  class MemIterator {
    var list: seq<Entry>
    var node: nat // past the end when not valid
    ghost var seen: Cursor

    ghost predicate Valid()
      reads this
    {
      Places(list, node, seen)
    }

    constructor (entries: seq<Entry>)
      requires Sorted(entries)
      ensures Valid() && list == entries && seen == Cursor(entries, |entries|)
    {
      list, node, seen := entries, |entries|, Cursor(entries, |entries|);
    }

    method IsValid() returns (r: bool)
      requires Valid()
      ensures r == seen.Valid()
    {
      r := node < |list|;
    }

    method Current() returns (e: Entry)
      requires Valid() && seen.Valid()
      ensures e == seen.entries[seen.pos]
    {
      e := list[node];
    }

    method SeekToFirst()
      requires Valid()
      modifies this`node, this`seen
      ensures Valid() && seen == Cursor(list, 0).SeekToFirst()
    {
      node := 0;
      seen := Cursor(list, 0);
    }

    method SeekToLast()
      requires Valid()
      modifies this`node, this`seen
      ensures Valid() && seen == Cursor(list, 0).SeekToLast()
    {
      node := if list == [] then 0 else |list| - 1;
      seen := Cursor(list, node);
    }

    method Seek(target: InternalKey)
      requires Valid()
      modifies this`node, this`seen
      ensures Valid() && seen == Cursor(list, 0).Seek(target)
    {
      node := SeekIndex(list, target);
      seen := Cursor(list, node);
    }

    method Next()
      requires Valid() && seen.Valid() && Behind(list, seen, Forward)
      modifies this`node, this`seen
      ensures Valid() && seen == old(seen).Next() && Behind(list, seen, Forward)
    {
      NodeNext(list, node, seen);
      node := node + 1;
      seen := seen.Next();
    }

    method Prev()
      requires Valid() && seen.Valid() && Behind(list, seen, Reverse)
      modifies this`node, this`seen
      ensures Valid() && seen == old(seen).Prev() && Behind(list, seen, Reverse)
    {
      NodePrev(list, node, seen);
      node := if node == 0 then |list| else node - 1;
      seen := seen.Prev();
    }

    /** From here on the cursor has all entries of the list. */
    ghost method Refresh()
      requires Valid() && seen.Valid()
      modifies this`seen
      ensures Valid() && seen == Cursor(list, SeekIndex(list, old(seen).Key()))
    {
      SeekIndexOfMember(list, node);
      seen := Cursor(list, node);
    }

    /** Entries are put into the memtable; the iterator stays on its node. */
    method Grow(later: seq<Entry>, direction: Direction)
      requires Valid() && Behind(list, seen, direction)
      requires Sorted(later) && forall e :: e in list ==> e in later
      modifies this
      ensures Valid() && list == later && Behind(list, seen, direction)
      ensures seen == Regrown(old(seen), seen.entries) && (forall e :: e in old(seen).entries ==> e in seen.entries)
      ensures Ahead(old(seen), seen.entries, direction)
    {
      ghost var met := Met(seen, later, direction);
      MetIs(list, node, seen, later, direction);
      node := if node < |list| then SeekIndex(later, list[node].key) else |later|;
      list := later;
      seen := Regrown(seen, met);
    }
  }
}
