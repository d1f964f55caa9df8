/** The merging iterator (table/merger.cc): children over disjoint sorted runs behave as one
    cursor over the sorted union, through any mix of moves, changes of direction and entries put
    into memtables meanwhile. */
module MergingIterators {
  import opened InternalKeys
  import opened VersionReads
  import opened Cursors
  import opened TwoLevelIterators
  import opened MemIterators

  /** `union` is the sorted union of the runs, and no entry is in two of them. */
  ghost predicate IsUnion(union: seq<Entry>, runs: seq<seq<Entry>>) {
    && Sorted(union)
    && (forall i :: 0 <= i < |runs| ==> Sorted(runs[i]))
    && (forall i, e :: 0 <= i < |runs| && e in runs[i] ==> e in union)
    && (forall e :: e in union ==> exists i :: 0 <= i < |runs| && e in runs[i])
    && (forall i, j, a, b :: 0 <= i < j < |runs| && a in runs[i] && b in runs[j] ==> a.key != b.key)
  }

  /** How many entries of `run` are among the first `n` of the union. */
  function Count(run: seq<Entry>, union: seq<Entry>, n: nat): nat
    requires n <= |union|
  {
    if n < |union| then SeekIndex(run, union[n].key) else |run|
  }

  function RunsOf(children: seq<Cursor>): (runs: seq<seq<Entry>>)
    ensures |runs| == |children|
    ensures forall i :: 0 <= i < |runs| ==> runs[i] == children[i].entries
  {
    seq(|children|, i requires 0 <= i < |children| => children[i].entries)
  }

  /** Forward: each child stands at its first entry outside the first `n` of the union. */
  ghost predicate AtCut(c: Cursor, union: seq<Entry>, n: nat)
    requires n <= |union|
  {
    c.pos == Count(c.entries, union, n)
  }

  /** Backward: each child stands at its last entry among the first `n` of the union. */
  ghost predicate BeforeCut(c: Cursor, union: seq<Entry>, n: nat)
    requires n <= |union|
  {
    var k := Count(c.entries, union, n);
    if k == 0 then !c.Valid() else c.pos == k - 1
  }

  // ---- counting ----

  lemma CountBound(run: seq<Entry>, union: seq<Entry>, n: nat)
    requires n <= |union|
    ensures Count(run, union, n) <= |run|
  {
  }

  /** Where an entry of a run lies in the union. */
  lemma InUnion(run: seq<Entry>, union: seq<Entry>, j: nat) returns (m: nat)
    requires j < |run| && forall e :: e in run ==> e in union
    ensures m < |union| && union[m] == run[j]
  {
    assert run[j] in run;
    m :| 0 <= m < |union| && union[m] == run[j];
  }

  /** Before the cut: exactly the entries of the run that the union holds before `n`. */
  lemma CountSplits(run: seq<Entry>, union: seq<Entry>, n: nat, j: nat, m: nat)
    requires Sorted(run) && Sorted(union) && n <= |union| && j < |run| && m < |union| && union[m] == run[j]
    ensures j < Count(run, union, n) <==> m < n
  {
    if n < |union| {
      SortedIndex(union, m, n);
      var i := SeekIndex(run, union[n].key);
      if i < |run| { SortedIndex(run, j, i); }
    }
  }

  /** Moving the cut over one entry moves the count of the run that holds it. */
  lemma CountStep(run: seq<Entry>, union: seq<Entry>, n: nat)
    requires Sorted(run) && Sorted(union) && n < |union|
    requires forall e :: e in run ==> e in union
    ensures Count(run, union, n + 1) == Count(run, union, n) + (if union[n] in run then 1 else 0)
    ensures union[n] in run ==> Count(run, union, n) < |run| && run[Count(run, union, n)] == union[n]
    ensures union[n] !in run && Count(run, union, n) < |run| ==> Before(union[n].key, run[Count(run, union, n)].key)
  {
    hide Count;
    var k, k' := Count(run, union, n), Count(run, union, n + 1);
    CountBound(run, union, n);
    CountBound(run, union, n + 1);
    forall j | 0 <= j < |run| ensures (j < k' <==> (j < k || run[j] == union[n])) && (run[j] == union[n] ==> k <= j) {
      var m := InUnion(run, union, j);
      CountSplits(run, union, n, j, m);
      CountSplits(run, union, n + 1, j, m);
      SortedIndex(union, m, n);
      SortedIndex(union, n, m);
    }
    if k < |run| {
      var m := InUnion(run, union, k);
      CountSplits(run, union, n, k, m);
      assert run[k] in run;
      SortedIndex(union, n, m);
      SortedIndex(union, m, n);
    }
    assert (k < |run| ==> run[k] in run) && (k' < |run| ==> run[k'] in run);
    if union[n] in run {
      var j :| 0 <= j < |run| && run[j] == union[n];
      SortedIndex(run, k, j);
      if k + 1 < |run| { SortedIndex(run, k, k + 1); }
    }
  }

  lemma CountFirst(run: seq<Entry>, union: seq<Entry>)
    requires Sorted(run) && Sorted(union) && forall e :: e in run ==> e in union
    ensures Count(run, union, 0) == 0
  {
    CountBound(run, union, 0);
    if run != [] {
      var m := InUnion(run, union, 0);
      CountSplits(run, union, 0, 0, m);
    }
  }

  lemma CountSeek(run: seq<Entry>, union: seq<Entry>, target: InternalKey)
    requires Sorted(run) && Sorted(union) && forall e :: e in run ==> e in union
    ensures SeekIndex(run, target) == Count(run, union, SeekIndex(union, target))
  {
    hide Count;
    var n := SeekIndex(union, target);
    var i := Count(run, union, n);
    CountBound(run, union, n);
    forall j | 0 <= j < |run| ensures j < i <==> Before(run[j].key, target) {
      var m := InUnion(run, union, j);
      CountSplits(run, union, n, j, m);
      if m > n { SortedIndex(union, n, m); }
    }
    SeekIndexIs(run, target, i);
  }

  // ---- finding the current child ----

  ghost predicate AllAtCut(children: seq<Cursor>, union: seq<Entry>, n: nat)
    requires n <= |union|
  {
    forall i :: 0 <= i < |children| ==> AtCut(children[i], union, n)
  }

  ghost predicate AllBeforeCut(children: seq<Cursor>, union: seq<Entry>, n: nat)
    requires n <= |union|
  {
    forall i :: 0 <= i < |children| ==> BeforeCut(children[i], union, n)
  }

  ghost predicate IsUnionOf(union: seq<Entry>, children: seq<Cursor>) {
    IsUnion(union, RunsOf(children))
  }

  /** The child that holds an entry of the union, and the only one. */
  lemma Holder(children: seq<Cursor>, union: seq<Entry>, n: nat) returns (h: nat)
    requires IsUnionOf(union, children) && n < |union|
    ensures h < |children| && union[n] in children[h].entries
    ensures forall i :: 0 <= i < |children| && i != h ==> union[n] !in children[i].entries
  {
    var runs := RunsOf(children);
    assert union[n] in union;
    h :| 0 <= h < |runs| && union[n] in runs[h];
    forall i | 0 <= i < |children| && i != h ensures union[n] !in children[i].entries {
      RunsApart(runs, union, i, h, union[n]);
    }
  }

  lemma RunsApart(runs: seq<seq<Entry>>, union: seq<Entry>, i: nat, h: nat, e: Entry)
    requires IsUnion(union, runs) && i < |runs| && h < |runs| && i != h && e in runs[h]
    ensures e !in runs[i]
  {
  }

  ghost predicate Smallest(children: seq<Cursor>, i: nat) {
    && i < |children| && children[i].Valid()
    && forall j :: 0 <= j < |children| && children[j].Valid() ==> NotAfter(children[i].Key(), children[j].Key())
  }

  ghost predicate Largest(children: seq<Cursor>, i: nat) {
    && i < |children| && children[i].Valid()
    && forall j :: 0 <= j < |children| && children[j].Valid() ==> NotAfter(children[j].Key(), children[i].Key())
  }

  lemma ChildAtCut(c: Cursor, union: seq<Entry>, n: nat)
    requires Sorted(c.entries) && Sorted(union) && n < |union| && AtCut(c, union, n)
    requires forall e :: e in c.entries ==> e in union
    ensures union[n] in c.entries ==> c.Valid() && c.entries[c.pos] == union[n]
    ensures union[n] !in c.entries && c.Valid() ==> Before(union[n].key, c.Key())
  {
    CountStep(c.entries, union, n);
  }

  lemma ChildBeforeCut(c: Cursor, union: seq<Entry>, n: nat)
    requires Sorted(c.entries) && Sorted(union) && 0 < n <= |union| && BeforeCut(c, union, n)
    requires forall e :: e in c.entries ==> e in union
    ensures union[n - 1] in c.entries ==> c.Valid() && c.entries[c.pos] == union[n - 1]
    ensures union[n - 1] !in c.entries && c.Valid() ==> Before(c.Key(), union[n - 1].key)
  {
    CountStep(c.entries, union, n - 1);
    CountBound(c.entries, union, n);
  }

  lemma ChildRun(children: seq<Cursor>, union: seq<Entry>, i: nat)
    requires IsUnionOf(union, children) && i < |children|
    ensures Sorted(children[i].entries) && Sorted(union)
    ensures forall e :: e in children[i].entries ==> e in union
  {
    assert RunsOf(children)[i] == children[i].entries;
  }

  /** At a cut the smallest child key is the next entry of the union. */
  lemma SmallestAtCut(children: seq<Cursor>, union: seq<Entry>, n: nat, i: nat)
    requires IsUnionOf(union, children) && n <= |union| && AllAtCut(children, union, n) && Smallest(children, i)
    ensures n < |union| && children[i].entries[children[i].pos] == union[n]
  {
    hide IsUnionOf;
    assert AtCut(children[i], union, n);
    ChildRun(children, union, i);
    var h := Holder(children, union, n);
    assert AtCut(children[h], union, n);
    ChildRun(children, union, h);
    ChildAtCut(children[h], union, n);
    ChildAtCut(children[i], union, n);
  }

  /** Before a cut the largest child key is the last entry of the union in front of it. */
  lemma LargestBeforeCut(children: seq<Cursor>, union: seq<Entry>, n: nat, i: nat)
    requires IsUnionOf(union, children) && n <= |union| && AllBeforeCut(children, union, n) && Largest(children, i)
    ensures n > 0 && children[i].entries[children[i].pos] == union[n - 1]
  {
    hide IsUnionOf, Count;
    assert BeforeCut(children[i], union, n);
    ChildRun(children, union, i);
    CountFirst(children[i].entries, union);
    var h := Holder(children, union, n - 1);
    assert BeforeCut(children[h], union, n);
    ChildRun(children, union, h);
    ChildBeforeCut(children[h], union, n);
    ChildBeforeCut(children[i], union, n);
  }

  lemma NoneAtCut(children: seq<Cursor>, union: seq<Entry>, n: nat)
    requires IsUnionOf(union, children) && n <= |union| && AllAtCut(children, union, n)
    requires forall i :: 0 <= i < |children| ==> !children[i].Valid()
    ensures n == |union|
  {
    hide IsUnionOf;
    if n < |union| {
      var h := Holder(children, union, n);
      ChildRun(children, union, h);
      ChildAtCut(children[h], union, n);
    }
  }

  lemma NoneBeforeCut(children: seq<Cursor>, union: seq<Entry>, n: nat)
    requires IsUnionOf(union, children) && n <= |union| && AllBeforeCut(children, union, n)
    requires forall i :: 0 <= i < |children| ==> !children[i].Valid()
    ensures n == 0
  {
    hide IsUnionOf;
    if n > 0 {
      var h := Holder(children, union, n - 1);
      ChildRun(children, union, h);
      ChildBeforeCut(children[h], union, n);
    }
  }

  // ---- moving children across the cut ----

  /** A child steps over the entry of the union it holds; the others stay. */
  lemma StepForward(c: Cursor, union: seq<Entry>, n: nat)
    requires Sorted(c.entries) && Sorted(union) && n < |union| && AtCut(c, union, n)
    requires forall e :: e in c.entries ==> e in union
    ensures union[n] in c.entries ==> c.Valid() && AtCut(c.Next(), union, n + 1)
    ensures union[n] !in c.entries ==> AtCut(c, union, n + 1)
  {
    hide Count;
    CountStep(c.entries, union, n);
  }

  lemma StepBackward(c: Cursor, union: seq<Entry>, n: nat)
    requires Sorted(c.entries) && Sorted(union) && 0 < n <= |union| && BeforeCut(c, union, n)
    requires forall e :: e in c.entries ==> e in union
    ensures union[n - 1] in c.entries ==> c.Valid() && BeforeCut(c.Prev(), union, n - 1)
    ensures union[n - 1] !in c.entries ==> BeforeCut(c, union, n - 1)
  {
    hide Count;
    CountStep(c.entries, union, n - 1);
  }

  /** Change of direction at entry `n` of the union: a child that does not hold it is sent to
      the other side of it; the child that holds it stays. */
  lemma TurnForward(c: Cursor, union: seq<Entry>, n: nat)
    requires Sorted(c.entries) && Sorted(union) && n < |union|
    requires forall e :: e in c.entries ==> e in union
    ensures AtCut(c.Seek(union[n].key), union, n)
    ensures BeforeCut(c, union, n + 1) && union[n] in c.entries ==> AtCut(c, union, n)
  {
    hide Count;
    CountStep(c.entries, union, n);
    SeekIndexOfMember(union, n);
    CountSeek(c.entries, union, union[n].key);
  }

  lemma TurnBackward(c: Cursor, union: seq<Entry>, n: nat)
    requires Sorted(c.entries) && Sorted(union) && n < |union|
    requires forall e :: e in c.entries ==> e in union
    ensures var d := c.Seek(union[n].key);
      union[n] !in c.entries ==> BeforeCut(if d.Valid() then d.Prev() else d.SeekToLast(), union, n + 1)
    ensures AtCut(c, union, n) && union[n] in c.entries ==> BeforeCut(c, union, n + 1)
  {
    hide Count;
    CountStep(c.entries, union, n);
    CountBound(c.entries, union, n);
    SeekIndexOfMember(union, n);
    CountSeek(c.entries, union, union[n].key);
  }

  // ---- what is merged ----

  /** Memtables, and tables or whole levels of them. */
  datatype Child = Mem(run: MemIterator) | Table(it: TwoLevelIterator) {
    ghost function Obj(): object {
      match this
      case Mem(run) => run
      case Table(it) => it
    }

    ghost predicate Ok()
      reads Obj()
    {
      match this
      case Mem(run) => run.Valid()
      case Table(it) => it.Valid()
    }

    /** The cursor this child behaves as. */
    ghost function View(): Cursor
      requires Ok()
      reads Obj()
    {
      match this
      case Mem(run) => run.seen
      case Table(it) => it.Abstract()
    }

    /** All entries this child has by now. */
    ghost function Full(): seq<Entry>
      requires Ok()
      reads Obj()
    {
      match this
      case Mem(run) => run.list
      case Table(it) => it.Abstract().entries
    }

    method IsValid() returns (r: bool)
      requires Ok()
      ensures r == View().Valid()
    {
      match this
      case Mem(run) => r := run.IsValid();
      case Table(it) => r := it.IsValid();
    }

    method Current() returns (e: Entry)
      requires Ok() && View().Valid()
      ensures e == View().entries[View().pos]
    {
      match this
      case Mem(run) => e := run.Current();
      case Table(it) => e := it.Current();
    }

    method SeekToFirst()
      requires Ok()
      modifies Obj()
      ensures Ok() && Full() == old(Full()) && View() == Cursor(Full(), 0).SeekToFirst()
    {
      hide Places;
      match this
      case Mem(run) => run.SeekToFirst();
      case Table(it) => it.SeekToFirst();
    }

    method SeekToLast()
      requires Ok()
      modifies Obj()
      ensures Ok() && Full() == old(Full()) && View() == Cursor(Full(), 0).SeekToLast()
    {
      hide Places;
      match this
      case Mem(run) => run.SeekToLast();
      case Table(it) => it.SeekToLast();
    }

    method Seek(target: InternalKey)
      requires Ok()
      modifies Obj()
      ensures Ok() && Full() == old(Full()) && View() == Cursor(Full(), 0).Seek(target)
    {
      hide Places;
      match this
      case Mem(run) => run.Seek(target);
      case Table(it) => it.Seek(target);
    }

    method Next()
      requires Ok() && View().Valid() && Behind(Full(), View(), Forward)
      modifies Obj()
      ensures Ok() && Full() == old(Full()) && View() == old(View()).Next() && Behind(Full(), View(), Forward)
    {
      hide Places;
      match this
      case Mem(run) => run.Next();
      case Table(it) => it.Next();
    }

    method Prev()
      requires Ok() && View().Valid() && Behind(Full(), View(), Reverse)
      modifies Obj()
      ensures Ok() && Full() == old(Full()) && View() == old(View()).Prev() && Behind(Full(), View(), Reverse)
    {
      hide Places;
      match this
      case Mem(run) => run.Prev();
      case Table(it) => it.Prev();
    }

    ghost method Refresh()
      requires Ok() && View().Valid() && Sorted(Full())
      modifies if Mem? then {run} else {}
      ensures Ok() && Full() == old(Full()) && View() == Cursor(Full(), SeekIndex(Full(), old(View()).Key()))
    {
      match this
      case Mem(run) => run.Refresh();
      case Table(it) => SeekIndexOfMember(it.Abstract().entries, it.Abstract().pos);
    }
  }

  lemma ViewWithin(c: Child)
    requires c.Ok()
    ensures forall e :: e in c.View().entries ==> e in c.Full()
  {
  }

  ghost function Objects(children: seq<Child>): set<object> {
    set i | 0 <= i < |children| :: children[i].Obj()
  }

  /** No two children share state. */
  ghost predicate Separate(children: seq<Child>) {
    forall i, j :: 0 <= i < j < |children| ==> children[i].Obj() != children[j].Obj()
  }

  /** The children behave as these cursors and have these entries. */
  ghost predicate Mirrors(children: seq<Child>, views: seq<Cursor>, runs: seq<seq<Entry>>)
    reads Objects(children)
  {
    && |views| == |runs| == |children|
    && forall i :: 0 <= i < |children| ==>
         children[i].Ok() && children[i].View() == views[i] && children[i].Full() == runs[i]
  }

  // ---- the iterator ----

  ghost predicate AllBehind(runs: seq<seq<Entry>>, views: seq<Cursor>, direction: Direction) {
    |runs| == |views| && forall i :: 0 <= i < |runs| ==> Behind(runs[i], views[i], direction)
  }

  ghost predicate AllWithin(runs: seq<seq<Entry>>, views: seq<Cursor>) {
    |runs| == |views| && forall i, e :: 0 <= i < |runs| && e in views[i].entries ==> e in runs[i]
  }

  class MergingIterator {
    const children: seq<Child>
    var current: Option<nat>
    var direction: Direction
    ghost var full: seq<Entry> // the union of all that the children have by now
    ghost var runs: seq<seq<Entry>>
    ghost var union: seq<Entry> // the union of the cursors that the children behave as
    ghost var views: seq<Cursor>
    ghost var at: nat // where a single cursor on that union would stand

    /** The objects this iterator moves. */
    ghost function Parts(): set<object> {
      Objects(children)
    }

    /** The views are what the children behave as. */
    ghost predicate Linked()
      reads this`views, this`runs, Parts()
    {
      Separate(children) && this !in Parts() && Mirrors(children, views, runs)
    }

    ghost predicate Valid()
      reads this, Parts()
    {
      && Linked() && Merged(union, views, at, current, direction)
      && IsUnion(full, runs) && AllBehind(runs, views, direction)
    }

    /** The single cursor this iterator behaves as. */
    ghost function Abstract(): Cursor
      reads this
    {
      Cursor(union, at)
    }

    constructor (children: seq<Child>, ghost views: seq<Cursor>, ghost union: seq<Entry>)
      requires Separate(children) && Mirrors(children, views, RunsOf(views)) && IsUnionOf(union, views)
      ensures Valid() && Abstract() == Cursor(union, |union|) && full == union
      ensures this.children == children && runs == RunsOf(views)
    {
      this.children, current, direction := children, None, Forward;
      this.views, this.union, full, runs, at := views, union, union, RunsOf(views), |union|;
    }

    method IsValid() returns (r: bool)
      requires Valid()
      ensures r == Abstract().Valid()
    {
      r := current.Some?;
    }

    lemma UnionWithin(e: Entry)
      requires Valid() && e in union
      ensures e in full
    {
      hide Sorted, AllBehind, TwoLevelIterator.Valid, TwoLevelIterator.Abstract, Places;
      var i :| 0 <= i < |RunsOf(views)| && e in RunsOf(views)[i];
      ViewWithin(children[i]);
      assert e in runs[i];
    }

    lemma UnionOfRuns()
      requires Valid()
      ensures IsUnion(full, runs)
    {
    }

    lemma UnionInFull()
      requires Valid()
      ensures Sorted(union) && Sorted(full) && forall e :: e in union ==> e in full
    {
      hide AllBehind, TwoLevelIterator.Valid, TwoLevelIterator.Abstract, Places, Mirrors;
      forall e | e in union ensures e in full { UnionWithin(e); }
    }

    // ---- moving one child ----

    method ChildSeekToFirst(i: nat)
      requires Linked() && i < |children|
      modifies this`views, children[i].Obj()
      ensures Linked() && |views| == |old(views)| == |runs| == |children|
      ensures views == old(views)[i := Cursor(runs[i], 0).SeekToFirst()]
    {
      hide Child.Ok, Child.View, Child.Full, SeekIndex;
      children[i].SeekToFirst();
      views := views[i := Cursor(runs[i], 0).SeekToFirst()];
    }

    method ChildSeekToLast(i: nat)
      requires Linked() && i < |children|
      modifies this`views, children[i].Obj()
      ensures Linked() && |views| == |old(views)| == |runs| == |children|
      ensures views == old(views)[i := Cursor(runs[i], 0).SeekToLast()]
    {
      hide Child.Ok, Child.View, Child.Full, SeekIndex;
      children[i].SeekToLast();
      views := views[i := Cursor(runs[i], 0).SeekToLast()];
    }

    method ChildSeek(i: nat, target: InternalKey)
      requires Linked() && i < |children|
      modifies this`views, children[i].Obj()
      ensures Linked() && |views| == |old(views)| == |runs| == |children|
      ensures views == old(views)[i := Cursor(runs[i], 0).Seek(target)]
    {
      hide Child.Ok, Child.View, Child.Full, SeekIndex;
      children[i].Seek(target);
      views := views[i := Cursor(runs[i], 0).Seek(target)];
    }

    method ChildNext(i: nat)
      requires Linked() && i < |children| && i < |views| && i < |runs|
      requires views[i].Valid() && Behind(runs[i], views[i], Forward)
      modifies this`views, children[i].Obj()
      ensures Linked() && |views| == |old(views)| == |runs| == |children|
      ensures views == old(views)[i := old(views[i]).Next()] && Behind(runs[i], views[i], Forward)
    {
      hide Child.Ok, Child.View, Child.Full, SeekIndex, Behind;
      children[i].Next();
      views := views[i := views[i].Next()];
    }

    method ChildPrev(i: nat)
      requires Linked() && i < |children| && i < |views| && i < |runs|
      requires views[i].Valid() && Behind(runs[i], views[i], Reverse)
      modifies this`views, children[i].Obj()
      ensures Linked() && |views| == |old(views)| == |runs| == |children|
      ensures views == old(views)[i := old(views[i]).Prev()] && Behind(runs[i], views[i], Reverse)
    {
      hide Child.Ok, Child.View, Child.Full, SeekIndex, Behind;
      children[i].Prev();
      views := views[i := views[i].Prev()];
    }

    ghost method ChildRefresh(i: nat)
      requires Linked() && i < |children| && i < |views| && i < |runs| && views[i].Valid() && Sorted(runs[i])
      modifies this`views, Parts()
      ensures Linked() && |views| == |old(views)| == |runs| == |children|
      ensures views == old(views)[i := Cursor(runs[i], SeekIndex(runs[i], old(views[i]).Key()))]
    {
      hide Child.Ok, Child.View, Child.Full, SeekIndex;
      children[i].Refresh();
      views := views[i := Cursor(runs[i], SeekIndex(runs[i], views[i].Key()))];
    }

    method ChildIsValid(i: nat) returns (r: bool)
      requires Linked() && i < |children|
      ensures |views| == |children| && r == views[i].Valid()
    {
      r := children[i].IsValid();
    }

    method ChildEntry(i: nat) returns (e: Entry)
      requires Linked() && i < |children| && i < |views| && views[i].Valid()
      ensures e == views[i].entries[views[i].pos]
    {
      e := children[i].Current();
    }

    lemma LinkedParts()
      requires Linked()
      ensures |views| == |children| == |runs| && this !in Parts()
    {
    }

    method Current() returns (e: Entry)
      requires Valid() && Abstract().Valid()
      ensures e == union[at]
    {
      hide Linked, IsUnionOf, IsUnion, AllBehind, AtCut, BeforeCut;
      LinkedParts();
      e := ChildEntry(current.value);
    }

    // ---- finding the current child ----

    method FindSmallest()
      requires Linked()
      modifies this`current
      ensures Linked()
      ensures current.Some? ==> Smallest(views, current.value)
      ensures current.None? ==> forall i :: 0 <= i < |views| ==> !views[i].Valid()
    {
      hide Linked;
      LinkedParts();
      current := None;
      var best := InternalKey(0, 0, Value);
      for i := 0 to |children|
        invariant Linked() && |views| == |children|
        invariant current.None? ==> forall j :: 0 <= j < i ==> !views[j].Valid()
        invariant current.Some? ==> Smallest(views[..i], current.value) && best == views[current.value].Key()
      {
        var ok := ChildIsValid(i);
        if ok {
          var e := ChildEntry(i);
          if current.None? {
            current, best := Some(i), e.key;
          } else if Before(e.key, best) {
            current, best := Some(i), e.key;
          }
        }
      }
      assert views[..|children|] == views;
    }

    method FindLargest()
      requires Linked()
      modifies this`current
      ensures Linked()
      ensures current.Some? ==> Largest(views, current.value)
      ensures current.None? ==> forall i :: 0 <= i < |views| ==> !views[i].Valid()
    {
      hide Linked;
      LinkedParts();
      current := None;
      var best := InternalKey(0, 0, Value);
      for i := |children| downto 0
        invariant Linked() && |views| == |children|
        invariant current.None? ==> forall j :: i <= j < |views| ==> !views[j].Valid()
        invariant current.Some? ==>
                    i <= current.value < |views| && views[current.value].Valid() && best == views[current.value].Key()
        invariant current.Some? ==> forall j :: i <= j < |views| && views[j].Valid() ==>
                    NotAfter(views[j].Key(), views[current.value].Key())
      {
        var ok := ChildIsValid(i);
        if ok {
          var e := ChildEntry(i);
          if current.None? {
            current, best := Some(i), e.key;
          } else if Before(best, e.key) {
            current, best := Some(i), e.key;
          }
        }
      }
    }

    /** After all children stand at the cut, the smallest is the answer. */
    method SettleForward(ghost n: nat)
      requires Linked() && IsUnionOf(union, views) && n <= |union| && AllAtCut(views, union, n)
      requires IsUnion(full, runs) && AllBehind(runs, views, Forward)
      modifies this`current, this`direction, this`at
      ensures Valid() && at == n && direction.Forward?
    {
      hide IsUnionOf, IsUnion, AllBehind, AtCut, Linked;
      LinkedParts();
      FindSmallest();
      direction := Forward;
      at := n;
      if current.Some? {
        SmallestAtCut(views, union, n, current.value);
      } else {
        NoneAtCut(views, union, n);
      }
    }

    method SettleReverse(ghost n: nat)
      requires Linked() && IsUnionOf(union, views) && n <= |union| && AllBeforeCut(views, union, n)
      requires IsUnion(full, runs) && AllBehind(runs, views, Reverse)
      modifies this`current, this`direction, this`at
      ensures Valid() && at == (if n == 0 then |union| else n - 1) && direction.Reverse?
    {
      hide IsUnionOf, IsUnion, AllBehind, BeforeCut, Linked;
      LinkedParts();
      FindLargest();
      direction := Reverse;
      at := if n == 0 then |union| else n - 1;
      if current.Some? {
        LargestBeforeCut(views, union, n, current.value);
      } else {
        NoneBeforeCut(views, union, n);
      }
    }

    /** Entries are put into the memtable of child `c`: this iterator stays on its entry. */
    method Grow(c: nat, later: seq<Entry>, ghost more: seq<Entry>)
      requires Valid() && c < |children| && children[c].Mem? && c < |runs|
      requires Sorted(later) && forall e :: e in runs[c] ==> e in later
      requires IsUnion(more, runs[c := later])
      modifies this, Parts()
      ensures Valid() && full == more && runs == old(runs)[c := later] && direction == old(direction)
      ensures (forall e :: e in old(union) ==> e in union) && Abstract().Valid() == old(Abstract().Valid())
      ensures Abstract().Valid() ==> union[at] == old(union[at])
    {
      hide IsUnionOf, IsUnion, SeekIndex, Ahead, Behind, Merged, AllBehind, AllWithin, SeenOf, TwoLevelIterator.Valid,
        TwoLevelIterator.Abstract, Places;
      LinkedParts();
      BehindAt(runs, views, direction, c);
      MergedParts(union, views, at, current, direction);
      children[c].run.Grow(later, direction);
      ghost var now := children[c].run.seen;
      ghost var views', runs' := views[c := now], runs[c := later];
      AllWithinNow(children, views', runs');
      PlacesSorted(later, children[c].run.node, now);
      GrownMerged(union, views, at, current, direction, runs, c, later, now, more);
      union, at, full, runs, views := SeenOf(more, views'), Spot(union, at, SeenOf(more, views')), more, runs', views';
    }

    // ---- the moves ----

    method SeekToFirst()
      requires Valid()
      modifies this, Parts()
      ensures Valid() && full == old(full) && runs == old(runs) && direction.Forward?
      ensures Abstract() == Cursor(full, 0).SeekToFirst()
    {
      hide IsUnionOf, IsUnion, AllBehind, Linked;
      LinkedParts();
      for i := 0 to |children|
        invariant Linked() && |views| == |children| && full == old(full) && runs == old(runs)
        invariant forall j :: 0 <= j < i ==> views[j] == Cursor(runs[j], 0).SeekToFirst()
      {
        ChildSeekToFirst(i);
      }
      union := full;
      WholeUnion(full, runs, views);
      FirstCut(views, union);
      SettleForward(0);
    }

    method SeekToLast()
      requires Valid()
      modifies this, Parts()
      ensures Valid() && full == old(full) && runs == old(runs) && direction.Reverse?
      ensures Abstract() == Cursor(full, 0).SeekToLast()
    {
      hide IsUnionOf, IsUnion, AllBehind, Linked;
      LinkedParts();
      for i := 0 to |children|
        invariant Linked() && |views| == |children| && full == old(full) && runs == old(runs)
        invariant forall j :: 0 <= j < i ==> views[j] == Cursor(runs[j], 0).SeekToLast()
      {
        ChildSeekToLast(i);
      }
      union := full;
      WholeUnion(full, runs, views);
      LastCut(views, union);
      SettleReverse(|union|);
    }

    method Seek(target: InternalKey)
      requires Valid()
      modifies this, Parts()
      ensures Valid() && full == old(full) && runs == old(runs) && direction.Forward?
      ensures Abstract() == Cursor(full, 0).Seek(target)
    {
      hide IsUnionOf, IsUnion, AllBehind, Linked, SeekIndex;
      LinkedParts();
      for i := 0 to |children|
        invariant Linked() && |views| == |children| && full == old(full) && runs == old(runs)
        invariant forall j :: 0 <= j < i ==> views[j] == Cursor(runs[j], 0).Seek(target)
      {
        ChildSeek(i, target);
      }
      union := full;
      WholeUnion(full, runs, views);
      SeekCut(views, union, target);
      SettleForward(SeekIndex(union, target));
    }

    /** A child to its first entry after the key. */
    method SeekPast(i: nat, key: InternalKey)
      requires Linked() && i < |children| && i < |runs|
      modifies this`views, Parts()
      ensures Linked() && |views| == |children| == |old(views)|
      ensures var d := Cursor(runs[i], 0).Seek(key);
        views == old(views)[i := if d.Valid() && d.Key() == key then d.Next() else d]
    {
      hide Linked, SeekIndex;
      ChildSeek(i, key);
      var ok := ChildIsValid(i);
      if ok {
        var e := ChildEntry(i);
        if e.key == key {
          ChildNext(i);
        }
      }
    }

    /** A child to its last entry before the key. */
    method SeekBefore(i: nat, key: InternalKey)
      requires Linked() && i < |children| && i < |runs|
      modifies this`views, Parts()
      ensures Linked() && |views| == |children| == |old(views)|
      ensures var d := Cursor(runs[i], 0).Seek(key);
        views == old(views)[i := if d.Valid() then d.Prev() else d.SeekToLast()]
    {
      hide Linked, SeekIndex;
      ChildSeek(i, key);
      var ok := ChildIsValid(i);
      if ok {
        ChildPrev(i);
      } else {
        ChildSeekToLast(i);
      }
    }

    /** Change of direction: the current child keeps its place, now among all of its entries, and
        the others go to the far side of its key. */
    method TurnForward(key: InternalKey)
      requires Valid() && current.Some? && direction.Reverse? && key == union[at].key
      modifies this`views, this`union, this`at, Parts()
      ensures Linked() && union == full && at == SeekIndex(full, key) < |full| && AllBehind(runs, views, Forward)
      ensures IsUnionOf(union, views) && OnEntry(views, current.value, union, at)
      ensures AtCut(views[current.value], union, at)
      ensures forall j :: 0 <= j < |views| && j != current.value ==> AtCut(views[j], union, at + 1)
    {
      hide AtCut, BeforeCut, IsUnionOf, IsUnion, AllBehind, SeekIndex, Linked;
      LinkedParts();
      var c := current.value;
      ghost var n, whole := SeekIndex(full, key), Wholes(runs, key);
      Turned(c);
      ChildRefresh(c);
      for i := 0 to |children|
        invariant Linked() && |views| == |children| && views[c] == whole[c]
        invariant forall j :: 0 <= j < i && j != c ==> views[j].entries == runs[j] && AtCut(views[j], full, n + 1)
      {
        if i != c {
          SoughtPastKey(whole, full, n, c, i);
          SeekPast(i, key);
        }
      }
      union, at := full, n;
      WholeUnion(full, runs, views);
    }

    /** All children but the current one to the near side of its key. */
    method TurnBackward(key: InternalKey)
      requires Valid() && current.Some? && direction.Forward? && key == union[at].key
      modifies this`views, this`union, this`at, Parts()
      ensures Linked() && union == full && at == SeekIndex(full, key) < |full| && AllBehind(runs, views, Reverse)
      ensures IsUnionOf(union, views) && OnEntry(views, current.value, union, at)
      ensures BeforeCut(views[current.value], union, at + 1)
      ensures forall j :: 0 <= j < |views| && j != current.value ==> BeforeCut(views[j], union, at)
    {
      hide AtCut, BeforeCut, IsUnionOf, IsUnion, AllBehind, SeekIndex, Linked;
      LinkedParts();
      var c := current.value;
      ghost var n, whole := SeekIndex(full, key), Wholes(runs, key);
      Turned(c);
      ChildRefresh(c);
      for i := 0 to |children|
        invariant Linked() && |views| == |children| && views[c] == whole[c]
        invariant forall j :: 0 <= j < i && j != c ==> views[j].entries == runs[j] && BeforeCut(views[j], full, n)
      {
        if i != c {
          SoughtBeforeKey(whole, full, n, c, i);
          SeekBefore(i, key);
        }
      }
      CurrentTurnsBackward(whole, full, n, c);
      union, at := full, n;
      WholeUnion(full, runs, views);
    }

    /** The current entry among all entries, and in all of its child's. */
    lemma Turned(c: nat)
      requires Valid() && current == Some(c)
      ensures c < |runs| == |views| && views[c].Valid() && views[c].Key() == union[at].key && Sorted(runs[c])
      ensures var n, whole := SeekIndex(full, union[at].key), Wholes(runs, union[at].key);
        && n < |full| && full[n] == union[at]
        && IsUnionOf(full, whole) && OnEntry(whole, c, full, n) && AtCut(whole[c], full, n)
    {
      hide IsUnionOf, IsUnion, AllBehind, SeekIndex, TwoLevelIterator.Valid, TwoLevelIterator.Abstract, Places;
      var e := union[at];
      UnionWithin(e);
      ViewWithin(children[c]);
      var whole := Wholes(runs, e.key);
      WholeUnion(full, runs, whole);
      ChildRun(whole, full, c);
      UnionSorted(full, whole);
      MemberIndex(full, e);
      MemberIndex(runs[c], e);
    }

    method Next()
      requires Valid() && Abstract().Valid()
      modifies this, Parts()
      ensures Valid() && full == old(full) && runs == old(runs) && direction.Forward?
      ensures if old(direction).Forward? then Abstract() == old(Abstract()).Next()
              else Abstract() == Cursor(full, SeekIndex(full, old(union[at].key)) + 1)
    {
      hide AtCut, BeforeCut, IsUnionOf, IsUnion, AllBehind, SeekIndex, Linked, Behind;
      LinkedParts();
      if direction != Forward {
        var e := ChildEntry(current.value);
        TurnForward(e.key);
        direction := Forward;
      } else {
        OthersPastKey(views, union, at, current.value);
      }
      LinkedParts();
      CurrentSteps(views, union, at, current.value);
      BehindAt(runs, views, Forward, current.value);
      ghost var before := views;
      ChildNext(current.value);
      SameRunsUnion(before, views, union);
      BehindElsewhere(runs, before, Forward, current.value, views);
      SettleForward(at + 1);
    }

    method Prev()
      requires Valid() && Abstract().Valid()
      modifies this, Parts()
      ensures Valid() && full == old(full) && runs == old(runs) && direction.Reverse?
      ensures if old(direction).Reverse? then Abstract() == old(Abstract()).Prev()
              else var n := SeekIndex(full, old(union[at].key));
                Abstract() == Cursor(full, if n == 0 then |full| else n - 1)
    {
      hide AtCut, BeforeCut, IsUnionOf, IsUnion, AllBehind, SeekIndex, Linked, Behind;
      LinkedParts();
      if direction != Reverse {
        var e := ChildEntry(current.value);
        TurnBackward(e.key);
        direction := Reverse;
      } else {
        OthersBeforeKey(views, union, at, current.value);
      }
      LinkedParts();
      CurrentStepsBack(views, union, at, current.value);
      BehindAt(runs, views, Reverse, current.value);
      ghost var before := views;
      ChildPrev(current.value);
      SameRunsUnion(before, views, union);
      BehindElsewhere(runs, before, Reverse, current.value, views);
      SettleReverse(at);
    }
  }

  lemma PlacesSorted(list: seq<Entry>, node: nat, seen: Cursor)
    requires Places(list, node, seen)
    ensures Sorted(seen.entries)
  {
  }

  lemma BehindAt(runs: seq<seq<Entry>>, views: seq<Cursor>, direction: Direction, i: nat)
    requires AllBehind(runs, views, direction) && i < |views|
    ensures |runs| == |views| && Behind(runs[i], views[i], direction)
  {
  }

  lemma BehindElsewhere(runs: seq<seq<Entry>>, before: seq<Cursor>, direction: Direction, i: nat, views: seq<Cursor>)
    requires AllBehind(runs, before, direction) && i < |views| && |views| == |before| && views == before[i := views[i]]
    requires |runs| == |views| && Behind(runs[i], views[i], direction)
    ensures AllBehind(runs, views, direction)
  {
    hide Behind;
  }

  lemma BehindGrown(runs: seq<seq<Entry>>, views: seq<Cursor>, direction: Direction, c: nat, later: seq<Entry>,
                    now: Cursor)
    requires AllBehind(runs, views, direction) && c < |views| && c < |runs| && Behind(later, now, direction)
    ensures AllBehind(runs[c := later], views[c := now], direction)
  {
    hide Behind;
  }

  lemma AllWithinNow(children: seq<Child>, views: seq<Cursor>, runs: seq<seq<Entry>>)
    requires Mirrors(children, views, runs)
    ensures AllWithin(runs, views)
  {
    hide TwoLevelIterator.Valid, TwoLevelIterator.Abstract;
    forall i, e | 0 <= i < |runs| && e in views[i].entries ensures e in runs[i] { ViewWithin(children[i]); }
  }

  /** The entries of a union that some of the cursors have. */
  ghost function SeenOf(union: seq<Entry>, views: seq<Cursor>): seq<Entry> {
    Only(union, set e | e in union && exists i :: 0 <= i < |views| && e in views[i].entries)
  }

  lemma SeenUnion(full: seq<Entry>, runs: seq<seq<Entry>>, views: seq<Cursor>)
    requires IsUnion(full, runs) && AllWithin(runs, views) && forall i :: 0 <= i < |views| ==> Sorted(views[i].entries)
    ensures IsUnionOf(SeenOf(full, views), views)
  {
    hide Sorted, Only;
    var keep := set e | e in full && exists i :: 0 <= i < |views| && e in views[i].entries;
    OnlySorted(full, keep);
    forall e ensures e in SeenOf(full, views) <==> e in full && e in keep { OnlyMembers(full, keep, e); }
    forall i, e | 0 <= i < |views| && e in RunsOf(views)[i] ensures e in SeenOf(full, views) {
      assert e in views[i].entries && e in runs[i];
    }
    forall e | e in SeenOf(full, views) ensures exists i :: 0 <= i < |RunsOf(views)| && e in RunsOf(views)[i] {
      var i :| 0 <= i < |views| && e in views[i].entries;
      assert e in RunsOf(views)[i];
    }
  }

  /** A cursor at the key in each whole run. */
  ghost function Wholes(runs: seq<seq<Entry>>, key: InternalKey): (views: seq<Cursor>)
    ensures |views| == |runs|
    ensures forall i :: 0 <= i < |runs| ==> views[i] == Cursor(runs[i], SeekIndex(runs[i], key))
  {
    seq(|runs|, i requires 0 <= i < |runs| => Cursor(runs[i], SeekIndex(runs[i], key)))
  }

  lemma WholeUnion(full: seq<Entry>, runs: seq<seq<Entry>>, views: seq<Cursor>)
    requires IsUnion(full, runs) && |views| == |runs| && forall i :: 0 <= i < |runs| ==> views[i].entries == runs[i]
    ensures IsUnionOf(full, views) && forall d :: AllBehind(runs, views, d)
  {
    hide IsUnion;
    assert RunsOf(views) == runs;
  }

  lemma UnionMembers(union: seq<Entry>, views: seq<Cursor>, e: Entry)
    requires IsUnionOf(union, views)
    ensures e in union <==> exists i :: 0 <= i < |views| && e in views[i].entries
  {
    if e in union { var i :| 0 <= i < |RunsOf(views)| && e in RunsOf(views)[i]; }
    if i :| 0 <= i < |views| && e in views[i].entries { assert e in RunsOf(views)[i]; }
  }

  lemma GrownMembers(union: seq<Entry>, views: seq<Cursor>, more: seq<Entry>, views': seq<Cursor>)
    requires IsUnionOf(union, views) && IsUnionOf(more, views') && |views| == |views'|
    requires forall i, e :: 0 <= i < |views| && e in views[i].entries ==> e in views'[i].entries
    ensures forall e :: e in union ==> e in more
  {
    hide IsUnionOf;
    forall e | e in union ensures e in more {
      UnionMembers(union, views, e);
      UnionMembers(more, views', e);
      var i :| 0 <= i < |views| && e in views[i].entries;
      assert e in views'[i].entries;
    }
  }

  /** Where the entry at a place of one union is in another. */
  ghost function Spot(union: seq<Entry>, at: nat, more: seq<Entry>): nat {
    if at < |union| then SeekIndex(more, union[at].key) else |more|
  }

  lemma GrownMerged(union: seq<Entry>, views: seq<Cursor>, at: nat, current: Option<nat>, direction: Direction,
                    runs: seq<seq<Entry>>, c: nat, later: seq<Entry>, now: Cursor, more: seq<Entry>)
    requires Merged(union, views, at, current, direction) && AllBehind(runs, views, direction)
    requires c < |views| && c < |runs| && AllWithin(runs[c := later], views[c := now])
    requires IsUnion(more, runs[c := later])
    requires Sorted(now.entries) && now == Regrown(views[c], now.entries) && Ahead(views[c], now.entries, direction)
    requires (forall e :: e in views[c].entries ==> e in now.entries) && Behind(later, now, direction)
    ensures var views' := views[c := now];
      var union' := SeenOf(more, views');
      var at' := Spot(union, at, union');
      && Merged(union', views', at', current, direction) && AllBehind(runs[c := later], views', direction)
      && (forall e :: e in union ==> e in union')
      && (at < |union| <==> at' < |union'|) && (at < |union| ==> union'[at'] == union[at])
  {
    hide IsUnionOf, IsUnion, SeekIndex, Ahead, Behind, Merged, AllBehind, AllWithin, SeenOf, Sorted, Regrown;
    MergedParts(union, views, at, current, direction);
    var views' := views[c := now];
    var union' := SeenOf(more, views');
    forall i | 0 <= i < |views'| ensures Sorted(views'[i].entries) {
      if i != c { ChildRun(views, union, i); }
    }
    SeenUnion(more, runs[c := later], views');
    RegrownMerged(union, views, at, current, direction, c, now.entries, union');
    GrownMembers(union, views, union', views');
    BehindGrown(runs, views, direction, c, later, now);
    if at < |union| {
      UnionSorted(union', views');
      MemberIndex(union', union[at]);
    }
  }

  /** Child `c` stands on entry `n` of the union. */
  ghost predicate OnEntry(views: seq<Cursor>, c: nat, union: seq<Entry>, n: nat) {
    c < |views| && views[c].Valid() && n < |union| && views[c].entries[views[c].pos] == union[n]
  }

  lemma MergedParts(union: seq<Entry>, views: seq<Cursor>, at: nat, current: Option<nat>, direction: Direction)
    requires Merged(union, views, at, current, direction)
    ensures at <= |union| && IsUnionOf(union, views)
  {
  }

  lemma UnionSorted(union: seq<Entry>, views: seq<Cursor>)
    requires IsUnionOf(union, views)
    ensures Sorted(union)
  {
  }

  // ---- a memtable that grows under the iterator ----

  lemma RegrownOn(c: Cursor, later: seq<Entry>)
    requires Sorted(later) && c.Valid() && forall e :: e in c.entries ==> e in later
    ensures Regrown(c, later).Valid() && later[Regrown(c, later).pos] == c.entries[c.pos]
  {
    assert c.entries[c.pos] in c.entries;
    MemberIndex(later, c.entries[c.pos]);
  }

  lemma RegrownAtCut(c: Cursor, later: seq<Entry>, key: InternalKey)
    requires Sorted(c.entries) && Sorted(later) && forall e :: e in c.entries ==> e in later
    requires c.pos == SeekIndex(c.entries, key) && Ahead(c, later, Forward)
    ensures Regrown(c, later).pos == SeekIndex(later, key)
  {
    hide SeekIndex;
    var n := Regrown(c, later).pos;
    if c.Valid() { RegrownOn(c, later); }
    forall j | 0 <= j < n && j < |later| ensures Before(later[j].key, key) {
      if c.Valid() { SortedIndex(later, j, n); }
      assert later[j] in later;
      if later[j] in c.entries {
        var i :| 0 <= i < |c.entries| && c.entries[i] == later[j];
        if c.Valid() { SortedIndex(c.entries, i, c.pos); SortedIndex(c.entries, c.pos, i); }
      }
    }
    SeekIndexIs(later, key, n);
  }

  /** Before the cut after a member of the union: the entries of the run up to its key. */
  lemma CountUpTo(run: seq<Entry>, union: seq<Entry>, n: nat, j: nat)
    requires Sorted(run) && Sorted(union) && n < |union| && j < |run| && forall e :: e in run ==> e in union
    ensures j < Count(run, union, n + 1) <==> NotAfter(run[j].key, union[n].key)
  {
    hide Count;
    var m := InUnion(run, union, j);
    CountSplits(run, union, n + 1, j, m);
    SortedIndex(union, m, n);
    SortedIndex(union, n, m);
  }

  lemma CountSame(run: seq<Entry>, union: seq<Entry>, n: nat, more: seq<Entry>, m: nat)
    requires Sorted(run) && Sorted(union) && Sorted(more) && n < |union| && m < |more| && union[n].key == more[m].key
    requires (forall e :: e in run ==> e in union) && forall e :: e in run ==> e in more
    ensures Count(run, union, n + 1) == Count(run, more, m + 1)
  {
    hide Count;
    var a, b := Count(run, union, n + 1), Count(run, more, m + 1);
    CountBound(run, union, n + 1);
    CountBound(run, more, m + 1);
    if a < b { CountUpTo(run, union, n, a); CountUpTo(run, more, m, a); }
    if b < a { CountUpTo(run, union, n, b); CountUpTo(run, more, m, b); }
  }

  /** An entry of the grown run behind the child's own lies after the cut. */
  lemma PastRegrown(c: Cursor, later: seq<Entry>, union: seq<Entry>, n: nat, j: nat)
    requires Sorted(c.entries) && Sorted(later) && forall e :: e in c.entries ==> e in later
    requires Sorted(union) && n < |union| && forall e :: e in c.entries ==> e in union
    requires BeforeCut(c, union, n + 1) && Ahead(c, later, Reverse)
    requires j < |later| && (c.Valid() ==> Regrown(c, later).pos < j)
    ensures Before(union[n].key, later[j].key)
  {
    hide Count, SeekIndex;
    var k := Count(c.entries, union, n + 1);
    CountBound(c.entries, union, n + 1);
    assert later[j] in later;
    if c.Valid() {
      RegrownOn(c, later);
      SortedIndex(later, Regrown(c, later).pos, j);
      SortedIndex(later, j, Regrown(c, later).pos);
    }
    if later[j] in c.entries {
      var i :| 0 <= i < |c.entries| && c.entries[i] == later[j];
      CountUpTo(c.entries, union, n, i);
      if c.Valid() { SortedIndex(c.entries, c.pos, i); }
    }
  }

  lemma RegrownBeforeCut(c: Cursor, later: seq<Entry>, union: seq<Entry>, n: nat, more: seq<Entry>, m: nat)
    requires Sorted(c.entries) && Sorted(later) && forall e :: e in c.entries ==> e in later
    requires Sorted(union) && Sorted(more) && n < |union| && m < |more| && union[n].key == more[m].key
    requires (forall e :: e in c.entries ==> e in union) && forall e :: e in later ==> e in more
    requires BeforeCut(c, union, n + 1) && Ahead(c, later, Reverse)
    ensures BeforeCut(Regrown(c, later), more, m + 1)
  {
    hide Count, SeekIndex, Ahead;
    var k, d := Count(later, more, m + 1), Regrown(c, later);
    CountBound(later, more, m + 1);
    CountBound(c.entries, union, n + 1);
    if c.Valid() {
      RegrownOn(c, later);
      CountUpTo(c.entries, union, n, c.pos);
      CountUpTo(later, more, m, d.pos);
    }
    var j := if c.Valid() then d.pos + 1 else 0;
    if j < k {
      PastRegrown(c, later, union, n, j);
      CountUpTo(later, more, m, j);
    }
  }

  /** The merged place of an iterator one of whose runs has grown. */
  lemma RegrownMerged(union: seq<Entry>, views: seq<Cursor>, at: nat, current: Option<nat>, direction: Direction,
                      c: nat, later: seq<Entry>, more: seq<Entry>)
    requires Merged(union, views, at, current, direction) && c < |views| && Sorted(later)
    requires forall e :: e in views[c].entries ==> e in later
    requires IsUnionOf(more, views[c := Regrown(views[c], later)])
    requires Ahead(views[c], later, direction)
    ensures at < |union| ==> union[at] in more
    ensures Merged(more, views[c := Regrown(views[c], later)],
                   if at < |union| then SeekIndex(more, union[at].key) else |more|, current, direction)
  {
    hide IsUnionOf, Count, SeekIndex, AtCut, BeforeCut, Ahead, Regrown;
    var views' := views[c := Regrown(views[c], later)];
    if at < |union| {
      var key := union[at].key;
      var at' := SeekIndex(more, key);
      var h := Holder(views, union, at);
      ChildRun(views', more, h);
      RegrownRun(views[c], later);
      assert union[at] in views'[h].entries;
      MemberIndex(more, union[at]);
      CurrentRegrown(views, current.value, c, later);
      forall i | 0 <= i < |views'| ensures
          && (direction.Forward? ==> AtCut(views'[i], more, at'))
          && (direction.Reverse? ==> BeforeCut(views'[i], more, at' + 1))
      {
        ChildRun(views, union, i);
        ChildRun(views', more, i);
        ChildRegrown(views[i], union, at, more, at', direction, i == c, later);
      }
    }
  }

  lemma RegrownRun(c: Cursor, later: seq<Entry>)
    ensures Regrown(c, later).entries == later
  {
  }

  lemma CurrentRegrown(views: seq<Cursor>, h: nat, c: nat, later: seq<Entry>)
    requires h < |views| && c < |views| && views[h].Valid() && Sorted(later)
    requires forall e :: e in views[c].entries ==> e in later
    ensures var v := views[c := Regrown(views[c], later)][h];
      v.Valid() && v.entries[v.pos] == views[h].entries[views[h].pos]
  {
    if h == c { RegrownOn(views[c], later); }
  }

  lemma ChildRegrown(c: Cursor, union: seq<Entry>, at: nat, more: seq<Entry>, at': nat, direction: Direction,
                     grown: bool, later: seq<Entry>)
    requires Sorted(c.entries) && Sorted(union) && Sorted(more) && at < |union| && at' < |more|
    requires union[at] == more[at'] && forall e :: e in c.entries ==> e in union
    requires if grown then
               && Sorted(later) && (forall e :: e in c.entries ==> e in later) && (forall e :: e in later ==> e in more)
               && Ahead(c, later, direction)
             else forall e :: e in c.entries ==> e in more
    ensures var d := if grown then Regrown(c, later) else c;
      && (direction.Forward? && AtCut(c, union, at) ==> AtCut(d, more, at'))
      && (direction.Reverse? && BeforeCut(c, union, at + 1) ==> BeforeCut(d, more, at' + 1))
  {
    hide SeekIndex, Ahead;
    if direction.Forward? && AtCut(c, union, at) && grown { RegrownAtCut(c, later, union[at].key); }
    if direction.Reverse? && BeforeCut(c, union, at + 1) {
      if grown {
        RegrownBeforeCut(c, later, union, at, more, at');
      } else {
        CountSame(c.entries, union, at, more, at');
      }
    }
  }

  /** Where the children stand when the single cursor is at position `at` of the union. */
  ghost predicate Merged(union: seq<Entry>, views: seq<Cursor>, at: nat, current: Option<nat>, direction: Direction) {
    && IsUnionOf(union, views) && at <= |union|
    && (current.Some? <==> at < |union|)
    && (current.Some? ==>
          && current.value < |views| && views[current.value].Valid()
          && views[current.value].entries[views[current.value].pos] == union[at])
    && (current.Some? && direction.Forward? ==> AllAtCut(views, union, at))
    && (current.Some? && direction.Reverse? ==> AllBeforeCut(views, union, at + 1))
  }

  // ---- what the moves do to the children ----

  lemma FirstCut(children: seq<Cursor>, union: seq<Entry>)
    requires IsUnionOf(union, children) && forall i :: 0 <= i < |children| ==> children[i].pos == 0
    ensures AllAtCut(children, union, 0)
  {
    hide IsUnionOf, Count;
    forall i | 0 <= i < |children| ensures AtCut(children[i], union, 0) {
      ChildRun(children, union, i);
      CountFirst(children[i].entries, union);
    }
  }

  lemma LastCut(children: seq<Cursor>, union: seq<Entry>)
    requires forall i :: 0 <= i < |children| ==> children[i] == children[i].SeekToLast()
    ensures AllBeforeCut(children, union, |union|)
  {
  }

  lemma SeekCut(children: seq<Cursor>, union: seq<Entry>, target: InternalKey)
    requires IsUnionOf(union, children) && forall i :: 0 <= i < |children| ==> children[i] == children[i].Seek(target)
    ensures AllAtCut(children, union, SeekIndex(union, target))
  {
    hide IsUnionOf, Count, SeekIndex;
    forall i | 0 <= i < |children| ensures AtCut(children[i], union, SeekIndex(union, target)) {
      ChildRun(children, union, i);
      CountSeek(children[i].entries, union, target);
    }
  }

  /** The current child holds the current entry; no other child does. */
  lemma OnlyHolder(children: seq<Cursor>, union: seq<Entry>, n: nat, c: nat, i: nat)
    requires IsUnionOf(union, children) && n < |union| && c < |children| && i < |children| && children[c].Valid()
    requires children[c].entries[children[c].pos] == union[n]
    ensures i != c <==> union[n] !in children[i].entries
  {
    hide IsUnionOf;
    var h := Holder(children, union, n);
    assert union[n] in children[c].entries;
  }

  lemma SoughtPastKey(children: seq<Cursor>, union: seq<Entry>, n: nat, c: nat, i: nat)
    requires IsUnionOf(union, children) && n < |union| && c < |children| && i < |children| && children[c].Valid()
    requires i != c
    requires children[c].entries[children[c].pos] == union[n]
    ensures var d := children[i].Seek(union[n].key);
      AtCut(if d.Valid() && d.Key() == union[n].key then d.Next() else d, union, n + 1)
  {
    hide IsUnionOf, Count, SeekIndex;
    OnlyHolder(children, union, n, c, i);
    ChildRun(children, union, i);
    TurnForward(children[i], union, n);
    var d := children[i].Seek(union[n].key);
    StepForward(d, union, n);
    ChildAtCut(d, union, n);
  }

  lemma SoughtBeforeKey(children: seq<Cursor>, union: seq<Entry>, n: nat, c: nat, i: nat)
    requires IsUnionOf(union, children) && n < |union| && c < |children| && i < |children| && children[c].Valid()
    requires i != c
    requires children[c].entries[children[c].pos] == union[n]
    ensures var d := children[i].Seek(union[n].key);
      BeforeCut(if d.Valid() then d.Prev() else d.SeekToLast(), union, n)
  {
    hide IsUnionOf, Count, SeekIndex, BeforeCut;
    OnlyHolder(children, union, n, c, i);
    ChildRun(children, union, i);
    TurnBackward(children[i], union, n);
    var d := children[i].Seek(union[n].key);
    StepBackward(if d.Valid() then d.Prev() else d.SeekToLast(), union, n + 1);
  }

  lemma CurrentTurnsBackward(children: seq<Cursor>, union: seq<Entry>, n: nat, c: nat)
    requires IsUnionOf(union, children) && n < |union| && c < |children| && children[c].Valid()
    requires children[c].entries[children[c].pos] == union[n] && AtCut(children[c], union, n)
    ensures BeforeCut(children[c], union, n + 1)
  {
    hide IsUnionOf, Count, SeekIndex, AtCut, BeforeCut;
    ChildRun(children, union, c);
    OnlyHolder(children, union, n, c, c);
    TurnBackward(children[c], union, n);
  }

  /** Moving forward already: the other children stand past the current entry. */
  lemma OthersPastKey(children: seq<Cursor>, union: seq<Entry>, n: nat, c: nat)
    requires IsUnionOf(union, children) && n < |union| && c < |children| && children[c].Valid()
    requires children[c].entries[children[c].pos] == union[n] && AllAtCut(children, union, n)
    ensures forall i :: 0 <= i < |children| && i != c ==> AtCut(children[i], union, n + 1)
    ensures AtCut(children[c], union, n)
  {
    hide IsUnionOf, AtCut;
    forall i | 0 <= i < |children| && i != c ensures AtCut(children[i], union, n + 1) {
      OnlyHolder(children, union, n, c, i);
      ChildRun(children, union, i);
      StepForward(children[i], union, n);
    }
  }

  lemma OthersBeforeKey(children: seq<Cursor>, union: seq<Entry>, n: nat, c: nat)
    requires IsUnionOf(union, children) && n < |union| && c < |children| && children[c].Valid()
    requires children[c].entries[children[c].pos] == union[n] && AllBeforeCut(children, union, n + 1)
    ensures forall i :: 0 <= i < |children| && i != c ==> BeforeCut(children[i], union, n)
    ensures BeforeCut(children[c], union, n + 1)
  {
    hide IsUnionOf, BeforeCut;
    forall i | 0 <= i < |children| && i != c ensures BeforeCut(children[i], union, n) {
      OnlyHolder(children, union, n, c, i);
      ChildRun(children, union, i);
      StepBackward(children[i], union, n + 1);
    }
  }

  lemma CurrentSteps(children: seq<Cursor>, union: seq<Entry>, n: nat, c: nat)
    requires IsUnionOf(union, children) && n < |union| && c < |children| && children[c].Valid()
    requires children[c].entries[children[c].pos] == union[n] && AtCut(children[c], union, n)
    requires forall i :: 0 <= i < |children| && i != c ==> AtCut(children[i], union, n + 1)
    ensures AllAtCut(children[c := children[c].Next()], union, n + 1)
  {
    hide IsUnionOf, AtCut;
    OnlyHolder(children, union, n, c, c);
    ChildRun(children, union, c);
    StepForward(children[c], union, n);
  }

  lemma CurrentStepsBack(children: seq<Cursor>, union: seq<Entry>, n: nat, c: nat)
    requires IsUnionOf(union, children) && n < |union| && c < |children| && children[c].Valid()
    requires children[c].entries[children[c].pos] == union[n] && BeforeCut(children[c], union, n + 1)
    requires forall i :: 0 <= i < |children| && i != c ==> BeforeCut(children[i], union, n)
    ensures AllBeforeCut(children[c := children[c].Prev()], union, n)
  {
    hide IsUnionOf, BeforeCut;
    OnlyHolder(children, union, n, c, c);
    ChildRun(children, union, c);
    StepBackward(children[c], union, n + 1);
  }

  ghost predicate SameRuns(a: seq<Cursor>, b: seq<Cursor>) {
    |a| == |b| && forall i :: 0 <= i < |a| ==> a[i].entries == b[i].entries
  }

  lemma SameRunsUnion(a: seq<Cursor>, b: seq<Cursor>, union: seq<Entry>)
    requires SameRuns(a, b) && IsUnionOf(union, a)
    ensures IsUnionOf(union, b)
  {
    assert RunsOf(a) == RunsOf(b);
  }
}
