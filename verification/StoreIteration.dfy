/** Iterating over the store at a snapshot (db/db_impl.cc, `NewInternalIterator` and
    `NewIterator`): what the iterator shows is the history read at that snapshot. */
module StoreIteration {
  import opened InternalKeys
  import opened VersionReads
  import opened Views
  import opened CompactionInputs
  import opened LevelShape
  import opened StoreState
  import opened StoreInvariant
  import opened StoreTheorems
  import opened Cursors
  import opened TwoLevelIterators
  import opened MemIterators
  import opened MergingIterators
  import opened DbIterators
  import opened Scans

  /** The merged entries of memtable, immutable memtable and version.  The memtable may have
      grown since the iterator was made. */
  ghost predicate InternalEntries(s: Store, later: seq<Entry>, entries: seq<Entry>)
    requires s.ram.Some?
  {
    && Sorted(entries)
    && forall e :: e in entries <==>
         e in later || (s.ram.value.imm.Some? && e in s.ram.value.imm.value) ||
           e in VersionEntries(s.disk.tables, s.ram.value.version)
  }

  /** What the iterator merges and what is stored agree on all a reader may see. */
  lemma SameVisible(s: Store, later: seq<Entry>, entries: seq<Entry>, user: UserKey, at: nat, e: Entry)
    requires Inv(s) && s.ram.Some? && at <= s.ram.value.last && Visible(e, user, at)
    requires Grown(s.ram.value.mem, later, s.ram.value.last) && InternalEntries(s, later, entries)
    ensures e in entries <==> e in StoredIn(s)
  {
    hide ManifestOk, LogsOk, LogSplit, InflightOk, Covered, VersionInv, VersionEntries;
    var r := s.ram.value;
    InTail(s.hist, s.flushed, e);
  }

  /** In every reachable state and at every readable snapshot: the iterator shows a user key
      with a value if and only if the history up to the snapshot gives the key that value. */
  lemma IterationShowsHistory(s: Store, later: seq<Entry>, entries: seq<Entry>, at: nat, user: UserKey, value: string)
    requires Reachable(s) && s.ram.Some? && Readable(s.ram.value, at)
    requires Grown(s.ram.value.mem, later, s.ram.value.last) && InternalEntries(s, later, entries)
    ensures at <= |s.hist|
    ensures (exists i: nat :: Shown(entries, at, i) && entries[i].key.user == user && entries[i].value == value) <==>
            Read(s.hist, user, at) == Some(value)
  {
    hide Inv, Reachable, Shown, Read, StoredIn, Readable, Grown, TableGet;
    ReachableInv(s);
    ReadableInRange(s, at);
    var n := TableGet(entries, user, at);
    TableGetIsNewest(entries, user, at);
    forall e | Visible(e, user, at) ensures e in entries <==> e in StoredIn(s) {
      SameVisible(s, later, entries, user, at, e);
    }
    assert NewestStored(StoredIn(s), user, at, n);
    assert StoredIn(s) == Stored(s.disk.tables, s.ram.value.version, s.hist, s.flushed) by { StoredInIs(s); }
    LookupAnswers(s, user, at, n);
    ShownIsSnapshotMap(entries, at, user, value);
  }

  lemma StoredInIs(s: Store)
    requires s.ram.Some?
    ensures StoredIn(s) == Stored(s.disk.tables, s.ram.value.version, s.hist, s.flushed)
  {
  }

  // ---- the runs that are merged ----

  /** The data of the files, one sequence each. */
  function FilesData(t: Tables, files: seq<FileMeta>): (blocks: seq<seq<Entry>>)
    ensures |blocks| == |files| && forall i :: 0 <= i < |files| ==> blocks[i] == Data(t, files[i])
  {
    seq(|files|, i requires 0 <= i < |files| => Data(t, files[i]))
  }

  function LargestKeys(files: seq<FileMeta>): (seps: seq<InternalKey>)
    ensures |seps| == |files| && forall i :: 0 <= i < |files| ==> seps[i] == files[i].largest
  {
    seq(|files|, i requires 0 <= i < |files| => files[i].largest)
  }

  /** In a sorted level the largest keys separate the files. */
  lemma LevelSeparates(t: Tables, files: seq<FileMeta>)
    requires GoodFiles(t, files) && SortedLevel(files)
    ensures Separates(LargestKeys(files), FilesData(t, files))
  {
    hide GoodFile;
    var seps, blocks := LargestKeys(files), FilesData(t, files);
    forall i, e: Entry | 0 <= i < |files| && e in blocks[i]
      ensures NotAfter(e.key, seps[i]) && NotAfter(files[i].smallest, e.key)
    {
      assert files[i] in files;
      FileBounds(t, files[i], e);
    }
    forall i | 0 <= i < |files| ensures Sorted(blocks[i]) && NotAfter(files[i].smallest, files[i].largest) {
      assert files[i] in files;
      FileOrdered(t, files[i]);
    }
  }

  lemma FileOrdered(t: Tables, f: FileMeta)
    requires GoodFile(t, f)
    ensures Sorted(Data(t, f)) && NotAfter(f.smallest, f.largest)
  {
    var d := Data(t, f);
    if |d| > 1 { assert Before(d[0].key, d[|d| - 1].key); }
  }

  lemma {:induction false} ConcatMembers(blocks: seq<seq<Entry>>, e: Entry)
    ensures e in Concat(blocks) <==> exists i :: 0 <= i < |blocks| && e in blocks[i]
  {
    if blocks != [] {
      var init := blocks[..|blocks| - 1];
      ConcatMembers(init, e);
      if i :| 0 <= i < |blocks| && e in blocks[i] {
        if i < |init| { assert e in init[i]; }
      }
      if i :| 0 <= i < |init| && e in init[i] { assert e in blocks[i]; }
    }
  }

  /** The levels from 1 on, below `n`, that have files. */
  function FilledLevels(v: Levels, n: nat): (ls: seq<nat>)
    requires n <= |v|
    ensures forall i :: 0 <= i < |ls| ==> 1 <= ls[i] < n && v[ls[i]] != []
    ensures forall i, j :: 0 <= i < j < |ls| ==> ls[i] < ls[j]
  {
    if n <= 1 then []
    else FilledLevels(v, n - 1) + (if v[n - 1] == [] then [] else [n - 1])
  }

  lemma {:induction false} EveryFilledLevel(v: Levels, n: nat, l: nat)
    requires 1 <= l < n <= |v| && v[l] != []
    ensures l in FilledLevels(v, n)
  {
    if l < n - 1 { EveryFilledLevel(v, n - 1, l); }
  }

  function LevelRuns(t: Tables, v: Levels, n: nat): (runs: seq<seq<Entry>>)
    requires n <= |v|
    ensures |runs| == |FilledLevels(v, n)|
    ensures forall i :: 0 <= i < |runs| ==> runs[i] == Concat(FilesData(t, v[FilledLevels(v, n)[i]]))
  {
    var ls := FilledLevels(v, n);
    seq(|ls|, i requires 0 <= i < |ls| => Concat(FilesData(t, v[ls[i]])))
  }

  /** Each level-0 file by itself, each further level as one run. */
  function VersionRuns(t: Tables, v: Levels): seq<seq<Entry>>
    requires |v| == NUM_LEVELS
  {
    FilesData(t, v[0]) + LevelRuns(t, v, NUM_LEVELS)
  }

  /** Level of a run, and for level 0 its file. */
  ghost predicate RunAt(t: Tables, v: Levels, k: nat, e: Entry, l: nat, f: FileMeta)
    requires |v| == NUM_LEVELS
  {
    && l < NUM_LEVELS && f in v[l] && e in Data(t, f)
    && if k < |v[0]| then l == 0 && f == v[0][k]
       else k - |v[0]| < |FilledLevels(v, NUM_LEVELS)| && l == FilledLevels(v, NUM_LEVELS)[k - |v[0]|]
  }

  lemma RunOrigin(t: Tables, v: Levels, k: nat, e: Entry) returns (l: nat, f: FileMeta)
    requires |v| == NUM_LEVELS && k < |VersionRuns(t, v)| && e in VersionRuns(t, v)[k]
    ensures RunAt(t, v, k, e, l, f)
  {
    if k < |v[0]| {
      l, f := 0, v[0][k];
    } else {
      l := FilledLevels(v, NUM_LEVELS)[k - |v[0]|];
      ConcatMembers(FilesData(t, v[l]), e);
      var i :| 0 <= i < |FilesData(t, v[l])| && e in FilesData(t, v[l])[i];
      f := v[l][i];
    }
  }

  /** The run of a file. */
  lemma RunOf(t: Tables, v: Levels, l: nat, f: FileMeta, e: Entry) returns (k: nat)
    requires |v| == NUM_LEVELS && l < NUM_LEVELS && f in v[l] && e in Data(t, f)
    ensures k < |VersionRuns(t, v)| && e in VersionRuns(t, v)[k]
  {
    hide FilledLevels, Concat, Data;
    var i :| 0 <= i < |v[l]| && v[l][i] == f;
    if l == 0 {
      k := i;
    } else {
      var ls := FilledLevels(v, NUM_LEVELS);
      EveryFilledLevel(v, NUM_LEVELS, l);
      var q :| 0 <= q < |ls| && ls[q] == l;
      ConcatMembers(FilesData(t, v[l]), e);
      assert e in FilesData(t, v[l])[i];
      k := |v[0]| + q;
    }
  }

  /** The runs hold what the version holds. */
  lemma RunsHold(t: Tables, v: Levels, e: Entry)
    requires |v| == NUM_LEVELS
    ensures e in VersionEntries(t, v) <==> exists k :: 0 <= k < |VersionRuns(t, v)| && e in VersionRuns(t, v)[k]
  {
    hide FilledLevels, VersionRuns, Data;
    if k :| 0 <= k < |VersionRuns(t, v)| && e in VersionRuns(t, v)[k] {
      var l, f := RunOrigin(t, v, k, e);
      InVersionEntries(t, v, l, f, e);
    }
    if e in VersionEntries(t, v) {
      var l, f :| 0 <= l < |v| && f in v[l] && e in Data(t, f);
      var k := RunOf(t, v, l, f, e);
    }
  }

  /** No sequence number is in two runs of a version whose entries come from one history. */
  lemma VersionRunsApart(t: Tables, v: Levels, hist: seq<Op>, j: nat, k: nat)
    requires VersionInv(t, v) && Genuine(hist, VersionEntries(t, v)) && |v| == NUM_LEVELS
    requires j < |VersionRuns(t, v)| && k < |VersionRuns(t, v)| && j != k
    ensures ApartSequences(VersionRuns(t, v)[j], VersionRuns(t, v)[k])
  {
    hide VersionInv, VersionEntries, Data, VersionRuns, RunAt, Genuine;
    forall a, b | a in VersionRuns(t, v)[j] && b in VersionRuns(t, v)[k] ensures a.key.sequence != b.key.sequence {
      var l, f := RunOrigin(t, v, j, a);
      var m, g := RunOrigin(t, v, k, b);
      DifferentOrigins(t, v, j, a, l, f, k, b, m, g);
      InVersionEntries(t, v, l, f, a);
      InVersionEntries(t, v, m, g, b);
      if a.key.sequence == b.key.sequence {
        SameSequence(hist, VersionEntries(t, v), a, b);
        NoSharedEntries(t, v, l, f, m, g, a);
      }
    }
  }

  lemma SameSequence(hist: seq<Op>, stored: set<Entry>, a: Entry, b: Entry)
    requires Genuine(hist, stored) && a in stored && b in stored && a.key.sequence == b.key.sequence
    ensures a == b
  {
  }

  lemma DifferentOrigins(t: Tables, v: Levels, j: nat, a: Entry, l: nat, f: FileMeta, k: nat, b: Entry, m: nat,
                         g: FileMeta)
    requires VersionInv(t, v) && |v| == NUM_LEVELS && j != k
    requires RunAt(t, v, j, a, l, f) && RunAt(t, v, k, b, m, g)
    ensures l < NUM_LEVELS && m < NUM_LEVELS && f in v[l] && g in v[m] && a in Data(t, f) && b in Data(t, g)
    ensures l != m || f != g
  {
    hide VersionInv, Data;
    VersionParts(t, v);
    if l == m {
      if j < |v[0]| && k < |v[0]| { assert NoDuplicates(v[0]); }
    }
  }

  /** What `NewInternalIterator` merges: memtable, immutable memtable, version. */
  function StoreRuns(s: Store, later: seq<Entry>): seq<seq<Entry>>
    requires s.ram.Some? && |s.ram.value.version| == NUM_LEVELS
  {
    [later] + (if s.ram.value.imm.Some? then [s.ram.value.imm.value] else [])
    + VersionRuns(s.disk.tables, s.ram.value.version)
  }

  /** How many of the runs are memtables. */
  function MemRuns(s: Store): nat
    requires s.ram.Some?
  {
    if s.ram.value.imm.Some? then 2 else 1
  }

  lemma StoreParts(s: Store, later: seq<Entry>)
    requires Inv(s) && s.ram.Some? && Grown(s.ram.value.mem, later, s.ram.value.last)
    ensures |s.ram.value.version| == NUM_LEVELS && VersionInv(s.disk.tables, s.ram.value.version)
    ensures Genuine(s.hist, VersionEntries(s.disk.tables, s.ram.value.version)) && s.flushed <= s.switched
    ensures Sorted(later) && forall e :: e in later ==> e.key.sequence > s.switched
    ensures s.ram.value.imm.Some? ==>
      && Sorted(s.ram.value.imm.value)
      && forall e :: e in s.ram.value.imm.value ==> s.flushed < e.key.sequence <= s.switched
    ensures forall e :: e in VersionEntries(s.disk.tables, s.ram.value.version) ==> e.key.sequence <= s.flushed
  {
    hide ManifestOk, LogsOk, LogSplit, InflightOk, Covered, VersionInv, Sorted;
    var t, v := s.disk.tables, s.ram.value.version;
    StoredGenuine(t, v, s.hist, s.flushed);
    assert |v| == NUM_LEVELS by { VersionParts(t, v); }
  }

  lemma StoreRunsApart(s: Store, later: seq<Entry>, j: nat, k: nat)
    requires Inv(s) && s.ram.Some? && Grown(s.ram.value.mem, later, s.ram.value.last)
    requires |s.ram.value.version| == NUM_LEVELS && j < k < |StoreRuns(s, later)|
    ensures ApartSequences(StoreRuns(s, later)[j], StoreRuns(s, later)[k])
  {
    hide Inv, Grown, VersionInv, VersionEntries, VersionRuns, Genuine;
    StoreParts(s, later);
    var t, v, m, runs := s.disk.tables, s.ram.value.version, MemRuns(s), StoreRuns(s, later);
    if j < m {
      forall a: Entry, b: Entry | a in runs[j] && b in runs[k] ensures a.key.sequence != b.key.sequence {
        if k >= m {
          assert runs[k] == VersionRuns(t, v)[k - m];
          RunsHold(t, v, b);
        }
      }
    } else {
      assert runs[j] == VersionRuns(t, v)[j - m] && runs[k] == VersionRuns(t, v)[k - m];
      VersionRunsApart(t, v, s.hist, j - m, k - m);
    }
  }

  lemma VersionRunSorted(t: Tables, v: Levels, k: nat)
    requires VersionInv(t, v) && |v| == NUM_LEVELS && k < |VersionRuns(t, v)|
    ensures Sorted(VersionRuns(t, v)[k])
  {
    hide VersionInv, Sorted, GoodFile;
    if k < |v[0]| {
      FileIn(t, v, 0, v[0][k]);
      FileOrdered(t, v[0][k]);
    } else {
      var l := FilledLevels(v, NUM_LEVELS)[k - |v[0]|];
      LevelParts(t, v, l);
      LevelSeparates(t, v[l]);
      ConcatSorted(LargestKeys(v[l]), FilesData(t, v[l]));
    }
  }

  lemma LevelParts(t: Tables, v: Levels, l: nat)
    requires VersionInv(t, v) && 1 <= l < NUM_LEVELS
    ensures |v| == NUM_LEVELS && GoodFiles(t, v[l]) && SortedLevel(v[l])
  {
    hide Recency, UniqueNumbers, NoDuplicates, GoodFiles, SortedLevel;
  }

  // ---- their union ----

  ghost function UnionOf(runs: seq<seq<Entry>>): seq<Entry> {
    if runs == [] then [] else MergeEntries(UnionOf(runs[..|runs| - 1]), runs[|runs| - 1])
  }

  lemma {:induction false} UnionHolds(runs: seq<seq<Entry>>, e: Entry)
    ensures e in UnionOf(runs) <==> exists i :: 0 <= i < |runs| && e in runs[i]
  {
    if runs != [] {
      var init := runs[..|runs| - 1];
      UnionHolds(init, e);
      MergeEntriesMembers(UnionOf(init), runs[|runs| - 1]);
      if i :| 0 <= i < |runs| && e in runs[i] {
        if i < |init| { assert e in init[i]; }
      }
      if i :| 0 <= i < |init| && e in init[i] { assert e in runs[i]; }
    }
  }

  lemma {:induction false} UnionIsSorted(runs: seq<seq<Entry>>)
    requires forall i :: 0 <= i < |runs| ==> Sorted(runs[i])
    requires forall i, j :: 0 <= i < j < |runs| ==> ApartSequences(runs[i], runs[j])
    ensures Sorted(UnionOf(runs))
  {
    hide Sorted;
    if runs == [] {
      NothingSorted();
    } else {
      var init, last := runs[..|runs| - 1], runs[|runs| - 1];
      UnionIsSorted(init);
      forall x, y | x in UnionOf(init) && y in last ensures x.key.sequence != y.key.sequence {
        UnionHolds(init, x);
        var i :| 0 <= i < |init| && x in init[i];
        assert ApartSequences(runs[i], runs[|runs| - 1]);
      }
      MergeEntriesSorted(UnionOf(init), last);
    }
  }

  lemma NothingSorted()
    ensures Sorted([])
  {
  }

  lemma UnionIsUnion(runs: seq<seq<Entry>>)
    requires forall i :: 0 <= i < |runs| ==> Sorted(runs[i])
    requires forall i, j :: 0 <= i < j < |runs| ==> ApartSequences(runs[i], runs[j])
    ensures IsUnion(UnionOf(runs), runs)
  {
    hide Sorted, UnionOf;
    UnionIsSorted(runs);
    forall e ensures e in UnionOf(runs) <==> exists i :: 0 <= i < |runs| && e in runs[i] { UnionHolds(runs, e); }
    forall i, j, a, b | 0 <= i < j < |runs| && a in runs[i] && b in runs[j] ensures a.key != b.key {
      assert ApartSequences(runs[i], runs[j]);
    }
  }

  /** The runs of the store have a sorted union, and it is what the iterator is to show. */
  lemma StoreUnion(s: Store, later: seq<Entry>)
    requires Inv(s) && s.ram.Some? && Grown(s.ram.value.mem, later, s.ram.value.last)
    requires |s.ram.value.version| == NUM_LEVELS
    ensures IsUnion(UnionOf(StoreRuns(s, later)), StoreRuns(s, later))
    ensures InternalEntries(s, later, UnionOf(StoreRuns(s, later)))
  {
    hide Inv, Grown, VersionInv, VersionEntries, VersionRuns, Genuine, Sorted, ApartSequences, UnionOf;
    StoreParts(s, later);
    var t, v, m, runs := s.disk.tables, s.ram.value.version, MemRuns(s), StoreRuns(s, later);
    forall k | 0 <= k < |runs| ensures Sorted(runs[k]) {
      if k >= m {
        assert runs[k] == VersionRuns(t, v)[k - m];
        VersionRunSorted(t, v, k - m);
      }
    }
    forall j, k | 0 <= j < k < |runs| ensures ApartSequences(runs[j], runs[k]) { StoreRunsApart(s, later, j, k); }
    UnionIsUnion(runs);
    forall e ensures e in UnionOf(runs) <==>
        e in later || (s.ram.value.imm.Some? && e in s.ram.value.imm.value) || e in VersionEntries(t, v)
    {
      UnionHolds(runs, e);
      RunsHold(t, v, e);
      StoreRunsHold(s, later, e);
    }
    assert Sorted(UnionOf(runs));
  }

  lemma StoreRunsHold(s: Store, later: seq<Entry>, e: Entry)
    requires s.ram.Some? && |s.ram.value.version| == NUM_LEVELS
    ensures (exists k :: 0 <= k < |StoreRuns(s, later)| && e in StoreRuns(s, later)[k]) <==>
            || e in later || (s.ram.value.imm.Some? && e in s.ram.value.imm.value)
            || exists k :: 0 <= k < |VersionRuns(s.disk.tables, s.ram.value.version)| &&
                 e in VersionRuns(s.disk.tables, s.ram.value.version)[k]
  {
    hide VersionRuns;
    var runs, rest, m := StoreRuns(s, later), VersionRuns(s.disk.tables, s.ram.value.version), MemRuns(s);
    assert runs[0] == later && (s.ram.value.imm.Some? ==> runs[1] == s.ram.value.imm.value);
    assert forall k :: 0 <= k < |rest| ==> runs[m + k] == rest[k];
    if k :| 0 <= k < |runs| && e in runs[k] {
      assert k >= m ==> e in rest[k - m];
    }
  }

  // ---- making the iterator ----

  lemma RunsSnoc(views: seq<Cursor>, c: Cursor)
    ensures RunsOf(views + [c]) == RunsOf(views) + [c.entries]
  {
  }

  /** One more child over separated blocks. */
  method AddTable(children: seq<Child>, ghost views: seq<Cursor>, seps: seq<InternalKey>, blocks: seq<seq<Entry>>)
    returns (children': seq<Child>, ghost views': seq<Cursor>)
    requires Separate(children) && Mirrors(children, views, RunsOf(views)) && Separates(seps, blocks)
    ensures Separate(children') && Mirrors(children', views', RunsOf(views'))
    ensures RunsOf(views') == RunsOf(views) + [Concat(blocks)]
    ensures children <= children' && forall o :: o in Objects(children') && o !in Objects(children) ==> fresh(o)
  {
    hide Separates, Concat, Separate, Mirrors;
    var it := new TwoLevelIterator(seps, blocks);
    ghost var view := Cursor(Concat(blocks), |Concat(blocks)|);
    children', views' := children + [Table(it)], views + [view];
    RunsSnoc(views, view);
    ChildAdded(children, Table(it));
    ChildMirrors(children, views, Table(it), view);
  }

  method AddMem(children: seq<Child>, ghost views: seq<Cursor>, entries: seq<Entry>)
    returns (children': seq<Child>, ghost views': seq<Cursor>)
    requires Sorted(entries) && Separate(children) && Mirrors(children, views, RunsOf(views))
    ensures Separate(children') && Mirrors(children', views', RunsOf(views'))
    ensures RunsOf(views') == RunsOf(views) + [entries]
    ensures children < children' && children'[|children|].Mem?
    ensures forall o :: o in Objects(children') && o !in Objects(children) ==> fresh(o)
  {
    hide Sorted, Separate, Mirrors, MemIterator.Valid;
    var run := new MemIterator(entries);
    ghost var view := Cursor(entries, |entries|);
    children', views' := children + [Mem(run)], views + [view];
    RunsSnoc(views, view);
    ChildAdded(children, Mem(run));
    ChildMirrors(children, views, Mem(run), view);
  }

  lemma ChildMirrors(children: seq<Child>, views: seq<Cursor>, c: Child, view: Cursor)
    requires Separate(children) && Mirrors(children, views, RunsOf(views)) && c.Obj() !in Objects(children)
    requires c.Ok() && c.View() == view && c.Full() == view.entries
    ensures Separate(children + [c]) && Mirrors(children + [c], views + [view], RunsOf(views + [view]))
  {
    hide TwoLevelIterator.Valid, TwoLevelIterator.Abstract, MemIterator.Valid;
  }

  lemma ChildAdded(children: seq<Child>, c: Child)
    ensures Objects(children + [c]) == Objects(children) + {c.Obj()}
  {
    var more := children + [c];
    forall o | o in Objects(children) + {c.Obj()} ensures o in Objects(more) {
      if o == c.Obj() {
        assert more[|children|] == c;
      } else {
        var i :| 0 <= i < |children| && children[i].Obj() == o;
        assert more[i] == children[i];
      }
    }
  }

  /** How a table's entries are cut into blocks, with the keys of its index block. */
  datatype Index = Index(seps: seq<InternalKey>, blocks: seq<seq<Entry>>)

  /** The tables of level 0 are cut into blocks anywhere, some perhaps empty, under separating
      keys. */
  ghost predicate Indexed(t: Tables, v: Levels, index: map<nat, Index>) {
    forall i :: v != [] && 0 <= i < |v[0]| ==>
      && v[0][i].number in index
      && var x := index[v[0][i].number]; Separates(x.seps, x.blocks) && Concat(x.blocks) == Data(t, v[0][i])
  }

  lemma IndexedFile(t: Tables, v: Levels, index: map<nat, Index>, i: nat)
    requires Indexed(t, v, index) && v != [] && i < |v[0]|
    ensures v[0][i].number in index
    ensures var x := index[v[0][i].number]; Separates(x.seps, x.blocks) && Concat(x.blocks) == Data(t, v[0][i])
  {
  }

  /** `AddIterators`: a child for each level-0 file, one for each further level with files. */
  method AddIterators(t: Tables, v: Levels, index: map<nat, Index>, children: seq<Child>, ghost views: seq<Cursor>)
    returns (children': seq<Child>, ghost views': seq<Cursor>)
    requires Separate(children) && Mirrors(children, views, RunsOf(views)) && VersionInv(t, v) && |v| == NUM_LEVELS
    requires Indexed(t, v, index)
    ensures Separate(children') && Mirrors(children', views', RunsOf(views'))
    ensures RunsOf(views') == RunsOf(views) + VersionRuns(t, v)
    ensures children <= children' && forall o :: o in Objects(children') && o !in Objects(children) ==> fresh(o)
  {
    hide Separate, Mirrors, VersionInv, Separates, Concat, Objects, LevelRuns, FilledLevels, Indexed, Data;
    children', views' := children, views;
    NoRuns(t, v);
    for i := 0 to |v[0]|
      invariant Separate(children') && Mirrors(children', views', RunsOf(views'))
      invariant RunsOf(views') == RunsOf(views) + FilesData(t, v[0])[..i]
      invariant children <= children'
      invariant forall o :: o in Objects(children') && o !in Objects(children) ==> fresh(o)
    {
      IndexedFile(t, v, index, i);
      var table := index[v[0][i].number];
      children', views' := AddTable(children', views', table.seps, table.blocks);
      assert FilesData(t, v[0])[..i + 1] == FilesData(t, v[0])[..i] + [Data(t, v[0][i])];
    }
    assert FilesData(t, v[0])[..|v[0]|] == FilesData(t, v[0]);
    ghost var first := RunsOf(views) + FilesData(t, v[0]);
    for l := 1 to NUM_LEVELS
      invariant Separate(children') && Mirrors(children', views', RunsOf(views'))
      invariant RunsOf(views') == first + LevelRuns(t, v, l)
      invariant children <= children'
      invariant forall o :: o in Objects(children') && o !in Objects(children) ==> fresh(o)
    {
      LevelRunsStep(t, v, l);
      if v[l] != [] {
        LevelParts(t, v, l);
        LevelSeparates(t, v[l]);
        children', views' := AddTable(children', views', LargestKeys(v[l]), FilesData(t, v[l]));
      }
    }
    assert first + LevelRuns(t, v, NUM_LEVELS) == RunsOf(views) + VersionRuns(t, v);
  }

  lemma NoRuns(t: Tables, v: Levels)
    requires |v| == NUM_LEVELS
    ensures LevelRuns(t, v, 1) == []
  {
  }

  lemma LevelRunsStep(t: Tables, v: Levels, l: nat)
    requires |v| == NUM_LEVELS && 1 <= l < NUM_LEVELS
    ensures LevelRuns(t, v, l + 1) == LevelRuns(t, v, l) + (if v[l] == [] then [] else [Concat(FilesData(t, v[l]))])
  {
  }

  /** `NewInternalIterator` in any reachable state, over a memtable that may have grown. */
  method NewInternalIterator(s: Store, index: map<nat, Index>, later: seq<Entry>) returns (iter: MergingIterator)
    requires Reachable(s) && s.ram.Some? && Grown(s.ram.value.mem, later, s.ram.value.last)
    requires Indexed(s.disk.tables, s.ram.value.version, index)
    ensures fresh(iter) && fresh(iter.Parts()) && iter.Valid() && InternalEntries(s, later, iter.full)
    ensures iter.union == iter.full
    ensures |s.ram.value.version| == NUM_LEVELS && iter.runs == StoreRuns(s, later)
    ensures iter.children != [] && iter.children[0].Mem?
  {
    hide Reachable, Inv, Grown, VersionInv, IsUnion, InternalEntries, Separate, Mirrors, VersionRuns, Objects, UnionOf,
      Indexed;
    ReachableInv(s);
    StoreParts(s, later);
    var children, views := NoChildren();
    children, views := AddMem(children, views, later);
    if s.ram.value.imm.Some? {
      children, views := AddMem(children, views, s.ram.value.imm.value);
    }
    children, views := AddIterators(s.disk.tables, s.ram.value.version, index, children, views);
    StoreUnion(s, later);
    assert RunsOf(views) == StoreRuns(s, later);
    iter := new MergingIterator(children, views, UnionOf(StoreRuns(s, later)));
  }

  method NoChildren() returns (children: seq<Child>, ghost views: seq<Cursor>)
    ensures Separate(children) && Mirrors(children, views, RunsOf(views)) && Objects(children) == {}
    ensures RunsOf(views) == []
  {
    children, views := [], [];
  }

  /** The pairs of a scan are the map that the history gives at the snapshot. */
  ghost predicate IsSnapshot(pairs: seq<Pair>, hist: seq<Op>, at: nat)
    requires at <= |hist|
  {
    && KeysAscend(pairs)
    && forall user, value :: (user, value) in pairs <==> Read(hist, user, at) == Some(value)
  }

  lemma ScanIsSnapshot(s: Store, later: seq<Entry>, entries: seq<Entry>, at: nat)
    requires Reachable(s) && s.ram.Some? && Readable(s.ram.value, at)
    requires Grown(s.ram.value.mem, later, s.ram.value.last) && InternalEntries(s, later, entries)
    ensures at <= |s.hist| && IsSnapshot(ShownPairs(entries, at, |entries|), s.hist, at)
  {
    hide Reachable, Grown, Readable, Shown, Read, ShownPairs, KeysAscend;
    var pairs := ShownPairs(entries, at, |entries|);
    ShownPairsAscend(entries, at, |entries|);
    IterationShowsHistory(s, later, entries, at, 0, "");
    forall user, value ensures (user, value) in pairs <==> Read(s.hist, user, at) == Some(value) {
      ShownPairsAre(entries, at, |entries|, (user, value));
      IterationShowsHistory(s, later, entries, at, user, value);
      ShownInside(entries, at);
    }
  }

  lemma ShownInside(entries: seq<Entry>, at: nat)
    ensures forall i: nat :: Shown(entries, at, i) ==> i < |entries|
  {
  }

  /** `NewIterator`: the snapshot iterator over memtables, level-0 tables and further levels. */
  method NewIterator(s: Store, index: map<nat, Index>, later: seq<Entry>, at: nat) returns (it: DbIterator)
    requires Reachable(s) && s.ram.Some? && Grown(s.ram.value.mem, later, s.ram.value.last)
    requires Indexed(s.disk.tables, s.ram.value.version, index)
    ensures fresh(it) && fresh(it.Parts()) && it.Valid() && it.Position() == None && it.snapshot == at
    ensures InternalEntries(s, later, it.entries) && |s.ram.value.version| == NUM_LEVELS
    ensures it.runs == StoreRuns(s, later) && it.iter.children != [] && it.iter.children[0].Mem?
  {
    hide Reachable, Grown, Indexed, MergingIterator.Valid, DbIterator.Valid, InternalEntries, StoreRuns;
    var iter := NewInternalIterator(s, index, later);
    it := new DbIterator(iter, at);
  }

  // ---- scanning while writers insert ----

  /** The lists that the memtable becomes while writers go on inserting. */
  ghost predicate Growing(mem: seq<Entry>, lists: seq<seq<Entry>>, last: nat)
    decreases lists
  {
    lists != [] ==> Grown(mem, lists[0], last) && Growing(lists[0], lists[1..], last)
  }

  ghost function UnionsOf(s: Store, lists: seq<seq<Entry>>): seq<seq<Entry>>
    requires s.ram.Some? && |s.ram.value.version| == NUM_LEVELS
  {
    if lists == [] then [] else [UnionOf(StoreRuns(s, lists[0]))] + UnionsOf(s, lists[1..])
  }

  lemma {:induction false} StoreArriving(s: Store, later: seq<Entry>, lists: seq<seq<Entry>>, at: nat)
    requires Inv(s) && s.ram.Some? && |s.ram.value.version| == NUM_LEVELS && at <= s.ram.value.last
    requires Grown(s.ram.value.mem, later, s.ram.value.last) && Growing(later, lists, s.ram.value.last)
    ensures Arriving(StoreRuns(s, later), 0, lists, UnionsOf(s, lists), at)
    decreases lists
  {
    hide Inv, UnionOf, VersionRuns, IsUnion, InternalEntries;
    if lists != [] {
      GrownOn(s.ram.value.mem, later, lists[0], s.ram.value.last);
      StoreUnion(s, lists[0]);
      assert StoreRuns(s, later)[0 := lists[0]] == StoreRuns(s, lists[0]);
      assert UnionsOf(s, lists)[1..] == UnionsOf(s, lists[1..]);
      StoreArriving(s, lists[0], lists[1..], at);
    }
  }

  lemma GrownOn(mem: seq<Entry>, later: seq<Entry>, more: seq<Entry>, last: nat)
    requires Grown(mem, later, last) && Grown(later, more, last)
    ensures Grown(mem, more, last)
  {
  }

  lemma AtMostLast(s: Store, at: nat)
    requires Inv(s) && s.ram.Some? && Readable(s.ram.value, at)
    ensures at <= s.ram.value.last
  {
    hide DiskInv, LogSplit, MemoryOk, InflightOk, CountersOk;
    ReadableRange(s.ram.value, at);
  }

  /** Scanning a new iterator in either direction, while writers insert into the memtable
      between the calls, gives the snapshot map of the history. */
  method Contents(s: Store, index: map<nat, Index>, later: seq<Entry>, at: nat, lists: seq<seq<Entry>>,
                  backward: bool)
    returns (pairs: seq<Pair>)
    requires Reachable(s) && s.ram.Some? && Indexed(s.disk.tables, s.ram.value.version, index)
    requires Grown(s.ram.value.mem, later, s.ram.value.last) && Growing(later, lists, s.ram.value.last)
    requires Readable(s.ram.value, at)
    ensures at <= |s.hist| && IsSnapshot(pairs, s.hist, at)
  {
    hide Reachable, Inv, Grown, Growing, Indexed, Readable, InternalEntries, IsSnapshot, ShownPairs, DbIterator.Valid,
      Arriving, StoreRuns;
    var it := NewIterator(s, index, later, at);
    ReachableInv(s);
    AtMostLast(s, at);
    StoreArriving(s, later, lists, at);
    ScanIsSnapshot(s, later, it.entries, at);
    if backward {
      pairs := ScanBackward(it, 0, lists, UnionsOf(s, lists));
    } else {
      pairs := ScanForward(it, 0, lists, UnionsOf(s, lists));
    }
  }
}
