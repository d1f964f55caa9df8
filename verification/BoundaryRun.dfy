/** A run of the store that ends in a state whose next compaction loses a deletion, because two
    files of the output level share a user key (see `StoreBoundary`).

    An older table moves down to level 3.  A snapshot is held while key 5 is deleted, so a
    compaction of the newer table of level 2 into it keeps both the value of key 5 and its
    deletion marker; the output is cut between the two.  Then the snapshot is released and key
    2 is written again. */
module BoundaryRun {
  import opened InternalKeys
  import opened VersionReads
  import opened CompactionInputs
  import opened VersionBuilder
  import opened Compactions
  import opened Views
  import opened LevelShape
  import opened StoreState
  import opened StoreSteps
  import opened StoreInvariant
  import opened StoreTheorems
  import opened StoreBoundary

  // ---- runs, several steps at a time ----

  /** A write group from its log record to its publication. */
  lemma WriteGroup(s: Store, ops: seq<Op>) returns (s': Store)
    requires Reachable(s) && s.ram.Some? && s.ram.value.inflight == None && s.disk.logs != []
    requires s.ram.value.last + |ops| < MAX_SEQUENCE
    ensures Reachable(s')
    ensures var r := s.ram.value;
      s' == s.(hist := s.hist + ops, disk := s.disk.(logs := AppendRecord(s.disk.logs, Batch(r.last + 1, ops))),
               ram := Some(r.(mem := InsertOps(r.mem, Batch(r.last + 1, ops), |ops|), done := 0,
                              last := r.last + |ops|)))
  {
    hide Reachable;
    var r := s.ram.value;
    var b := Batch(r.last + 1, ops);
    var logged := s.(hist := s.hist + ops, disk := s.disk.(logs := AppendRecord(s.disk.logs, b)));
    s' := logged.(ram := Some(r.(inflight := Some(b), done := 0)));
    Reach(s, s', WriteLog(ops));
    for i := 0 to |ops|
      invariant Reachable(s')
      invariant s' == logged.(ram := Some(r.(inflight := Some(b), done := i, mem := InsertOps(r.mem, b, i))))
    {
      var next := logged.(ram := Some(r.(inflight := Some(b), done := i + 1, mem := InsertOps(r.mem, b, i + 1))));
      Reach(s', next, ApplyNext);
      s' := next;
    }
    var published := logged.(ram := Some(r.(mem := InsertOps(r.mem, b, |ops|), done := 0, last := r.last + |ops|)));
    Reach(s', published, Publish);
    s' := published;
  }

  /** The memtable switched and flushed to level 2. */
  lemma Flush(s: Store, size: nat) returns (s': Store)
    requires Reachable(s) && s.ram.Some? && s.ram.value.inflight == None && s.ram.value.imm == None
    requires s.ram.value.mem != []
    requires |s.ram.value.version| == NUM_LEVELS && forall l :: 0 <= l <= 2 ==> s.ram.value.version[l] == []
    ensures Reachable(s') && s'.hist == s.hist && s'.flushed == |s.hist| && s'.disk.logs != []
    ensures s'.disk.tables == s.disk.tables[s.ram.value.nextFile + 1 := s.ram.value.mem]
    ensures var r := s.ram.value;
      var n := r.nextFile;
      var e := FullEdit(n, n + 2, r.last, {}, [(2, TableMeta(n + 1, size, r.mem))]);
      s'.ram == Some(r.(mem := [], version := Install(r.version, e), nextFile := n + 2, logNumber := n,
                        logfileNumber := n))
  {
    hide Reachable, Install;
    var r := s.ram.value;
    var n := r.nextFile;
    var r1 := r.(mem := [], imm := Some(r.mem), logfileNumber := n, nextFile := n + 1);
    var s1 := s.(switched := |s.hist|, disk := s.disk.(logs := s.disk.logs + [Log(n, [])]), ram := Some(r1));
    Reach(s, s1, SwitchMemTable);
    var f := TableMeta(n + 1, size, r.mem);
    assert NoOverlapUpTo(r.version, 2, f.smallest.user, f.largest.user);
    var (d', r') := LogAndApply(s1.disk.(tables := s1.disk.tables[n + 1 := r.mem]), r1,
                                FullEdit(n, n + 2, r.last, {}, [(2, f)]));
    s' := s1.(flushed := s1.switched, disk := d', ram := Some(r'.(imm := None)));
    Reach(s1, s', FlushMemTable(2, size));
  }

  // ---- versions after an edit ----

  lemma LevelAfter(v: Levels, e: Edit, l: nat)
    requires |v| == NUM_LEVELS && l < NUM_LEVELS
    ensures Install(v, e)[l] == SaveLevel(v[l], ApplyLevel(EMPTY_STATE, e, l))
  {
    assert [e][..|[e]| - 1] == [] && ApplyAll([], l) == EMPTY_STATE;
    assert ApplyAll([e], l) == ApplyLevel(EMPTY_STATE, e, l);
  }

  lemma {:induction false} NothingDropped(files: seq<FileMeta>)
    ensures DropDeleted(files, {}) == files
  {
    if files != [] { NothingDropped(files[..|files| - 1]); }
  }

  lemma {:induction false} NothingAdded(s: LevelState, added: seq<(nat, FileMeta)>, l: nat)
    requires forall i :: 0 <= i < |added| ==> added[i].0 != l
    ensures AddFiles(s, added, l) == s
  {
    if added != [] { NothingAdded(s, added[..|added| - 1], l); }
  }

  lemma LevelUntouched(v: Levels, e: Edit, l: nat)
    requires |v| == NUM_LEVELS && l < NUM_LEVELS && DeletedNumbers(e.deleted, l) == {}
    requires forall i :: 0 <= i < |e.added| ==> e.added[i].0 != l
    ensures Install(v, e)[l] == v[l]
  {
    LevelAfter(v, e, l);
    assert {} + DeletedNumbers(e.deleted, l) == {};
    NothingAdded(LevelState({}, []), e.added, l);
    NothingDropped(v[l]);
  }

  lemma FileAdded(e: Edit, l: nat, f: FileMeta)
    requires DeletedNumbers(e.deleted, l) == {} && e.added == [(l, f)]
    ensures SaveLevel([], ApplyLevel(EMPTY_STATE, e, l)) == [f]
  {
    assert e.added[..|e.added| - 1] == [] && {} + DeletedNumbers(e.deleted, l) == {};
    assert AddFiles(LevelState({}, []), [], l) == LevelState({}, []);
    assert {} - {f.number} == {};
    assert ApplyLevel(EMPTY_STATE, e, l) == LevelState({}, [f]);
    NothingDropped([f]);
  }

  /** An edit that adds one file to an empty level. */
  lemma FileInstalled(v: Levels, e: Edit, level: nat, f: FileMeta)
    requires |v| == NUM_LEVELS && level < NUM_LEVELS && v[level] == [] && e.deleted == {} && e.added == [(level, f)]
    ensures Install(v, e) == v[level := [f]]
  {
    hide Install, SaveLevel, ApplyLevel;
    LevelAfter(v, e, level);
    FileAdded(e, level, f);
    forall l | 0 <= l < NUM_LEVELS && l != level ensures Install(v, e)[l] == v[l] { LevelUntouched(v, e, l); }
  }

  // ---- the run ----

  const HISTORY: seq<Op> := [Put(2, "o"), Put(5, "x"), Put(2, "a"), Delete(5), Put(2, "b")]

  const OLD_ENTRY := Entry(InternalKey(2, 1, Value), "o")
  const VALUE_ENTRY := Entry(InternalKey(5, 2, Value), "x")
  const OTHER_ENTRY := Entry(InternalKey(2, 3, Value), "a")
  const MARKER := Entry(InternalKey(5, 4, Deletion), "")
  const LAST_ENTRY := Entry(InternalKey(2, 5, Value), "b")

  const BELOW := FileMeta(5, 100, OLD_ENTRY.key, OLD_ENTRY.key)
  const FIRST := FileMeta(7, 100, OTHER_ENTRY.key, VALUE_ENTRY.key)
  const LEFT := FileMeta(8, 100, OTHER_ENTRY.key, MARKER.key)
  const RIGHT := FileMeta(9, 100, VALUE_ENTRY.key, VALUE_ENTRY.key)
  const UPPER := FileMeta(11, 100, LAST_ENTRY.key, LAST_ENTRY.key)

  const OUTPUTS := [Output(LEFT, [OTHER_ENTRY, OLD_ENTRY, MARKER]), Output(RIGHT, [VALUE_ENTRY])]

  /** A reachable state with memory, no group in flight and no immutable memtable. */
  ghost predicate Idle(s: Store, v: Levels, t: Tables, nextFile: nat, snapshots: seq<nat>, mem: seq<Entry>) {
    && Reachable(s) && s.ram.Some? && s.disk.logs != [] && s.disk.tables == t
    && var r := s.ram.value;
       && r.inflight == None && r.imm == None && r.version == v && r.nextFile == nextFile
       && r.snapshots == snapshots && r.last == |s.hist| && r.mem == mem && r.pinned == []
  }

  lemma InitReachable(s: Store)
    requires Init(s)
    ensures Reachable(s)
  {
    assert Run([s], []) && s in [s];
  }

  lemma NothingInstalled(e: Edit)
    requires e.deleted == {} && e.added == []
    ensures Install(EMPTY_LEVELS, e) == EMPTY_LEVELS
  {
    hide Install;
    forall l | 0 <= l < NUM_LEVELS ensures Install(EMPTY_LEVELS, e)[l] == [] { LevelUntouched(EMPTY_LEVELS, e, l); }
  }

  lemma FreshDisk(d: Disk)
    requires d == Disk(map[], [], map[1 := [FullEdit(0, 2, 0, {}, [])]], 1)
    ensures Replay(Manifest(d)) == EMPTY_LEVELS && LatestLogNumber(Manifest(d)) == Some(0)
    ensures LatestNextFile(Manifest(d)) == Some(2) && LatestSequence(Manifest(d)) == Some(0)
  {
    hide Replay, ManifestOk;
    InitDisk(d);
  }

  lemma NoOutputs()
    ensures AddAll(0, []) == [] && MemOf([]) == []
  {
  }

  lemma Start() returns (s: Store)
    ensures Idle(s, EMPTY_LEVELS, map[], 4, [], []) && s.hist == []
  {
    hide Reachable, Replay, Install, LatestLogNumber, LatestNextFile, LatestSequence, Manifest, SnapshotRecord, AddAll;
    var s0 := Store([], 0, 0, Disk(map[], [], map[1 := [FullEdit(0, 2, 0, {}, [])]], 1), None);
    InitReachable(s0);
    FreshDisk(s0.disk);
    var e := FullEdit(3, 4, 0, {}, []);
    var v := Install(EMPTY_LEVELS, e);
    NothingInstalled(e);
    s := Store([], 0, 0, Disk(map[], [Log(3, [])], s0.disk.manifests[2 := [SnapshotRecord(EMPTY_LEVELS), e]], 2),
               Some(Ram([], None, None, 0, 0, v, [], 4, 3, 3, 2, [])));
    NoOutputs();
    assert RecoverStep(s0, s, [], 3);
    Reach(s0, s, Recover([], 3));
  }

  const LOWEST: Levels := [[], [], [], [BELOW], [], [], []]

  /** A first table, flushed to level 2 and moved down to level 3. */
  lemma FirstMoved() returns (s: Store)
    ensures Idle(s, LOWEST, map[5 := [OLD_ENTRY]], 6, [], []) && s.hist == HISTORY[..1]
  {
    hide Reachable, Install, ValidInputs, NoSharedBoundary;
    s := Start();
    s := WriteGroup(s, [Put(2, "o")]);
    assert s.ram.value.mem == [OLD_ENTRY];
    s := Flush(s, 100);
    FileInstalled(EMPTY_LEVELS, FullEdit(4, 6, 1, {}, [(2, BELOW)]), 2, BELOW);
    var r, v := s.ram.value, EMPTY_LEVELS[2 := [BELOW]];
    var e := FullEdit(r.logNumber, r.nextFile, r.last, {(2, BELOW.number)}, [(3, BELOW)]);
    MoveInputs(v);
    MoveInstalled(v, e);
    var (d', r') := LogAndApply(s.disk, r, e);
    var moved := s.(disk := d', ram := Some(r'));
    Reach(s, moved, TrivialMove(2, BELOW));
    s := moved;
  }

  lemma MoveInputs(v: Levels)
    requires v == EMPTY_LEVELS[2 := [BELOW]]
    ensures ValidInputs(v, 2, [BELOW], [])
  {
  }

  lemma MoveInstalled(v: Levels, e: Edit)
    requires v == EMPTY_LEVELS[2 := [BELOW]] && e.deleted == {(2, 5)} && e.added == [(3, BELOW)]
    ensures Install(v, e) == LOWEST
  {
    hide Install, SaveLevel, ApplyLevel;
    Deletions(e, 2, 5);
    FileDeleted(e, 2, BELOW);
    FileAdded(e, 3, BELOW);
    LevelAfter(v, e, 2);
    LevelAfter(v, e, 3);
    forall l | 0 <= l < NUM_LEVELS && l != 2 && l != 3 ensures Install(v, e)[l] == [] { LevelUntouched(v, e, l); }
  }

  lemma Deletions(e: Edit, level: nat, number: nat)
    requires e.deleted == {(level, number)}
    ensures DeletedNumbers(e.deleted, level) == {number}
    ensures forall l: nat :: l != level ==> DeletedNumbers(e.deleted, l) == {}
  {
    assert (level, number) in e.deleted;
  }

  lemma FileDeleted(e: Edit, l: nat, f: FileMeta)
    requires DeletedNumbers(e.deleted, l) == {f.number} && forall i :: 0 <= i < |e.added| ==> e.added[i].0 != l
    ensures SaveLevel([f], ApplyLevel(EMPTY_STATE, e, l)) == []
  {
    assert EMPTY_STATE.deleted + DeletedNumbers(e.deleted, l) == {f.number};
    NothingAdded(LevelState({f.number}, []), e.added, l);
    assert DropDeleted([f], {f.number}) == [] by { assert [f][..0] == []; }
  }

  const ABOVE: Levels := [[], [], [FIRST], [BELOW], [], [], []]
  const FIRST_TABLES: Tables := map[5 := [OLD_ENTRY], 7 := [OTHER_ENTRY, MARKER, VALUE_ENTRY]]

  /** The value of key 5 and its marker are in one table of level 2; the snapshot before the
      deletion is held. */
  lemma FirstTable() returns (s: Store)
    ensures Idle(s, ABOVE, FIRST_TABLES, 8, [2], []) && s.hist == HISTORY[..4]
  {
    hide Reachable, Install;
    s := FirstMoved();
    s := WriteGroup(s, [Put(5, "x")]);
    assert s.ram.value.mem == [VALUE_ENTRY];
    var held := s.(ram := Some(s.ram.value.(snapshots := s.ram.value.snapshots + [s.ram.value.last])));
    assert held.ram.value.snapshots == [2];
    Reach(s, held, TakeSnapshot);
    s := WriteGroup(held, [Put(2, "a"), Delete(5)]);
    TwoInserted();
    s := Flush(s, 100);
    FileInstalled(LOWEST, FullEdit(6, 8, 4, {}, [(2, FIRST)]), 2, FIRST);
    assert LOWEST[2 := [FIRST]] == ABOVE;
    assert map[5 := [OLD_ENTRY]][7 := [OTHER_ENTRY, MARKER, VALUE_ENTRY]] == FIRST_TABLES;
  }

  lemma TwoInserted()
    ensures InsertOps([VALUE_ENTRY], Batch(3, [Put(2, "a"), Delete(5)]), 2) == [OTHER_ENTRY, MARKER, VALUE_ENTRY]
  {
    var b := Batch(3, [Put(2, "a"), Delete(5)]);
    assert InsertOps([VALUE_ENTRY], b, 1) == [OTHER_ENTRY, VALUE_ENTRY];
    assert [OTHER_ENTRY, VALUE_ENTRY][1..] == [VALUE_ENTRY];
    assert InsertEntry([VALUE_ENTRY], MARKER) == [MARKER, VALUE_ENTRY];
  }

  const SPLIT: Levels := [[], [], [], [LEFT, RIGHT], [], [], []]
  const SPLIT_TABLES: Tables := map[8 := [OTHER_ENTRY, OLD_ENTRY, MARKER], 9 := [VALUE_ENTRY]]
  const INPUT: seq<Entry> := [OTHER_ENTRY, OLD_ENTRY, MARKER, VALUE_ENTRY]

  /** A compaction that keeps the deleted value for the held snapshot and ends a file between
      the marker and the value; the snapshot is released afterwards. */
  lemma SplitTables() returns (s: Store)
    ensures Idle(s, SPLIT, SPLIT_TABLES, 10, [], []) && s.hist == HISTORY[..4]
  {
    hide Reachable, Install, ValidInputs, NoSharedBoundary, GoodOutputs, Kept, Flatten, MergeInputs, AddAll,
      DeletionsOf, WriteTables;
    s := FirstTable();
    var r := s.ram.value;
    FirstInputs();
    AllKept();
    BothWritten();
    var e := FullEdit(r.logNumber, 10, 4, DeletionsOf(2, [FIRST]) + DeletionsOf(3, [BELOW]), AddAll(3, OUTPUTS));
    SplitInstalled(e);
    var (d', r') := LogAndApply(s.disk.(tables := WriteTables(FIRST_TABLES, OUTPUTS)), r, e);
    var split := s.(disk := d', ram := Some(r'));
    Reach(s, split, Compact(2, [FIRST], [BELOW], OUTPUTS));
    s := Tidied(split);
  }

  lemma Untabled(s: Store, v: Levels, t: Tables, nextFile: nat, snapshots: seq<nat>, n: nat) returns (s': Store)
    requires Idle(s, v, t, nextFile, snapshots, []) && !LiveNumber(v, n)
    ensures Idle(s', v, t - {n}, nextFile, snapshots, []) && s'.hist == s.hist
  {
    hide Reachable, LiveNumber;
    s' := s.(disk := s.disk.(tables := s.disk.tables - {n}));
    Reach(s, s', DeleteTable(n));
  }

  lemma Released(s: Store, v: Levels, t: Tables, nextFile: nat, snapshot: nat) returns (s': Store)
    requires Idle(s, v, t, nextFile, [snapshot], [])
    ensures Idle(s', v, t, nextFile, [], []) && s'.hist == s.hist
  {
    hide Reachable;
    s' := s.(ram := Some(s.ram.value.(snapshots := [])));
    assert [snapshot][..0] + [snapshot][1..] == [];
    Reach(s, s', ReleaseSnapshot(0));
  }

  lemma SplitNumbers()
    ensures !LiveNumber(SPLIT, 5) && !LiveNumber(SPLIT, 7)
    ensures (FIRST_TABLES + SPLIT_TABLES) - {5} - {7} == SPLIT_TABLES
  {
  }

  /** The compacted tables are deleted and the snapshot is released. */
  lemma Tidied(s: Store) returns (s': Store)
    requires Idle(s, SPLIT, FIRST_TABLES + SPLIT_TABLES, 10, [2], [])
    ensures Idle(s', SPLIT, SPLIT_TABLES, 10, [], []) && s'.hist == s.hist
  {
    hide Idle, LiveNumber;
    SplitNumbers();
    s' := Untabled(s, SPLIT, FIRST_TABLES + SPLIT_TABLES, 10, [2], 5);
    s' := Untabled(s', SPLIT, (FIRST_TABLES + SPLIT_TABLES) - {5}, 10, [2], 7);
    s' := Released(s', SPLIT, SPLIT_TABLES, 10, 2);
  }

  lemma BothWritten()
    ensures WriteTables(FIRST_TABLES, OUTPUTS) == FIRST_TABLES + SPLIT_TABLES
  {
    assert OUTPUTS[..|OUTPUTS| - 1] == [OUTPUTS[0]];
    assert [OUTPUTS[0]][..0] == [];
    assert WriteTables(FIRST_TABLES, [OUTPUTS[0]]) == FIRST_TABLES[8 := [OTHER_ENTRY, OLD_ENTRY, MARKER]];
  }

  lemma FirstInputs()
    ensures ValidInputs(ABOVE, 2, [FIRST], [BELOW]) && NoSharedBoundary(ABOVE, 2, [BELOW])
  {
    assert FIRST in [FIRST] && MeetsHull([FIRST], BELOW);
  }

  lemma AllKept()
    ensures var input := MergeInputs(FIRST_TABLES, [FIRST] + [BELOW]);
      GoodOutputs(OUTPUTS, 8) && Flatten(OUTPUTS) == Kept(input, |input|, 2, ABOVE, 2)
  {
    hide Kept, Dropped, Flatten, MergeInputs;
    Merged();
    NoneDropped();
    KeptWhole(INPUT, 4, 2, ABOVE, 2);
    BothFlattened();
    assert INPUT[..4] == INPUT;
  }

  lemma Merged()
    ensures MergeInputs(FIRST_TABLES, [FIRST] + [BELOW]) == INPUT
  {
    assert ([FIRST] + [BELOW])[1..] == [BELOW] && [BELOW][1..] == [];
    assert MergeInputs(FIRST_TABLES, [BELOW]) == [OLD_ENTRY];
    var upper, rest := [OTHER_ENTRY, MARKER, VALUE_ENTRY], [MARKER, VALUE_ENTRY];
    assert upper[1..] == rest && [OLD_ENTRY][1..] == [];
    assert MergeEntries(rest, [OLD_ENTRY]) == [OLD_ENTRY] + rest;
    assert MergeEntries(upper, [OLD_ENTRY]) == [OTHER_ENTRY] + MergeEntries(rest, [OLD_ENTRY]);
  }

  lemma NoneDropped()
    ensures forall i :: 0 <= i < 4 ==> !Dropped(INPUT, i, 2, ABOVE, 2)
  {
    hide BaseLevel;
  }

  lemma {:induction false} KeptWhole(input: seq<Entry>, n: nat, smallest: nat, v: Levels, level: nat)
    requires n <= |input| && |v| == NUM_LEVELS && forall i :: 0 <= i < n ==> !Dropped(input, i, smallest, v, level)
    ensures Kept(input, n, smallest, v, level) == input[..n]
  {
    hide Dropped;
    if n > 0 { KeptWhole(input, n - 1, smallest, v, level); }
  }

  lemma BothFlattened()
    ensures Flatten(OUTPUTS) == INPUT
  {
    assert OUTPUTS[..|OUTPUTS| - 1] == [OUTPUTS[0]] && [OUTPUTS[0]][..0] == [];
    assert Flatten([OUTPUTS[0]]) == [OTHER_ENTRY, OLD_ENTRY, MARKER];
  }

  lemma SplitInstalled(e: Edit)
    requires e.deleted == DeletionsOf(2, [FIRST]) + DeletionsOf(3, [BELOW]) && e.added == AddAll(3, OUTPUTS)
    ensures Install(ABOVE, e) == SPLIT
  {
    hide Install, SaveLevel, ApplyLevel, DeletedNumbers;
    SplitDeletions(e);
    assert e.added == [(3, LEFT), (3, RIGHT)];
    FileDeleted(e, 2, FIRST);
    BothAdded(e);
    LevelAfter(ABOVE, e, 2);
    LevelAfter(ABOVE, e, 3);
    forall l | 0 <= l < NUM_LEVELS && l != 2 && l != 3 ensures Install(ABOVE, e)[l] == [] {
      LevelUntouched(ABOVE, e, l);
    }
  }

  lemma SplitDeletions(e: Edit)
    requires e.deleted == DeletionsOf(2, [FIRST]) + DeletionsOf(3, [BELOW])
    ensures DeletedNumbers(e.deleted, 2) == {7} && DeletedNumbers(e.deleted, 3) == {5}
    ensures forall l: nat :: l != 2 && l != 3 ==> DeletedNumbers(e.deleted, l) == {}
  {
    assert forall f :: f in [FIRST] <==> f == FIRST;
    assert forall f :: f in [BELOW] <==> f == BELOW;
    assert e.deleted == {(2, 7), (3, 5)};
    assert (2, 7) in e.deleted && (3, 5) in e.deleted;
  }

  lemma BothAdded(e: Edit)
    requires DeletedNumbers(e.deleted, 3) == {5} && e.added == [(3, LEFT), (3, RIGHT)]
    ensures SaveLevel([BELOW], ApplyLevel(EMPTY_STATE, e, 3)) == [LEFT, RIGHT]
  {
    var s := LevelState({5}, []);
    assert {} + DeletedNumbers(e.deleted, 3) == {5};
    assert e.added[..1] == [(3, LEFT)] && e.added[..1][..0] == [];
    assert AddFiles(s, e.added[..1], 3) == LevelState({5}, [LEFT]) by { assert {5} - {LEFT.number} == {5}; }
    assert InsertFile([LEFT], RIGHT) == [LEFT, RIGHT] by { assert [LEFT][1..] == []; }
    assert AddFiles(s, e.added, 3) == LevelState({5}, [LEFT, RIGHT]) by { assert {5} - {RIGHT.number} == {5}; }
    assert [LEFT, RIGHT][1..] == [RIGHT] && [BELOW][1..] == [];
    assert MergeFiles([BELOW], [RIGHT]) == [BELOW, RIGHT];
    assert MergeFiles([BELOW], [LEFT, RIGHT]) == [LEFT, BELOW, RIGHT];
    LeftAndRight();
  }

  lemma LeftAndRight()
    ensures DropDeleted([LEFT, BELOW, RIGHT], {5}) == [LEFT, RIGHT]
  {
    var three, two := [LEFT, BELOW, RIGHT], [LEFT, BELOW];
    assert three[..2] == two && two[..1] == [LEFT] && [LEFT][..0] == [];
    assert DropDeleted([LEFT], {5}) == [LEFT];
    assert DropDeleted(two, {5}) == [LEFT];
  }

  // ---- the state it ends in ----

  const VERSION: Levels := [[], [], [UPPER], [LEFT, RIGHT], [], [], []]
  const TABLES: Tables := SPLIT_TABLES[11 := [LAST_ENTRY]]

  lemma LastFlush() returns (s: Store)
    ensures Idle(s, VERSION, TABLES, 12, [], []) && s.hist == HISTORY && s.flushed == 5
  {
    hide Reachable, Install;
    s := SplitTables();
    s := WriteGroup(s, [Put(2, "b")]);
    assert s.hist == HISTORY;
    assert s.ram.value.mem == [LAST_ENTRY];
    s := Flush(s, 100);
    FileInstalled(SPLIT, FullEdit(10, 12, 5, {}, [(2, UPPER)]), 2, UPPER);
    assert SPLIT[2 := [UPPER]] == VERSION;
  }

  lemma LastInputs()
    ensures ValidInputs(VERSION, 2, [UPPER], [LEFT]) && !NoSharedBoundary(VERSION, 2, [LEFT])
    ensures forall e :: e in MergeInputs(TABLES, [UPPER] + [LEFT]) <==>
            e in {LAST_ENTRY, OTHER_ENTRY, OLD_ENTRY, MARKER}
  {
    hide MergeInputs;
    assert [UPPER] + [LEFT] == [UPPER, LEFT] && UPPER in [UPPER];
    MergeInputsMembers(TABLES, [UPPER, LEFT]);
    assert LEFT in [UPPER, LEFT] && UPPER in [UPPER, LEFT];
    LastData();
    assert MeetsHull([UPPER], LEFT);
    assert !MeetsHull([UPPER], RIGHT);
    assert UserOverlap(RIGHT, LEFT);
  }

  lemma LastFiles(l: nat, f: FileMeta)
    requires l < NUM_LEVELS && f in VERSION[l]
    ensures f == UPPER || f == LEFT || f == RIGHT
  {
  }

  lemma LastData()
    ensures Data(TABLES, UPPER) == [LAST_ENTRY] && Data(TABLES, LEFT) == [OTHER_ENTRY, OLD_ENTRY, MARKER]
    ensures Data(TABLES, RIGHT) == [VALUE_ENTRY]
  {
  }

  lemma LastEntries()
    ensures Stored(TABLES, VERSION, HISTORY, 5) == {VALUE_ENTRY, OTHER_ENTRY, OLD_ENTRY, MARKER, LAST_ENTRY}
  {
    hide Data;
    LastData();
    InVersionEntries(TABLES, VERSION, 2, UPPER, LAST_ENTRY);
    InVersionEntries(TABLES, VERSION, 3, LEFT, OTHER_ENTRY);
    InVersionEntries(TABLES, VERSION, 3, LEFT, OLD_ENTRY);
    InVersionEntries(TABLES, VERSION, 3, LEFT, MARKER);
    InVersionEntries(TABLES, VERSION, 3, RIGHT, VALUE_ENTRY);
    forall e | e in VersionEntries(TABLES, VERSION)
      ensures e in {VALUE_ENTRY, OTHER_ENTRY, OLD_ENTRY, MARKER, LAST_ENTRY}
    {
      var l, f :| 0 <= l < NUM_LEVELS && f in VERSION[l] && e in Data(TABLES, f);
      LastFiles(l, f);
    }
  }

  /** A reachable state with a compaction, of inputs the code chooses, that drops the deletion
      of key 5: readers then see the value it had deleted. */
  lemma BoundaryLosesDeletion() returns (s: Store)
    ensures Reachable(s) && s.ram.Some? && |s.ram.value.version| == NUM_LEVELS && s.hist == HISTORY
    ensures s.ram.value.last == 5
    ensures ValidInputs(s.ram.value.version, 2, [UPPER], [LEFT])
    ensures var stored, input := StoredIn(s), MergeInputs(s.disk.tables, [UPPER] + [LEFT]);
      && Read(HISTORY, 5, 5) == None && NewestStored(stored, 5, 5, Some(MARKER))
      && var after := AfterCompaction(stored, input, SmallestSnapshot(s.ram.value), s.ram.value.version, 2);
         NewestStored(after, 5, 5, Some(VALUE_ENTRY)) && Answer(Some(VALUE_ENTRY)) == Some("x")
  {
    hide Reachable, Inv, ValidInputs, MergeInputs, AfterCompaction, Stored, NoSharedBoundary;
    s := LastFlush();
    LastInputs();
    LastEntries();
    var stored, input := StoredIn(s), MergeInputs(TABLES, [UPPER] + [LEFT]);
    assert Resurfaces(stored, input, 5, VERSION, 2, 5, MARKER, VALUE_ENTRY);
    ReachableInv(s);
    InputsOfState(s);
    ResurfaceChanges(stored, input, 5, VERSION, 2, 5, MARKER, VALUE_ENTRY);
  }

  lemma InputsOfState(s: Store)
    requires Inv(s) && Idle(s, VERSION, TABLES, 12, [], []) && s.hist == HISTORY && s.flushed == 5
    requires ValidInputs(VERSION, 2, [UPPER], [LEFT])
    ensures Sorted(MergeInputs(TABLES, [UPPER] + [LEFT]))
  {
    hide ManifestOk, TablesOk, LogsOk, MemoryOk, LogSplit, InflightOk, Covered, ValidInputs, MergeInputs, Reachable,
      Sorted;
    InputStored(TABLES, VERSION, HISTORY, 5, 2, [UPPER], [LEFT]);
  }
}
