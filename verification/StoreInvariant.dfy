/** The store invariant: disk and memory together hold the history, in the right places. */
module StoreInvariant {
  import opened InternalKeys
  import opened VersionReads
  import opened VersionBuilder
  import opened Views
  import opened LevelShape
  import opened StoreState
  import opened StoreSteps

  /** Entries of the operations after `from`: what logs and memtables hold. */
  ghost function Tail(hist: seq<Op>, from: nat): set<Entry> {
    set n: nat | from < n <= |hist| :: EntryAt(hist, n)
  }

  lemma InTail(hist: seq<Op>, from: nat, e: Entry)
    ensures e in Tail(hist, from) <==> from < e.key.sequence <= |hist| && e == EntryAt(hist, e.key.sequence)
  {
  }

  /** `entries` is the sorted table of exactly the operations after `from` up to `to`. */
  ghost predicate TableOf(hist: seq<Op>, from: nat, to: nat, entries: seq<Entry>) {
    && to <= |hist| && Sorted(entries)
    && (forall e :: e in entries ==> from < e.key.sequence <= to && e == EntryAt(hist, e.key.sequence))
    && (forall n :: from < n <= to ==> EntryAt(hist, n) in entries)
  }

  ghost predicate HasCounters(edits: seq<Edit>) {
    LatestLogNumber(edits).Some? && LatestNextFile(edits).Some? && LatestSequence(edits).Some?
  }

  /** Files ever added to a level have numbers below the recorded counter and never come
      back to a shallower level. */
  ghost predicate ManifestOk(edits: seq<Edit>, current: nat) {
    && HasCounters(edits) && current < LatestNextFile(edits).value
    && LatestLogNumber(edits).value < LatestNextFile(edits).value
    && (forall level :: 0 <= level < NUM_LEVELS ==> NumbersOnce([], edits, level))
    && (forall level: nat, f :: EverAdded(edits, level, f) ==>
        level < NUM_LEVELS && f.number < LatestNextFile(edits).value)
    && LevelsRise(edits, Replay(edits))
  }

  ghost predicate LevelsRise(edits: seq<Edit>, v: Levels) {
    forall l: nat, m, f, g: FileMeta :: EverAdded(edits, l, f) && 0 <= m < |v| && g in v[m] && f.number == g.number ==>
      l <= m
  }

  ghost predicate TablesOk(t: Tables, v: Levels, hist: seq<Op>, flushed: nat) {
    && VersionInv(t, v) && flushed <= |hist|
    && forall e :: e in VersionEntries(t, v) ==> 1 <= e.key.sequence <= flushed && e == EntryAt(hist, e.key.sequence)
  }

  ghost predicate LogsOk(logs: seq<Log>, logNumber: nat, hist: seq<Op>, flushed: nat) {
    LogsSorted(logs) && Matches(hist, LiveRecords(logs, logNumber), flushed, |hist|)
  }

  /** Everything stored anywhere: tables of the version, then logs or memtables. */
  ghost function Stored(t: Tables, v: Levels, hist: seq<Op>, flushed: nat): set<Entry> {
    VersionEntries(t, v) + Tail(hist, flushed)
  }

  /** What recovery needs is on disk. */
  ghost predicate DiskInv(d: Disk, hist: seq<Op>, flushed: nat, smallest: nat) {
    var edits := Manifest(d);
    && ManifestOk(edits, d.current)
    && TablesOk(d.tables, Replay(edits), hist, flushed)
    && LogsOk(d.logs, LatestLogNumber(edits).value, hist, flushed)
    && flushed <= LatestSequence(edits).value <= |hist| < MAX_SEQUENCE
    && smallest <= |hist| && Covered(hist, Stored(d.tables, Replay(edits), hist, flushed), smallest)
  }

  ghost predicate SnapshotsOk(r: Ram) {
    && (forall i :: 0 <= i < |r.snapshots| ==> r.snapshots[i] <= r.last)
    && (forall i, j :: 0 <= i < j < |r.snapshots| ==> r.snapshots[i] <= r.snapshots[j])
  }

  ghost predicate CountersOk(d: Disk, r: Ram) {
    var edits := Manifest(d);
    && HasCounters(edits)
    && r.version == Replay(edits) && r.manifestNumber == d.current
    && LatestLogNumber(edits) == Some(r.logNumber) && LatestNextFile(edits).value <= r.nextFile
    && LatestSequence(edits).value <= r.last
    && (forall i :: 0 <= i < |d.logs| ==> d.logs[i].number < r.nextFile)
  }

  ghost predicate MemoryOk(r: Ram, hist: seq<Op>, flushed: nat, switched: nat) {
    && flushed <= switched <= r.last && r.last + r.done <= |hist|
    && TableOf(hist, switched, r.last + r.done, r.mem)
    && (r.imm.None? ==> flushed == switched && r.logNumber == r.logfileNumber)
    && (r.imm.Some? ==> TableOf(hist, flushed, switched, r.imm.value) && r.logNumber < r.logfileNumber)
  }

  /** The current log is the last one; the logs before it belong to `imm`. */
  ghost predicate LogSplit(d: Disk, r: Ram, hist: seq<Op>, flushed: nat, switched: nat) {
    var n := |d.logs| - 1;
    && d.logs != [] && d.logs[n].number == r.logfileNumber
    && Matches(hist, d.logs[n].records, switched, |hist|)
    && Matches(hist, LiveRecords(d.logs[..n], r.logNumber), flushed, switched)
  }

  ghost predicate InflightOk(d: Disk, r: Ram, hist: seq<Op>) {
    && r.last <= |hist|
    && (r.inflight.None? ==> r.done == 0 && r.last == |hist|)
    && (r.inflight.Some? ==>
          var b := r.inflight.value;
          && b == Batch(r.last + 1, hist[r.last..]) && r.done <= |b.ops|
          && d.logs != [] && d.logs[|d.logs| - 1].records != []
          && var records := d.logs[|d.logs| - 1].records;
             records[|records| - 1] == b)
  }

  ghost predicate RamInv(d: Disk, r: Ram, hist: seq<Op>, flushed: nat, switched: nat) {
    && CountersOk(d, r) && MemoryOk(r, hist, flushed, switched) && SnapshotsOk(r)
    && LogSplit(d, r, hist, flushed, switched) && InflightOk(d, r, hist)
  }

  function Smallest(s: Store): nat {
    if s.ram.Some? then SmallestSnapshot(s.ram.value) else |s.hist|
  }

  ghost predicate Inv(s: Store) {
    && DiskInv(s.disk, s.hist, s.flushed, Smallest(s))
    && (s.ram.Some? ==> RamInv(s.disk, s.ram.value, s.hist, s.flushed, s.switched))
  }

  lemma StoredGenuine(t: Tables, v: Levels, hist: seq<Op>, flushed: nat)
    requires TablesOk(t, v, hist, flushed)
    ensures Genuine(hist, Stored(t, v, hist, flushed))
    ensures Genuine(hist, VersionEntries(t, v))
  {
  }

  lemma SmallestInRange(r: Ram)
    requires SnapshotsOk(r)
    ensures SmallestSnapshot(r) <= r.last
    ensures forall i :: 0 <= i < |r.snapshots| ==> SmallestSnapshot(r) <= r.snapshots[i]
  {
  }

  // ---- MANIFEST ----

  lemma ReplayMembers(edits: seq<Edit>, level: nat)
    requires level < NUM_LEVELS && NumbersOnce([], edits, level)
    ensures FilesSorted(Replay(edits)[level])
    ensures forall f :: f in Replay(edits)[level] ==> EverAdded(edits, level, f)
  {
    ReplayLevel(edits, level);
    SaveAllMembers([], edits, level);
  }

  lemma SortedFilesOrdered(files: seq<FileMeta>)
    requires FilesSorted(files)
    ensures SmallestOrdered(files)
  {
    forall i, j | 0 <= i < j < |files| ensures NotAfter(files[i].smallest, files[j].smallest) && files[i] != files[j] {
      assert FileBefore(files[i], files[j]);
    }
  }

  /** An edit that adds no (level, number) a second time. */
  ghost predicate Addable(edits: seq<Edit>, e: Edit) {
    && (forall l :: 0 <= l < NUM_LEVELS ==> SingleAdds(e, l))
    && (forall l: nat, f :: Adds(e, l, f) ==> l < NUM_LEVELS)
    && (forall l: nat, f, g :: Adds(e, l, f) && EverAdded(edits, l, g) ==> f.number != g.number)
  }

  lemma EverAddedSnoc(edits: seq<Edit>, e: Edit, level: nat, f: FileMeta)
    ensures EverAdded(edits + [e], level, f) <==> EverAdded(edits, level, f) || Adds(e, level, f)
  {
    var more := edits + [e];
    assert more[|edits|] == e;
    assert forall i :: 0 <= i < |edits| ==> more[i] == edits[i];
    if EverAdded(edits, level, f) {
      var i :| 0 <= i < |edits| && Adds(edits[i], level, f);
      assert Adds(more[i], level, f);
    }
    if Adds(e, level, f) { assert Adds(more[|edits|], level, f); }
  }

  lemma NumbersOnceSnoc(edits: seq<Edit>, e: Edit, level: nat)
    requires level < NUM_LEVELS && NumbersOnce([], edits, level) && Addable(edits, e)
    ensures NumbersOnce([], edits + [e], level)
  {
    var more := edits + [e];
    assert forall i :: 0 <= i < |edits| ==> more[i] == edits[i];
    assert more[|edits|] == e;
    forall i, j, f, g | 0 <= i < j < |more| && Adds(more[i], level, f) && Adds(more[j], level, g)
      ensures f.number != g.number
    {
      if j == |edits| {
        assert Adds(edits[i], level, f);
        assert EverAdded(edits, level, f);
      }
    }
  }

  ghost predicate Untouched(e: Edit, level: nat) {
    (forall f :: !Adds(e, level, f)) && DeletedNumbers(e.deleted, level) == {}
  }

  /** Order and members of a level after one more edit. */
  ghost predicate AppliedAt(files: seq<FileMeta>, files': seq<FileMeta>, e: Edit, level: nat) {
    && SmallestOrdered(files')
    && (Untouched(e, level) ==> files' == files)
    && forall f :: f in files' <==> (f in files && !Removes(e, level, f.number)) || Adds(e, level, f)
  }

  ghost predicate Applied(v: Levels, v': Levels, e: Edit) {
    && |v| == NUM_LEVELS && |v'| == NUM_LEVELS
    && forall l :: 0 <= l < NUM_LEVELS ==> AppliedAt(v[l], v'[l], e, l)
  }

  lemma InstallApplied(edits: seq<Edit>, e: Edit)
    requires forall level :: 0 <= level < NUM_LEVELS ==> NumbersOnce([], edits, level)
    requires Addable(edits, e)
    ensures Replay(edits + [e]) == Install(Replay(edits), e)
    ensures Applied(Replay(edits), Install(Replay(edits), e), e)
    ensures forall level :: 0 <= level < NUM_LEVELS ==> NumbersOnce([], edits + [e], level)
  {
    forall level | 0 <= level < NUM_LEVELS ensures NumbersOnce([], edits + [e], level) {
      NumbersOnceSnoc(edits, e, level);
    }
    ReplayIsInstall(edits, e);
    var v := Replay(edits);
    forall level | 0 <= level < NUM_LEVELS ensures AppliedAt(v[level], Install(v, e)[level], e, level) {
      InstallAppliedAt(edits, e, level);
    }
  }

  lemma InstallAppliedAt(edits: seq<Edit>, e: Edit, level: nat)
    requires level < NUM_LEVELS && NumbersOnce([], edits, level) && Addable(edits, e)
    ensures AppliedAt(Replay(edits)[level], Install(Replay(edits), e)[level], e, level)
  {
    ReplayMembers(edits, level);
    var files := Replay(edits)[level];
    assert NumbersOnce(files, [e], level) by {
      assert [e][0] == e;
      assert SingleAdds(e, level);
    }
    InstallLevel(Replay(edits), e, level);
    InstallMembers(files, e, level);
    var files' := Install(Replay(edits), e)[level];
    SortedFilesOrdered(files');
    if Untouched(e, level) {
      SortedUnique(files', files);
    }
  }

  /** The MANIFEST invariant after a full edit. */
  lemma ManifestStep(edits: seq<Edit>, current: nat, e: Edit)
    requires ManifestOk(edits, current) && Addable(edits, e)
    requires e.logNumber.Some? && e.nextFile.Some? && e.lastSequence.Some?
    requires LatestNextFile(edits).value <= e.nextFile.value && e.logNumber.value < e.nextFile.value
    requires forall l: nat, f :: Adds(e, l, f) ==> f.number < e.nextFile.value
    requires LevelsRise(edits + [e], Install(Replay(edits), e))
    ensures ManifestOk(edits + [e], current)
    ensures Replay(edits + [e]) == Install(Replay(edits), e)
    ensures Applied(Replay(edits), Install(Replay(edits), e), e)
  {
    InstallApplied(edits, e);
    forall level: nat, f | EverAdded(edits + [e], level, f)
      ensures level < NUM_LEVELS && f.number < e.nextFile.value
    {
      EverAddedSnoc(edits, e, level, f);
    }
    assert (edits + [e])[|edits + [e]| - 1] == e;
  }

  /** Edits that add files under fresh numbers to one level only. */
  ghost predicate FreshAdds(edits: seq<Edit>, e: Edit, level: nat)
    requires LatestNextFile(edits).Some?
  {
    && level < NUM_LEVELS
    && (forall i :: 0 <= i < |e.added| ==> e.added[i].0 == level && e.added[i].1.number >= LatestNextFile(edits).value)
    && (forall i, j :: 0 <= i < j < |e.added| ==> e.added[i].1.number != e.added[j].1.number)
  }

  lemma FreshAddable(edits: seq<Edit>, current: nat, e: Edit, level: nat)
    requires ManifestOk(edits, current) && FreshAdds(edits, e, level)
    ensures Addable(edits, e)
    ensures LevelsRise(edits + [e], Install(Replay(edits), e))
  {
    hide NumbersOnce, EverAdded, Install, Replay;
    forall l: nat, f | Adds(e, l, f) ensures l == level && f.number >= LatestNextFile(edits).value {
      var i :| 0 <= i < |e.added| && e.added[i] == (l, f);
    }
    InstallApplied(edits, e);
    var v := Replay(edits);
    var v' := Install(v, e);
    forall l: nat, m, f, g: FileMeta | EverAdded(edits + [e], l, f) && 0 <= m < |v'| && g in v'[m] &&
      f.number == g.number ensures l <= m {
      EverAddedSnoc(edits, e, l, f);
      ReplayMembers(edits, m);
      assert AppliedAt(v[m], v'[m], e, m);
      if !Adds(e, m, g) {
        assert EverAdded(edits, m, g);
      }
    }
  }
}
