/** Flush, compaction and trivial move keep the store invariant. */
module StoreVersionSteps {
  import opened InternalKeys
  import opened VersionReads
  import opened CompactionInputs
  import opened Compactions
  import opened VersionBuilder
  import opened Views
  import opened LevelShape
  import opened StoreState
  import opened StoreSteps
  import opened StoreInvariant
  import opened StoreMemorySteps

  /** Everything a version change must establish about the disk. */
  lemma DiskAfterEdit(d: Disk, d': Disk, e: Edit, hist: seq<Op>, flushed: nat, flushed': nat, smallest: nat)
    requires ManifestOk(Manifest(d), d.current) && Addable(Manifest(d), e)
    requires e.logNumber.Some? && e.nextFile.Some? && e.lastSequence.Some?
    requires LatestNextFile(Manifest(d)).value <= e.nextFile.value && e.logNumber.value < e.nextFile.value
    requires forall l: nat, f :: Adds(e, l, f) ==> f.number < e.nextFile.value
    requires LevelsRise(Manifest(d) + [e], Install(Replay(Manifest(d)), e))
    requires d'.current == d.current && d'.manifests == d.manifests[d.current := Manifest(d) + [e]]
    requires TablesOk(d'.tables, Install(Replay(Manifest(d)), e), hist, flushed')
    requires LogsOk(d'.logs, e.logNumber.value, hist, flushed')
    requires flushed' <= e.lastSequence.value <= |hist| < MAX_SEQUENCE
    requires smallest <= |hist|
    requires Covered(hist, Stored(d'.tables, Install(Replay(Manifest(d)), e), hist, flushed'), smallest)
    ensures DiskInv(d', hist, flushed', smallest)
    ensures Manifest(d') == Manifest(d) + [e] && Replay(Manifest(d')) == Install(Replay(Manifest(d)), e)
    ensures LatestLogNumber(Manifest(d')) == e.logNumber && LatestNextFile(Manifest(d')) == e.nextFile
    ensures LatestSequence(Manifest(d')) == e.lastSequence
  {
    ManifestStep(Manifest(d), d.current, e);
    assert Manifest(d') == Manifest(d) + [e];
  }

  lemma LogBelowCounter(d: Disk, r: Ram, hist: seq<Op>, flushed: nat, switched: nat)
    requires RamInv(d, r, hist, flushed, switched)
    ensures r.logNumber <= r.logfileNumber < r.nextFile
  {
    hide TableOf, Matches, LiveRecords, Replay;
  }

  // ---- flush ----

  /** The live numbers are all below the counter. */
  lemma LiveBelowCounter(d: Disk, l: nat, f: FileMeta)
    requires ManifestOk(Manifest(d), d.current) && l < NUM_LEVELS && f in Replay(Manifest(d))[l]
    ensures f.number < LatestNextFile(Manifest(d)).value
  {
    ReplayMembers(Manifest(d), l);
    assert EverAdded(Manifest(d), l, f);
  }

  /** Levels after adding one file. */
  lemma AddOneLevels(v: Levels, v': Levels, level: nat, f: FileMeta, e: Edit)
    requires Applied(v, v', e) && level < NUM_LEVELS && e.added == [(level, f)] && e.deleted == {}
    ensures forall l :: 0 <= l < NUM_LEVELS && l != level ==> v'[l] == v[l]
    ensures forall g :: g in v'[level] <==> g in v[level] || g == f
    ensures SmallestOrdered(v'[level])
  {
    forall l | 0 <= l < NUM_LEVELS && l != level ensures v'[l] == v[l] {
      assert AppliedAt(v[l], v'[l], e, l);
      assert Untouched(e, l);
    }
    assert AppliedAt(v[level], v'[level], e, level);
    assert Adds(e, level, f);
    assert DeletedNumbers(e.deleted, level) == {};
  }

  lemma FlushIsFlushed(d: Disk, v: Levels, level: nat, f: FileMeta, imm: seq<Entry>, e: Edit, t': Tables)
    requires ManifestOk(Manifest(d), d.current) && v == Replay(Manifest(d)) && level < NUM_LEVELS
    requires VersionInv(d.tables, v)
    requires imm != [] && Sorted(imm) && f == TableMeta(f.number, f.size, imm)
    requires LatestNextFile(Manifest(d)).value <= f.number
    requires e.added == [(level, f)] && e.deleted == {} && t' == d.tables[f.number := imm]
    ensures FreshAdds(Manifest(d), e, level)
    ensures Flushed(d.tables, v, t', Install(v, e), level, f)
  {
    FlushVersion(d, v, level, f, e);
    forall l, g | 0 <= l < NUM_LEVELS && g in v[l] ensures g.number < f.number && g.number in d.tables {
      LiveBelowCounter(d, l, g);
      assert GoodFile(d.tables, g);
    }
    NewTableKeeps(d.tables, v, t', f, imm);
  }

  lemma FlushVersion(d: Disk, v: Levels, level: nat, f: FileMeta, e: Edit)
    requires ManifestOk(Manifest(d), d.current) && v == Replay(Manifest(d)) && level < NUM_LEVELS
    requires LatestNextFile(Manifest(d)).value <= f.number
    requires e.added == [(level, f)] && e.deleted == {}
    ensures FreshAdds(Manifest(d), e, level)
    ensures forall l :: 0 <= l < NUM_LEVELS && l != level ==> Install(v, e)[l] == v[l]
    ensures forall g :: g in Install(v, e)[level] <==> g in v[level] || g == f
    ensures SmallestOrdered(Install(v, e)[level])
  {
    FreshAddable(Manifest(d), d.current, e, level);
    InstallApplied(Manifest(d), e);
    AddOneLevels(v, Install(v, e), level, f, e);
  }

  lemma NewTableKeeps(t: Tables, v: Levels, t': Tables, f: FileMeta, imm: seq<Entry>)
    requires imm != [] && Sorted(imm) && f == TableMeta(f.number, f.size, imm) && t' == t[f.number := imm]
    requires forall l, g :: 0 <= l < |v| && g in v[l] ==> g.number < f.number && g.number in t
    ensures TablesKept(t, v, t') && GoodFile(t', f)
  {
  }

  lemma FlushTables(t: Tables, v: Levels, t': Tables, v': Levels, level: nat, f: FileMeta, imm: seq<Entry>,
                    hist: seq<Op>, flushed: nat, switched: nat)
    requires TablesOk(t, v, hist, flushed) && Flushed(t, v, t', v', level, f) && Data(t', f) == imm
    requires TableOf(hist, flushed, switched, imm) && flushed <= switched
    requires level == 0 || NoOverlapUpTo(v, level, f.smallest.user, f.largest.user)
    ensures TablesOk(t', v', hist, switched)
    ensures Stored(t', v', hist, switched) == Stored(t, v, hist, flushed)
  {
    hide Shape, Recency, UniqueNumbers, Sorted, NoOverlapUpTo, SmallestOrdered, GoodFile;
    forall l, g, a, b | 0 <= l < |v| && g in v[l] && a in Data(t', f) && b in Data(t, g)
      ensures a.key.sequence > b.key.sequence
    {
      InVersionEntries(t, v, l, g, b);
    }
    FlushedInv(t, v, t', v', level, f);
    FlushedEntries(t, v, t', v', level, f);
    FlushStored(hist, flushed, switched, imm, VersionEntries(t, v), VersionEntries(t', v'));
  }

  /** Moving a memtable's entries into a table leaves the stored set as it was. */
  lemma FlushStored(hist: seq<Op>, flushed: nat, switched: nat, imm: seq<Entry>, a: set<Entry>, b: set<Entry>)
    requires TableOf(hist, flushed, switched, imm) && flushed <= switched
    requires b == a + (set e | e in imm)
    ensures b + Tail(hist, switched) == a + Tail(hist, flushed)
  {
    forall e ensures e in b + Tail(hist, switched) <==> e in a + Tail(hist, flushed) {
      InTail(hist, switched, e);
      InTail(hist, flushed, e);
    }
  }

  /** Once the immutable memtable is on disk only the current log is live. */
  lemma OlderLogsDead(d: Disk, r: Ram, hist: seq<Op>, flushed: nat, switched: nat)
    requires LogSplit(d, r, hist, flushed, switched) && LogsSorted(d.logs)
    ensures LiveRecords(d.logs[..|d.logs| - 1], r.logfileNumber) == []
    ensures LogsOk(d.logs, r.logfileNumber, hist, switched)
  {
    var n := |d.logs| - 1;
    DeadLogsSilent(d.logs[..n], r.logfileNumber);
    LiveRecordsLast(d.logs, r.logfileNumber);
    assert [] + d.logs[n].records == d.logs[n].records;
  }

  lemma FlushRam(d: Disk, d': Disk, r: Ram, r': Ram, hist: seq<Op>, flushed: nat, switched: nat, e: Edit)
    requires RamInv(d, r, hist, flushed, switched) && r.imm.Some? && LogsSorted(d.logs)
    requires d'.logs == d.logs && d'.current == d.current
    requires Manifest(d') == Manifest(d) + [e] && Replay(Manifest(d')) == Install(r.version, e)
    requires e.logNumber == Some(r.logfileNumber) && e.nextFile == Some(r.nextFile + 1)
    requires e.lastSequence == Some(r.last)
    requires r' == r.(version := Install(r.version, e), nextFile := r.nextFile + 1, logNumber := r.logfileNumber,
                      imm := None)
    requires LatestLogNumber(Manifest(d')) == e.logNumber && LatestNextFile(Manifest(d')) == e.nextFile
    requires LatestSequence(Manifest(d')) == e.lastSequence
    ensures RamInv(d', r', hist, switched, switched)
  {
    OlderLogsDead(d, r, hist, flushed, switched);
  }

  lemma FlushMemTableInv(s: Store, s': Store, level: nat, size: nat)
    requires Inv(s) && FlushMemTableStep(s, s', level, size)
    ensures Inv(s')
  {
    if s.ram.value.imm.value == [] {
      FlushEmptyInv(s, s', level, size);
    } else {
      FlushTableInv(s, s', level, size);
    }
  }

  lemma FlushTableDisk(d: Disk, r: Ram, hist: seq<Op>, flushed: nat, switched: nat, smallest: nat, level: nat,
                       f: FileMeta, d': Disk)
    requires DiskInv(d, hist, flushed, smallest) && RamInv(d, r, hist, flushed, switched)
    requires r.imm.Some? && r.imm.value != [] && f == TableMeta(r.nextFile, f.size, r.imm.value)
    requires level < NUM_LEVELS && (level == 0 || NoOverlapUpTo(r.version, level, f.smallest.user, f.largest.user))
    requires var e := FullEdit(r.logfileNumber, r.nextFile + 1, r.last, {}, [(level, f)]);
      d' == d.(tables := d.tables[r.nextFile := r.imm.value], manifests := d.manifests[d.current := Manifest(d) + [e]])
    ensures var e := FullEdit(r.logfileNumber, r.nextFile + 1, r.last, {}, [(level, f)]);
      && DiskInv(d', hist, switched, smallest)
      && RamInv(d', r.(version := Install(r.version, e), nextFile := r.nextFile + 1, logNumber := r.logfileNumber,
                       imm := None),
                hist, switched, switched)
  {
    var imm := r.imm.value;
    var e := FullEdit(r.logfileNumber, r.nextFile + 1, r.last, {}, [(level, f)]);
    var t' := d'.tables;
    assert Sorted(imm);
    hide Covered, VersionInv, TableOf, SnapshotsOk, Matches, NoOverlapUpTo, LevelsRise, NumbersOnce, EverAdded, Stored;
    FlushIsFlushed(d, r.version, level, f, imm, e, t');
    FlushTables(d.tables, r.version, t', Install(r.version, e), level, f, imm, hist, flushed, switched);
    OlderLogsDead(d, r, hist, flushed, switched);
    LogBelowCounter(d, r, hist, flushed, switched);
    FreshAddable(Manifest(d), d.current, e, level);
    DiskAfterEdit(d, d', e, hist, flushed, switched, smallest);
    FlushRam(d, d', r, r.(version := Install(r.version, e), nextFile := r.nextFile + 1, logNumber := r.logfileNumber,
                          imm := None),
             hist, flushed, switched, e);
  }

  lemma FlushTableInv(s: Store, s': Store, level: nat, size: nat)
    requires Inv(s) && FlushMemTableStep(s, s', level, size) && s.ram.value.imm.value != []
    ensures Inv(s')
  {
    hide DiskInv, RamInv, NoOverlapUpTo, Install, SaveTo, SaveLevels;
    var f := TableMeta(s.ram.value.nextFile, size, s.ram.value.imm.value);
    FlushTableDisk(s.disk, s.ram.value, s.hist, s.flushed, s.switched, Smallest(s), level, f, s'.disk);
  }

  lemma FlushEmptyInv(s: Store, s': Store, level: nat, size: nat)
    requires Inv(s) && FlushMemTableStep(s, s', level, size) && s.ram.value.imm.value == []
    ensures Inv(s')
  {
    hide Covered, VersionInv, TableOf, SnapshotsOk, Matches, NoOverlapUpTo, LevelsRise, NumbersOnce, EverAdded, Stored;
    var d, r := s.disk, s.ram.value;
    var e := FullEdit(r.logfileNumber, r.nextFile + 1, r.last, {}, []);
    EmptyTable(s.hist, s.flushed, s.switched);
    assert FreshAdds(Manifest(d), e, 0);
    FreshAddable(Manifest(d), d.current, e, 0);
    EmptyEditKeeps(d, e);
    OlderLogsDead(d, r, s.hist, s.flushed, s.switched);
    LogBelowCounter(d, r, s.hist, s.flushed, s.switched);
    DiskAfterEdit(d, s'.disk, e, s.hist, s.flushed, s.switched, SmallestSnapshot(r));
    FlushRam(d, s'.disk, r, s'.ram.value, s.hist, s.flushed, s.switched, e);
  }

  lemma EmptyTable(hist: seq<Op>, from: nat, to: nat)
    requires TableOf(hist, from, to, []) && from <= to
    ensures from == to
  {
    var none: seq<Entry> := [];
    assert from < |hist| ==> EntryAt(hist, from + 1) !in none;
  }

  lemma EmptyEditKeeps(d: Disk, e: Edit)
    requires ManifestOk(Manifest(d), d.current) && e.added == [] && e.deleted == {}
    ensures Install(Replay(Manifest(d)), e) == Replay(Manifest(d))
  {
    assert FreshAdds(Manifest(d), e, 0);
    FreshAddable(Manifest(d), d.current, e, 0);
    InstallApplied(Manifest(d), e);
    var v := Replay(Manifest(d));
    forall l | 0 <= l < NUM_LEVELS ensures Install(v, e)[l] == v[l] {
      assert AppliedAt(v[l], Install(v, e)[l], e, l);
      assert Untouched(e, l);
    }
  }

  // ---- compaction ----

  lemma DistinctInputs(t: Tables, v: Levels, hist: seq<Op>, flushed: nat, level: nat, in0: seq<FileMeta>,
                       in1: seq<FileMeta>)
    requires TablesOk(t, v, hist, flushed) && level + 1 < NUM_LEVELS && ValidInputs(v, level, in0, in1)
    ensures DistinctSequences(t, in0 + in1)
  {
    var files := in0 + in1;
    forall i, j | 0 <= i < j < |files| ensures ApartSequences(Data(t, files[i]), Data(t, files[j])) {
      var l := if i < |in0| then level else level + 1;
      var m := if j < |in0| then level else level + 1;
      assert files[i] in v[l] && files[j] in v[m];
      assert l == m ==> files[i] != files[j];
      TwoFilesApart(t, v, hist, flushed, l, files[i], m, files[j]);
    }
  }

  lemma TwoFilesApart(t: Tables, v: Levels, hist: seq<Op>, flushed: nat, l: nat, f: FileMeta, m: nat, g: FileMeta)
    requires TablesOk(t, v, hist, flushed) && l < NUM_LEVELS && m < NUM_LEVELS
    requires f in v[l] && g in v[m] && (l != m || f != g)
    ensures ApartSequences(Data(t, f), Data(t, g))
  {
    forall x, y | x in Data(t, f) && y in Data(t, g) ensures x.key.sequence != y.key.sequence {
      NoSharedEntries(t, v, l, f, m, g, x);
      InVersionEntries(t, v, l, f, x);
      InVersionEntries(t, v, m, g, y);
    }
  }

  /** Parts of a sorted concatenation are sorted and follow each other. */
  lemma {:induction false} FlattenParts(outs: seq<Output>)
    requires Sorted(Flatten(outs))
    ensures forall i :: 0 <= i < |outs| ==> Sorted(outs[i].entries)
    ensures forall i, j, a, b :: 0 <= i < j < |outs| && a in outs[i].entries && b in outs[j].entries ==>
            Before(a.key, b.key)
    ensures forall e :: e in Flatten(outs) <==> exists i :: 0 <= i < |outs| && e in outs[i].entries
  {
    if outs != [] {
      var init, last := outs[..|outs| - 1], outs[|outs| - 1];
      var a, b := Flatten(init), last.entries;
      SortedParts(a, b);
      FlattenParts(init);
      forall e ensures e in Flatten(outs) <==> exists i :: 0 <= i < |outs| && e in outs[i].entries {
        if e in a { var i :| 0 <= i < |init| && e in init[i].entries; assert e in outs[i].entries; }
        if e in b { assert e in outs[|outs| - 1].entries; }
        if i :| 0 <= i < |outs| && e in outs[i].entries { if i < |init| { assert e in init[i].entries; } }
      }
    }
  }

  lemma SortedParts(a: seq<Entry>, b: seq<Entry>)
    requires Sorted(a + b)
    ensures Sorted(a) && Sorted(b)
    ensures forall x, y :: x in a && y in b ==> Before(x.key, y.key)
  {
    var c := a + b;
    forall i, j | 0 <= i < j < |a| ensures Before(a[i].key, a[j].key) { assert Before(c[i].key, c[j].key); }
    forall i, j | 0 <= i < j < |b| ensures Before(b[i].key, b[j].key) { assert Before(c[|a| + i].key, c[|a| + j].key); }
    forall x, y | x in a && y in b ensures Before(x.key, y.key) {
      var i :| 0 <= i < |a| && a[i] == x;
      var j :| 0 <= j < |b| && b[j] == y;
      assert Before(c[i].key, c[|a| + j].key);
    }
  }

  ghost function Metas(outs: seq<Output>): seq<FileMeta> {
    seq(|outs|, i requires 0 <= i < |outs| => outs[i].meta)
  }

  /** Tables after writing outputs under distinct numbers that no live file has. */
  lemma {:induction false} WriteTablesData(t: Tables, outs: seq<Output>)
    requires forall i, j :: 0 <= i < j < |outs| ==> outs[i].meta.number != outs[j].meta.number
    ensures forall i :: 0 <= i < |outs| ==> outs[i].meta.number in WriteTables(t, outs)
    ensures forall i :: 0 <= i < |outs| ==> WriteTables(t, outs)[outs[i].meta.number] == outs[i].entries
    ensures forall n :: n in t ==> n in WriteTables(t, outs)
    ensures forall n :: n in t && (forall i :: 0 <= i < |outs| ==> outs[i].meta.number != n) ==>
            WriteTables(t, outs)[n] == t[n]
  {
    if outs != [] {
      var init := outs[..|outs| - 1];
      WriteTablesData(t, init);
      assert forall i :: 0 <= i < |init| ==> init[i] == outs[i];
    }
  }

  lemma OutputGood(t: Tables, outs: seq<Output>, first: nat, i: nat)
    requires GoodOutputs(outs, first) && Sorted(Flatten(outs)) && i < |outs|
    ensures GoodFile(WriteTables(t, outs), outs[i].meta)
    ensures Data(WriteTables(t, outs), outs[i].meta) == outs[i].entries
  {
    hide Flatten, WriteTables, Sorted;
    WriteTablesData(t, outs);
    FlattenParts(outs);
    assert GoodOutput(outs[i]) && outs[i].meta.number in WriteTables(t, outs);
  }

  lemma OutputsOrdered(outs: seq<Output>, first: nat)
    requires GoodOutputs(outs, first) && Sorted(Flatten(outs))
    ensures SortedLevel(Metas(outs))
  {
    FlattenParts(outs);
    var ms := Metas(outs);
    forall i, j | 0 <= i < j < |ms| ensures Before(ms[i].largest, ms[j].smallest) {
      var a, b := outs[i].entries, outs[j].entries;
      assert GoodOutput(outs[i]) && GoodOutput(outs[j]);
      assert a[|a| - 1] in a && b[0] in b;
    }
  }

  lemma OutputEntries(t: Tables, outs: seq<Output>, first: nat)
    requires GoodOutputs(outs, first) && Sorted(Flatten(outs))
    ensures FileEntries(WriteTables(t, outs), Metas(outs)) == set e | e in Flatten(outs)
  {
    hide GoodOutputs, WriteTables, Sorted, Flatten;
    var t', ms := WriteTables(t, outs), Metas(outs);
    assert forall e :: e in Flatten(outs) <==> exists i :: 0 <= i < |outs| && e in outs[i].entries by {
      FlattenParts(outs);
    }
    forall e ensures e in FileEntries(t', ms) <==> e in Flatten(outs) {
      if e in FileEntries(t', ms) {
        var f :| f in ms && e in Data(t', f);
        var i :| 0 <= i < |ms| && ms[i] == f;
        OutputGood(t, outs, first, i);
        assert e in outs[i].entries;
      }
      if e in Flatten(outs) {
        var i :| 0 <= i < |outs| && e in outs[i].entries;
        OutputGood(t, outs, first, i);
        assert ms[i] in ms && e in Data(t', ms[i]);
      }
    }
  }

  lemma OutputsGood(t: Tables, outs: seq<Output>, first: nat)
    requires GoodOutputs(outs, first) && Sorted(Flatten(outs))
    ensures GoodFiles(WriteTables(t, outs), Metas(outs)) && SortedLevel(Metas(outs))
    ensures FileEntries(WriteTables(t, outs), Metas(outs)) == set e | e in Flatten(outs)
  {
    hide GoodOutputs, Sorted, Flatten, FileEntries, GoodFile, SortedLevel, WriteTables;
    OutputsOrdered(outs, first);
    OutputEntries(t, outs, first);
    forall f | f in Metas(outs) ensures GoodFile(WriteTables(t, outs), f) {
      var i :| 0 <= i < |outs| && Metas(outs)[i] == f;
      OutputGood(t, outs, first, i);
    }
  }

  /** The edit of a compaction (`InstallCompactionResults`). */
  ghost function CompactionEdit(r: Ram, level: nat, in0: seq<FileMeta>, in1: seq<FileMeta>, outs: seq<Output>): Edit {
    FullEdit(r.logNumber, r.nextFile + |outs|, r.last, DeletionsOf(level, in0) + DeletionsOf(level + 1, in1),
             AddAll(level + 1, outs))
  }

  lemma CompactionFresh(edits: seq<Edit>, r: Ram, level: nat, in0: seq<FileMeta>, in1: seq<FileMeta>, outs: seq<Output>)
    requires HasCounters(edits) && LatestNextFile(edits).value <= r.nextFile
    requires GoodOutputs(outs, r.nextFile) && level + 1 < NUM_LEVELS
    ensures FreshAdds(edits, CompactionEdit(r, level, in0, in1, outs), level + 1)
    ensures forall l: nat, f :: Adds(CompactionEdit(r, level, in0, in1, outs), l, f) <==>
            l == level + 1 && f in Metas(outs)
    ensures forall l: nat, f :: Adds(CompactionEdit(r, level, in0, in1, outs), l, f) ==>
            r.nextFile <= f.number < r.nextFile + |outs|
  {
    var e := CompactionEdit(r, level, in0, in1, outs);
    assert forall i :: 0 <= i < |outs| ==> e.added[i] == (level + 1, outs[i].meta) && Metas(outs)[i] == outs[i].meta;
    forall l: nat, f ensures Adds(e, l, f) <==> l == level + 1 && f in Metas(outs) {
      if Adds(e, l, f) {
        var i :| 0 <= i < |e.added| && e.added[i] == (l, f);
        assert Metas(outs)[i] == f;
      }
      if l == level + 1 && f in Metas(outs) {
        var i :| 0 <= i < |outs| && Metas(outs)[i] == f;
        assert e.added[i] == (l, f);
      }
    }
  }

  /** Which live files a compaction's deletions remove. */
  lemma CompactionRemoves(v: Levels, r: Ram, level: nat, in0: seq<FileMeta>, in1: seq<FileMeta>, outs: seq<Output>,
                          l: nat, f: FileMeta)
    requires |v| == NUM_LEVELS && UniqueNumbers(v) && level + 1 < NUM_LEVELS && l < NUM_LEVELS && f in v[l]
    requires (forall g :: g in in0 ==> g in v[level]) && (forall g :: g in in1 ==> g in v[level + 1])
    requires GoodOutputs(outs, r.nextFile) && f.number < r.nextFile
    requires forall k: nat, g :: Adds(CompactionEdit(r, level, in0, in1, outs), k, g) ==> r.nextFile <= g.number
    ensures Removes(CompactionEdit(r, level, in0, in1, outs), l, f.number) <==>
            (l == level && f in in0) || (l == level + 1 && f in in1)
  {
    var e := CompactionEdit(r, level, in0, in1, outs);
    assert !AddsNumber(e, l, f.number) by {
      forall g: FileMeta | (l, g) in e.added ensures g.number != f.number { assert Adds(e, l, g); }
    }
    var n := f.number;
    if n in DeletedNumbers(e.deleted, l) {
      assert (l, n) in e.deleted;
      if (l, n) in DeletionsOf(level, in0) {
        var g :| g in in0 && (level, g.number) == (l, n);
        assert g == f;
      } else {
        var g :| g in in1 && (level + 1, g.number) == (l, n);
        assert g == f;
      }
    }
    if l == level && f in in0 { assert (level, n) in DeletionsOf(level, in0); assert (l, n) in e.deleted; }
    if l == level + 1 && f in in1 { assert (level + 1, n) in DeletionsOf(level + 1, in1); assert (l, n) in e.deleted; }
  }

  lemma CompactionLevels(v: Levels, v': Levels, r: Ram, level: nat, in0: seq<FileMeta>, in1: seq<FileMeta>,
                         outs: seq<Output>)
    requires Applied(v, v', CompactionEdit(r, level, in0, in1, outs)) && UniqueNumbers(v) && level + 1 < NUM_LEVELS
    requires (forall g :: g in in0 ==> g in v[level]) && (forall g :: g in in1 ==> g in v[level + 1])
    requires GoodOutputs(outs, r.nextFile) && forall l, f :: 0 <= l < NUM_LEVELS && f in v[l] ==> f.number < r.nextFile
    requires forall l: nat, f :: Adds(CompactionEdit(r, level, in0, in1, outs), l, f) <==>
             l == level + 1 && f in Metas(outs)
    requires forall l: nat, f :: Adds(CompactionEdit(r, level, in0, in1, outs), l, f) ==> r.nextFile <= f.number
    ensures forall l :: 0 <= l < NUM_LEVELS && l != level && l != level + 1 ==> v'[l] == v[l]
    ensures forall f :: f in v'[level] <==> f in v[level] && f !in in0
    ensures forall f :: f in v'[level + 1] <==> (f in v[level + 1] && f !in in1) || f in Metas(outs)
  {
    var e := CompactionEdit(r, level, in0, in1, outs);
    forall l | 0 <= l < NUM_LEVELS && l != level && l != level + 1 ensures v'[l] == v[l] {
      assert AppliedAt(v[l], v'[l], e, l);
      assert Untouched(e, l);
    }
    assert AppliedAt(v[level], v'[level], e, level);
    assert AppliedAt(v[level + 1], v'[level + 1], e, level + 1);
    forall f ensures f in v'[level] <==> f in v[level] && f !in in0 {
      if f in v[level] { CompactionRemoves(v, r, level, in0, in1, outs, level, f); }
    }
    forall f ensures f in v'[level + 1] <==> (f in v[level + 1] && f !in in1) || f in Metas(outs) {
      if f in v[level + 1] { CompactionRemoves(v, r, level, in0, in1, outs, level + 1, f); }
    }
  }

  lemma CompactionTables(t: Tables, v: Levels, inputs: seq<FileMeta>, outs: seq<Output>, first: nat)
    requires GoodOutputs(outs, first) && Sorted(Flatten(outs))
    requires forall l, f :: 0 <= l < |v| && f in v[l] ==> f.number < first && f.number in t
    requires forall e :: e in Flatten(outs) ==> e in MergeInputs(t, inputs)
    ensures TablesKept(t, v, WriteTables(t, outs))
    ensures FromInputs(t, inputs, WriteTables(t, outs), Metas(outs))
  {
    WriteTablesData(t, outs);
    OutputEntries(t, outs, first);
    MergeInputsMembers(t, inputs);
    var t' := WriteTables(t, outs);
    forall o, e | o in Metas(outs) && e in Data(t', o) ensures exists i :: i in inputs && e in Data(t, i) {
      assert e in FileEntries(t', Metas(outs));
    }
  }

  lemma FreshOutputs(v: Levels, v': Levels, level: nat, outs: seq<Output>, first: nat)
    requires |v| == NUM_LEVELS && |v'| == NUM_LEVELS && level + 1 < NUM_LEVELS && GoodOutputs(outs, first)
    requires forall l, f :: 0 <= l < NUM_LEVELS && f in v[l] ==> f.number < first
    requires forall l, f :: 0 <= l < NUM_LEVELS && f in v'[l] ==> f in v[l] || (l == level + 1 && f in Metas(outs))
    ensures FreshOuts(v', level, Metas(outs))
  {
    var ms := Metas(outs);
    assert forall i :: 0 <= i < |outs| ==> ms[i].number == first + i;
    forall o, l, f | o in ms && 0 <= l < NUM_LEVELS && f in v'[l] && f.number == o.number
      ensures l == level + 1 && f == o
    {
      var i :| 0 <= i < |ms| && ms[i] == o;
      if f in ms { var j :| 0 <= j < |ms| && ms[j] == f; }
    }
  }

  ghost predicate LiveBelow(t: Tables, v: Levels, n: nat) {
    forall l, f :: 0 <= l < |v| && f in v[l] ==> f.number < n && f.number in t
  }

  /** The disk relation of a compaction is a replacement of inputs by outputs. */
  lemma CompactionReplaced(d: Disk, r: Ram, level: nat, in0: seq<FileMeta>, in1: seq<FileMeta>, outs: seq<Output>)
    requires ManifestOk(Manifest(d), d.current) && r.version == Replay(Manifest(d))
    requires LatestNextFile(Manifest(d)).value <= r.nextFile && LiveBelow(d.tables, r.version, r.nextFile)
    requires VersionInv(d.tables, r.version) && level + 1 < NUM_LEVELS
    requires ValidInputs(r.version, level, in0, in1)
    requires GoodOutputs(outs, r.nextFile) && Sorted(Flatten(outs))
    requires forall e :: e in Flatten(outs) ==> e in MergeInputs(d.tables, in0 + in1)
    ensures var e := CompactionEdit(r, level, in0, in1, outs);
      && FreshAdds(Manifest(d), e, level + 1)
      && (forall l: nat, f :: Adds(e, l, f) ==> f.number < r.nextFile + |outs|)
      && Replaced(d.tables, r.version, WriteTables(d.tables, outs), Install(r.version, e), level, in0, in1, Metas(outs))
  {
    hide ManifestOk, FreshAdds, Addable, Install, Replay, Recency, GoodOutputs, GoodFiles, SortedLevel, NumbersOnce,
      Flatten, MergeInputs, WriteTables, FileEntries, LevelsRise, DeletionsOf, AddAll, FromInputs, TablesKept,
      FreshOuts, Adds, Metas, AppliedAt;
    var e := CompactionEdit(r, level, in0, in1, outs);
    OnceEach(Manifest(d), d.current);
    CompactionFresh(Manifest(d), r, level, in0, in1, outs);
    FreshAddable(Manifest(d), d.current, e, level + 1);
    InstallApplied(Manifest(d), e);
    CompactionLevels(r.version, Install(r.version, e), r, level, in0, in1, outs);
    OutputsGood(d.tables, outs, r.nextFile);
    CompactionTables(d.tables, r.version, in0 + in1, outs, r.nextFile);
    FreshOutputs(r.version, Install(r.version, e), level, outs, r.nextFile);
    AppliedOrdered(r.version, Install(r.version, e), e);
  }

  lemma OnceEach(edits: seq<Edit>, current: nat)
    requires ManifestOk(edits, current)
    ensures HasCounters(edits)
    ensures forall level :: 0 <= level < NUM_LEVELS ==> NumbersOnce([], edits, level)
  {
  }

  lemma AppliedOrdered(v: Levels, v': Levels, e: Edit)
    requires Applied(v, v', e)
    ensures forall l :: 0 <= l < NUM_LEVELS ==> SmallestOrdered(v'[l])
  {
    forall l | 0 <= l < NUM_LEVELS ensures SmallestOrdered(v'[l]) { assert AppliedAt(v[l], v'[l], e, l); }
  }

  /** With the boundary hypothesis, a marker the compaction may drop hides nothing that is
      left outside its inputs. */
  lemma CompactionMarkersSafe(t: Tables, v: Levels, hist: seq<Op>, flushed: nat, level: nat,
                              in0: seq<FileMeta>, in1: seq<FileMeta>, smallest: nat)
    requires |v| == NUM_LEVELS && TablesOk(t, v, hist, flushed) && level + 1 < NUM_LEVELS
    requires ValidInputs(v, level, in0, in1) && NoSharedBoundary(v, level, in1)
    ensures MarkersSafe(Stored(t, v, hist, flushed), MergeInputs(t, in0 + in1), smallest, v, level)
  {
    hide TablesOk, ValidInputs, NoSharedBoundary, BaseLevel, Stored, MergeInputs;
    var stored, input := Stored(t, v, hist, flushed), MergeInputs(t, in0 + in1);
    forall m, e | m in input && BaseLevel(v, level, m.key.user) && e in stored && e !in input &&
      e.key.user == m.key.user
      ensures e.key.sequence > m.key.sequence
    {
      MarkerSafe(t, v, hist, flushed, level, in0, in1, m, e);
    }
  }

  lemma MarkerSafe(t: Tables, v: Levels, hist: seq<Op>, flushed: nat, level: nat,
                   in0: seq<FileMeta>, in1: seq<FileMeta>, m: Entry, e: Entry)
    requires |v| == NUM_LEVELS && TablesOk(t, v, hist, flushed) && level + 1 < NUM_LEVELS
    requires ValidInputs(v, level, in0, in1) && NoSharedBoundary(v, level, in1)
    requires m in MergeInputs(t, in0 + in1) && BaseLevel(v, level, m.key.user)
    requires e in Stored(t, v, hist, flushed) && e !in MergeInputs(t, in0 + in1) && e.key.user == m.key.user
    ensures e.key.sequence > m.key.sequence
  {
    hide TablesOk, ValidInputs, BaseLevel, MergeInputs, Stored;
    var located, g, y := LocateOlder(t, v, hist, flushed, level, in0, in1, m, e);
  }

  /** An entry left out of the inputs that is not newer than a base-level key's input entry
      lies in a left-out file of the output level, next to an input file that shares a user
      key with it. */
  lemma LocateOlder(t: Tables, v: Levels, hist: seq<Op>, flushed: nat, level: nat,
                    in0: seq<FileMeta>, in1: seq<FileMeta>, m: Entry, e: Entry)
    returns (located: bool, g: FileMeta, y: FileMeta)
    requires |v| == NUM_LEVELS && TablesOk(t, v, hist, flushed) && level + 1 < NUM_LEVELS
    requires ValidInputs(v, level, in0, in1)
    requires m in MergeInputs(t, in0 + in1) && BaseLevel(v, level, m.key.user)
    requires e in Stored(t, v, hist, flushed) && e !in MergeInputs(t, in0 + in1) && e.key.user == m.key.user
    ensures located ==> AcrossBoundary(t, v, level, in1, g, m, y, e)
    ensures !located ==> e.key.sequence > m.key.sequence
  {
    MergeInputsMembers(t, in0 + in1);
    hide VersionInv, BaseLevel, Contiguous, NoBoundary, MergeInputs, MeetsHull, UserOverlap;
    g :| g in in0 + in1 && m in Data(t, g);
    var k := if g in in0 then level else level + 1;
    InVersionEntries(t, v, k, g, m);
    located, y := false, g;
    if e in VersionEntries(t, v) {
      var l;
      l, y :| 0 <= l < |v| && y in v[l] && e in Data(t, y);
      assert y !in in0 + in1;
      OutsideIsNewer(t, v, hist, flushed, level, in0, in1, g, m, l, y, e);
      located := e.key.sequence <= m.key.sequence;
    }
  }

  /** Marker `m` of input file `g` and entry `e` of file `y`, which is at the output level,
      left out of the inputs, and shares a user key with `g`. */
  ghost predicate AcrossBoundary(t: Tables, v: Levels, level: nat, in1: seq<FileMeta>, g: FileMeta, m: Entry,
                                 y: FileMeta, e: Entry)
    requires level + 1 < |v|
  {
    && g in in1 && m in Data(t, g)
    && y in v[level + 1] && y !in in1 && e in Data(t, y)
    && UserOverlap(y, g)
  }

  lemma OutsideIsNewer(t: Tables, v: Levels, hist: seq<Op>, flushed: nat, level: nat, in0: seq<FileMeta>,
                       in1: seq<FileMeta>,
                       g: FileMeta, m: Entry, l: nat, y: FileMeta, e: Entry)
    requires TablesOk(t, v, hist, flushed) && level + 1 < NUM_LEVELS
    requires ValidInputs(v, level, in0, in1)
    requires g in in0 + in1 && m in Data(t, g) && BaseLevel(v, level, m.key.user)
    requires l < NUM_LEVELS && y in v[l] && y !in in0 + in1 && e in Data(t, y) && e.key.user == m.key.user
    ensures e.key.sequence > m.key.sequence || AcrossBoundary(t, v, level, in1, g, m, y, e)
  {
    hide VersionInv, ValidInputs, BaseLevel, Genuine, VersionEntries, GoodFile, TablesOk;
    StoredGenuine(t, v, hist, flushed);
    TablesVersion(t, v, hist, flushed);
    InputParts(v, level, in0, in1, g);
    var k := if g in in0 then level else level + 1;
    FileIn(t, v, k, g);
    FileIn(t, v, l, y);
    FileBounds(t, y, e);
    FileBounds(t, g, m);
    NotDeeper(v, level, l, y, m.key.user);
    if l < k {
      ShallowerNewer(t, v, l, y, k, g);
    } else if l == level {
      LeftOutIsNewer(t, v, hist, level, in0, in1, y, g);
    } else {
      LeftOutMisses(v, level, in0, in1, g, y);
    }
  }

  lemma TablesVersion(t: Tables, v: Levels, hist: seq<Op>, flushed: nat)
    requires TablesOk(t, v, hist, flushed)
    ensures VersionInv(t, v) && |v| == NUM_LEVELS
  {
    hide Recency, UniqueNumbers, NoDuplicates, VersionEntries, GoodFiles, SortedLevel;
  }

  lemma NotDeeper(v: Levels, level: nat, l: nat, f: FileMeta, user: UserKey)
    requires |v| == NUM_LEVELS && BaseLevel(v, level, user) && l < NUM_LEVELS && f in v[l] && OverlapsUser(f, user)
    ensures l < level + 2
  {
  }

  lemma LeftOutMisses(v: Levels, level: nat, in0: seq<FileMeta>, in1: seq<FileMeta>, g: FileMeta, y: FileMeta)
    requires |v| == NUM_LEVELS && level + 1 < NUM_LEVELS && ValidInputs(v, level, in0, in1)
    requires g in in0 + in1 && y in v[level + 1] && y !in in1
    ensures g in in0 ==> !UserOverlap(y, g)
  {
    assert !MeetsHull(in0, y);
  }

  /** Memory after an edit that leaves the logs alone. */
  lemma RamAfterEdit(d: Disk, d': Disk, r: Ram, r': Ram, hist: seq<Op>, flushed: nat, switched: nat, e: Edit)
    requires RamInv(d, r, hist, flushed, switched)
    requires d'.logs == d.logs && d'.current == d.current
    requires Manifest(d') == Manifest(d) + [e] && Replay(Manifest(d')) == Install(r.version, e)
    requires e.logNumber == Some(r.logNumber) && e.nextFile.Some? && e.nextFile.value >= r.nextFile
    requires e.lastSequence == Some(r.last)
    requires r' == r.(version := Install(r.version, e), nextFile := e.nextFile.value, logNumber := r.logNumber)
    requires LatestLogNumber(Manifest(d')) == e.logNumber && LatestNextFile(Manifest(d')) == e.nextFile
    requires LatestSequence(Manifest(d')) == e.lastSequence
    ensures RamInv(d', r', hist, flushed, switched)
  {
    hide TableOf, Matches, LiveRecords;
  }

  /** Sorted merged input, all of it stored. */
  lemma CompactionInput(t: Tables, v: Levels, hist: seq<Op>, flushed: nat, level: nat, in0: seq<FileMeta>,
                        in1: seq<FileMeta>)
    requires |v| == NUM_LEVELS && TablesOk(t, v, hist, flushed) && level + 1 < NUM_LEVELS
    requires ValidInputs(v, level, in0, in1)
    ensures Sorted(MergeInputs(t, in0 + in1))
    ensures forall e :: e in MergeInputs(t, in0 + in1) <==> e in FileEntries(t, in0 + in1)
    ensures forall e :: e in MergeInputs(t, in0 + in1) ==> e in VersionEntries(t, v)
  {
    DistinctInputs(t, v, hist, flushed, level, in0, in1);
    InputsGood(t, v, level, in0, in1);
    MergeInputsSorted(t, in0 + in1);
    MergeInputsMembers(t, in0 + in1);
    forall e | e in FileEntries(t, in0 + in1) ensures e in VersionEntries(t, v) {
      var g :| g in in0 + in1 && e in Data(t, g);
      InVersionEntries(t, v, if g in in0 then level else level + 1, g, e);
    }
  }

  /** The stored set after a compaction, as `Views` describes it. */
  lemma CompactionStored(hist: seq<Op>, flushed: nat, before: set<Entry>, after: set<Entry>, input: seq<Entry>,
                         gone: set<Entry>,
                         kept: set<Entry>, smallest: nat, v: Levels, level: nat)
    requires |v| == NUM_LEVELS
    requires forall e :: e in before ==> e.key.sequence <= flushed
    requires forall e :: e in input ==> e in before
    requires forall e :: e in input <==> e in gone
    requires kept == (set e | e in Kept(input, |input|, smallest, v, level))
    requires after == (before - gone) + kept
    ensures after + Tail(hist, flushed) == AfterCompaction(before + Tail(hist, flushed), input, smallest, v, level)
  {
    forall e ensures e in after + Tail(hist, flushed) <==>
                     e in AfterCompaction(before + Tail(hist, flushed), input, smallest, v, level)
    {
      InTail(hist, flushed, e);
    }
  }

  lemma CompactionTablesOk(d: Disk, r: Ram, hist: seq<Op>, flushed: nat, smallest: nat, level: nat,
                           in0: seq<FileMeta>, in1: seq<FileMeta>, outs: seq<Output>)
    requires |r.version| == NUM_LEVELS && level + 1 < NUM_LEVELS
    requires TablesOk(d.tables, r.version, hist, flushed) && ValidInputs(r.version, level, in0, in1)
    requires NoSharedBoundary(r.version, level, in1) && smallest < MAX_SEQUENCE
    requires Covered(hist, Stored(d.tables, r.version, hist, flushed), smallest)
    requires GoodOutputs(outs, r.nextFile)
    requires var input := MergeInputs(d.tables, in0 + in1);
      Flatten(outs) == Kept(input, |input|, smallest, r.version, level)
    requires Replaced(d.tables, r.version, WriteTables(d.tables, outs),
                      Install(r.version, CompactionEdit(r, level, in0, in1, outs)),
                      level, in0, in1, Metas(outs))
    ensures var v', t' := Install(r.version, CompactionEdit(r, level, in0, in1, outs)), WriteTables(d.tables, outs);
      TablesOk(t', v', hist, flushed) && Covered(hist, Stored(t', v', hist, flushed), smallest)
  {
    hide VersionInv, ValidInputs, NoSharedBoundary, Covered, GoodOutputs, Replaced, Sorted, Install, CompactionEdit,
      MergeInputs, MarkersSafe, Kept, Metas, FileEntries, AfterCompaction, Genuine, Tail, WriteTables, Flatten,
      VersionEntries;
    var t, v := d.tables, r.version;
    var t', v' := WriteTables(t, outs), Install(v, CompactionEdit(r, level, in0, in1, outs));
    var input := MergeInputs(t, in0 + in1);
    StoredGenuine(t, v, hist, flushed);
    CompactionInput(t, v, hist, flushed, level, in0, in1);
    KeptSorted(input, |input|, smallest, v, level);
    OutputEntries(t, outs, r.nextFile);
    ReplacedInv(t, v, t', v', hist, level, in0, in1, Metas(outs));
    ReplacedEntries(t, v, t', v', level, in0, in1, Metas(outs));
    CompactionStored(hist, flushed, VersionEntries(t, v), VersionEntries(t', v'), input, FileEntries(t, in0 + in1),
                     FileEntries(t', Metas(outs)), smallest, v, level);
    CompactionMarkersSafe(t, v, hist, flushed, level, in0, in1, smallest);
    CompactionCovered(hist, Stored(t, v, hist, flushed), input, smallest, v, level);
    KeptFromInput(input, smallest, v, level);
  }

  lemma KeptFromInput(input: seq<Entry>, smallest: nat, v: Levels, level: nat)
    requires |v| == NUM_LEVELS
    ensures forall e :: e in Kept(input, |input|, smallest, v, level) ==> e in input
  {
    KeptMembers(input, |input|, smallest, v, level);
  }

  lemma AllLiveBelow(d: Disk, t: Tables, v: Levels, n: nat)
    requires ManifestOk(Manifest(d), d.current) && v == Replay(Manifest(d))
    requires VersionInv(t, v) && LatestNextFile(Manifest(d)).value <= n
    ensures LiveBelow(t, v, n)
  {
    forall l, f | 0 <= l < |v| && f in v[l] ensures f.number < n && f.number in t {
      LiveBelowCounter(d, l, f);
      assert GoodFile(t, f);
    }
  }

  lemma CompactDisk(d: Disk, r: Ram, hist: seq<Op>, flushed: nat, switched: nat, smallest: nat, level: nat,
                    in0: seq<FileMeta>, in1: seq<FileMeta>, outs: seq<Output>, d': Disk)
    requires DiskInv(d, hist, flushed, smallest) && RamInv(d, r, hist, flushed, switched)
    requires |r.version| == NUM_LEVELS && level + 1 < NUM_LEVELS
    requires ValidInputs(r.version, level, in0, in1) && NoSharedBoundary(r.version, level, in1)
    requires GoodOutputs(outs, r.nextFile)
    requires var input := MergeInputs(d.tables, in0 + in1);
      Flatten(outs) == Kept(input, |input|, smallest, r.version, level)
    requires d' == d.(tables := WriteTables(d.tables, outs),
                      manifests := d.manifests[d.current := Manifest(d) + [CompactionEdit(r, level, in0, in1, outs)]])
    ensures var e := CompactionEdit(r, level, in0, in1, outs);
      && DiskInv(d', hist, flushed, smallest)
      && RamInv(d', r.(version := Install(r.version, e), nextFile := r.nextFile + |outs|, logNumber := r.logNumber),
                hist, flushed, switched)
  {
    hide ManifestOk, VersionInv, ValidInputs, NoSharedBoundary, Covered, GoodOutputs, Replaced, Sorted, Install,
      MergeInputs, Replay, Kept, Metas, WriteTables, Flatten, MemoryOk, SnapshotsOk, LogSplit, LogsOk, Stored,
      FreshAdds, LevelsRise, Addable, LiveBelow;
    var e := CompactionEdit(r, level, in0, in1, outs);
    var input := MergeInputs(d.tables, in0 + in1);
    assert TablesOk(d.tables, r.version, hist, flushed);
    AllLiveBelow(d, d.tables, r.version, r.nextFile);
    CompactionInput(d.tables, r.version, hist, flushed, level, in0, in1);
    KeptSorted(input, |input|, smallest, r.version, level);
    KeptFromInput(input, smallest, r.version, level);
    CompactionReplaced(d, r, level, in0, in1, outs);
    CompactionTablesOk(d, r, hist, flushed, smallest, level, in0, in1, outs);
    FreshAddable(Manifest(d), d.current, e, level + 1);
    LogBelowCounter(d, r, hist, flushed, switched);
    DiskAfterEdit(d, d', e, hist, flushed, flushed, smallest);
    RamAfterEdit(d, d', r,
                 r.(version := Install(r.version, e), nextFile := r.nextFile + |outs|, logNumber := r.logNumber),
                 hist, flushed, switched, e);
  }

  lemma CompactInv(s: Store, s': Store, level: nat, in0: seq<FileMeta>, in1: seq<FileMeta>, outs: seq<Output>)
    requires Inv(s) && CompactStep(s, s', level, in0, in1, outs)
    ensures Inv(s')
  {
    hide DiskInv, RamInv, ValidInputs, NoSharedBoundary, GoodOutputs, Install, MergeInputs, Kept, Flatten, WriteTables;
    CompactDisk(s.disk, s.ram.value, s.hist, s.flushed, s.switched, Smallest(s), level, in0, in1, outs, s'.disk);
  }

  // ---- trivial move ----

  ghost function MoveEdit(r: Ram, level: nat, f: FileMeta): Edit {
    FullEdit(r.logNumber, r.nextFile, r.last, {(level, f.number)}, [(level + 1, f)])
  }

  lemma MoveShape(r: Ram, level: nat, f: FileMeta)
    ensures var e := MoveEdit(r, level, f);
      && (forall l: nat, g :: Adds(e, l, g) <==> l == level + 1 && g == f)
      && (forall l: nat, n: nat :: Removes(e, l, n) <==> l == level && n == f.number)
      && (forall l: nat :: SingleAdds(e, l))
      && (forall l: nat :: l != level && l != level + 1 ==> Untouched(e, l))
  {
    var e := MoveEdit(r, level, f);
    forall l: nat, n: nat ensures Removes(e, l, n) <==> l == level && n == f.number {
      assert (level, f.number) in e.deleted;
      assert l == level && n == f.number ==> n in DeletedNumbers(e.deleted, l);
    }
  }

  /** A moved file has never been at its new level. */
  lemma MoveAddable(edits: seq<Edit>, current: nat, r: Ram, level: nat, f: FileMeta)
    requires ManifestOk(edits, current) && level + 1 < NUM_LEVELS
    requires f in Replay(edits)[level]
    ensures Addable(edits, MoveEdit(r, level, f))
  {
    MoveShape(r, level, f);
  }

  lemma MoveLevels(v: Levels, v': Levels, r: Ram, level: nat, f: FileMeta)
    requires Applied(v, v', MoveEdit(r, level, f)) && UniqueNumbers(v) && level + 1 < NUM_LEVELS && f in v[level]
    ensures forall l :: 0 <= l < NUM_LEVELS && l != level && l != level + 1 ==> v'[l] == v[l]
    ensures forall g :: g in v'[level] <==> g in v[level] && g !in [f]
    ensures forall g :: g in v'[level + 1] <==> g in v[level + 1] || g in [f]
    ensures FreshOuts(v', level, [f])
  {
    MoveShape(r, level, f);
    var e := MoveEdit(r, level, f);
    forall l | 0 <= l < NUM_LEVELS ensures AppliedAt(v[l], v'[l], e, l) {}
  }

  lemma MovedMember(v: Levels, v': Levels, r: Ram, level: nat, f: FileMeta, m: nat, g: FileMeta)
    requires Applied(v, v', MoveEdit(r, level, f)) && UniqueNumbers(v) && level + 1 < NUM_LEVELS && f in v[level]
    requires m < NUM_LEVELS && g in v'[m]
    ensures g in v[m] || (m == level + 1 && g == f)
  {
    hide Applied, UniqueNumbers, MoveEdit, FreshOuts;
    MoveLevels(v, v', r, level, f);
  }

  lemma MoveRise(edits: seq<Edit>, current: nat, r: Ram, level: nat, f: FileMeta)
    requires ManifestOk(edits, current) && level + 1 < NUM_LEVELS && UniqueNumbers(Replay(edits))
    requires f in Replay(edits)[level]
    ensures LevelsRise(edits + [MoveEdit(r, level, f)], Install(Replay(edits), MoveEdit(r, level, f)))
  {
    hide NumbersOnce, EverAdded, Install, Replay, MoveEdit, Applied, Addable, UniqueNumbers, FreshOuts;
    var e := MoveEdit(r, level, f);
    var v, v' := Replay(edits), Install(Replay(edits), e);
    MoveShape(r, level, f);
    MoveAddable(edits, current, r, level, f);
    InstallApplied(edits, e);
    MoveLevels(v, v', r, level, f);
    forall l: nat, m, h, g: FileMeta | EverAdded(edits + [e], l, h) && 0 <= m < |v'| && g in v'[m] &&
      h.number == g.number ensures l <= m {
      EverAddedSnoc(edits, e, l, h);
      MovedMember(v, v', r, level, f, m, g);
    }
  }

  lemma MoveDisk(d: Disk, r: Ram, hist: seq<Op>, flushed: nat, switched: nat, smallest: nat, level: nat, f: FileMeta,
                 d': Disk)
    requires DiskInv(d, hist, flushed, smallest) && RamInv(d, r, hist, flushed, switched)
    requires |r.version| == NUM_LEVELS && level + 1 < NUM_LEVELS && ValidInputs(r.version, level, [f], [])
    requires d' == d.(manifests := d.manifests[d.current := Manifest(d) + [MoveEdit(r, level, f)]])
    ensures var e := MoveEdit(r, level, f);
      && DiskInv(d', hist, flushed, smallest)
      && RamInv(d', r.(version := Install(r.version, e), nextFile := r.nextFile, logNumber := r.logNumber), hist,
                flushed, switched)
  {
    hide ManifestOk, Recency, Covered, Replaced, Sorted, Install, Replay, Gapless, NoBoundary, MeetsHull, MemoryOk,
      SnapshotsOk, LogSplit, LogsOk, LevelsRise, Addable, Genuine, VersionEntries, Tail, Shape;
    var e := MoveEdit(r, level, f);
    var v, v' := r.version, Install(r.version, e);
    assert f in [f];
    assert f in v[level];
    MoveAddable(Manifest(d), d.current, r, level, f);
    MoveShape(r, level, f);
    OnceEach(Manifest(d), d.current);
    InstallApplied(Manifest(d), e);
    MoveReplaced(d.tables, v, v', r, level, f);
    StoredGenuine(d.tables, v, hist, flushed);
    ReplacedInv(d.tables, v, d.tables, v', hist, level, [f], [], [f]);
    ReplacedEntries(d.tables, v, d.tables, v', level, [f], [], [f]);
    MoveEntries(d.tables, v, level, f);
    MoveRise(Manifest(d), d.current, r, level, f);
    LiveBelowCounter(d, level, f);
    LogBelowCounter(d, r, hist, flushed, switched);
    DiskAfterEdit(d, d', e, hist, flushed, flushed, smallest);
    RamAfterEdit(d, d', r, r.(version := Install(r.version, e), nextFile := r.nextFile, logNumber := r.logNumber), hist,
                 flushed, switched, e);
  }

  lemma AppliedLength(v: Levels, v': Levels, e: Edit)
    requires Applied(v, v', e)
    ensures |v'| == NUM_LEVELS
  {
  }

  lemma MoveReplaced(t: Tables, v: Levels, v': Levels, r: Ram, level: nat, f: FileMeta)
    requires VersionInv(t, v) && Applied(v, v', MoveEdit(r, level, f)) && level + 1 < NUM_LEVELS && f in v[level]
    ensures Replaced(t, v, t, v', level, [f], [], [f])
  {
    hide VersionInv, MoveEdit, FreshOuts, SmallestOrdered, Applied, TablesKept, GoodFiles, SortedLevel, FromInputs,
      Replaced;
    AppliedLength(v, v', MoveEdit(r, level, f));
    VersionParts(t, v);
    MoveLevels(v, v', r, level, f);
    AppliedOrdered(v, v', MoveEdit(r, level, f));
    AllKept(t, v);
    FileIn(t, v, level, f);
    OneOutput(t, f);
    forall g ensures g in v'[level + 1] <==> (g in v[level + 1] && g !in []) || g in [f] {}
    MakeReplaced(t, v, t, v', level, [f], [], [f]);
  }

  lemma AllKept(t: Tables, v: Levels)
    requires VersionInv(t, v)
    ensures TablesKept(t, v, t)
  {
    hide VersionInv;
    VersionParts(t, v);
    forall l, f | 0 <= l < |v| && f in v[l] ensures f.number in t { FileIn(t, v, l, f); }
  }

  /** A moved file, as the only output, holds what the only input held. */
  lemma OneOutput(t: Tables, f: FileMeta)
    requires GoodFile(t, f)
    ensures GoodFiles(t, [f]) && SortedLevel([f]) && FromInputs(t, [f] + [], t, [f])
  {
    hide GoodFile;
    assert f in [f] + [];
  }

  lemma MoveEntries(t: Tables, v: Levels, level: nat, f: FileMeta)
    requires level < |v| && f in v[level]
    ensures (VersionEntries(t, v) - FileEntries(t, [f] + [])) + FileEntries(t, [f]) == VersionEntries(t, v)
  {
    assert [f] + [] == [f];
    forall e | e in FileEntries(t, [f]) ensures e in VersionEntries(t, v) { InVersionEntries(t, v, level, f, e); }
  }

  lemma TrivialMoveInv(s: Store, s': Store, level: nat, f: FileMeta)
    requires Inv(s) && TrivialMoveStep(s, s', level, f)
    ensures Inv(s')
  {
    hide DiskInv, RamInv, ValidInputs, Install;
    MoveDisk(s.disk, s.ram.value, s.hist, s.flushed, s.switched, Smallest(s), level, f, s'.disk);
  }
}
