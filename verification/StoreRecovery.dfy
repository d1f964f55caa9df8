/** Obsolete and stray files, crashes and recovery keep the store invariant. */
module StoreRecovery {
  import opened InternalKeys
  import opened VersionReads
  import opened CompactionInputs
  import opened Compactions
  import opened VersionBuilder
  import opened Views
  import opened LevelShape
  import opened StoreState
  import opened StoreSteps
  import opened StoreInvariant
  import opened StoreMemorySteps
  import opened StoreVersionSteps

  // ---- files that no version names ----

  lemma TablesAgree(t: Tables, t': Tables, v: Levels)
    requires VersionInv(t, v) && TablesKept(t, v, t')
    ensures VersionInv(t', v) && VersionEntries(t', v) == VersionEntries(t, v)
  {
    hide UniqueNumbers, SortedLevel, Sorted;
    forall l | 0 <= l < NUM_LEVELS ensures GoodFiles(t', v[l]) {
      forall f | f in v[l] ensures GoodFile(t', f) { assert GoodFile(t, f); }
    }
    forall f, g, l, m | 0 <= l < NUM_LEVELS && 0 <= m < NUM_LEVELS && f in v[l] && g in v[m] && NewerFile(t, f, g)
      ensures NewerFile(t', f, g)
    {
      assert Data(t', f) == Data(t, f) && Data(t', g) == Data(t, g);
    }
  }

  lemma UnnamedTable(t: Tables, t': Tables, v: Levels, n: nat)
    requires VersionInv(t, v) && !LiveNumber(v, n)
    requires forall k :: k in t && k != n ==> k in t' && t'[k] == t[k]
    ensures TablesKept(t, v, t')
  {
    forall l, f | 0 <= l < |v| && f in v[l] ensures f.number in t' && Data(t', f) == Data(t, f) {
      assert GoodFile(t, f);
    }
  }

  /** A disk change that leaves live tables, live log records and the MANIFEST alone. */
  lemma HarmlessDisk(d: Disk, d': Disk, hist: seq<Op>, flushed: nat, smallest: nat)
    requires DiskInv(d, hist, flushed, smallest)
    requires d'.current == d.current && Manifest(d') == Manifest(d)
    requires TablesKept(d.tables, Replay(Manifest(d)), d'.tables)
    requires LogsOk(d'.logs, LatestLogNumber(Manifest(d)).value, hist, flushed)
    ensures DiskInv(d', hist, flushed, smallest)
  {
    hide ManifestOk, LogsOk, Replay, TablesKept, Covered, VersionInv;
    TablesAgree(d.tables, d'.tables, Replay(Manifest(d)));
  }

  lemma DeleteTableInv(s: Store, s': Store, n: nat)
    requires Inv(s) && DeleteTableStep(s, s', n)
    ensures Inv(s')
  {
    hide ManifestOk, LogsOk, Replay, Covered, VersionInv, TablesKept, LiveNumber, MemoryOk, SnapshotsOk, Matches,
      LiveRecords;
    UnnamedTable(s.disk.tables, s'.disk.tables, s.ram.value.version, n);
    HarmlessDisk(s.disk, s'.disk, s.hist, s.flushed, Smallest(s));
  }

  lemma StrayTableInv(s: Store, s': Store, n: nat, entries: seq<Entry>)
    requires Inv(s) && StrayTableStep(s, s', n, entries)
    ensures Inv(s')
  {
    hide ManifestOk, LogsOk, Replay, Covered, VersionInv, TablesKept, LiveNumber, MemoryOk, SnapshotsOk, Matches,
      LiveRecords;
    UnnamedTable(s.disk.tables, s'.disk.tables, Replay(Manifest(s.disk)), n);
    HarmlessDisk(s.disk, s'.disk, s.hist, s.flushed, Smallest(s));
  }

  lemma DeleteManifestInv(s: Store, s': Store, n: nat)
    requires Inv(s) && DeleteManifestStep(s, s', n)
    ensures Inv(s')
  {
    hide ManifestOk, LogsOk, Replay, Covered, VersionInv, MemoryOk, SnapshotsOk;
  }

  lemma RemoveLogSorted(logs: seq<Log>, i: nat)
    requires LogsSorted(logs) && i < |logs|
    ensures LogsSorted(logs[..i] + logs[i + 1..])
  {
  }

  lemma DeleteLogRam(d: Disk, r: Ram, hist: seq<Op>, flushed: nat, switched: nat, i: nat, d': Disk)
    requires RamInv(d, r, hist, flushed, switched) && LogsSorted(d.logs)
    requires i < |d.logs| && d.logs[i].number < r.logNumber
    requires d' == d.(logs := d.logs[..i] + d.logs[i + 1..])
    ensures RamInv(d', r, hist, flushed, switched)
  {
    hide Replay, MemoryOk, Matches, SnapshotsOk, LogSplit, LiveRecords;
    assert r.logNumber <= r.logfileNumber by { LogNumbersOrdered(r, hist, flushed, switched); }
    DeleteLogSplit(d, r, hist, flushed, switched, i, d');
  }

  lemma LogNumbersOrdered(r: Ram, hist: seq<Op>, flushed: nat, switched: nat)
    requires MemoryOk(r, hist, flushed, switched)
    ensures r.logNumber <= r.logfileNumber
  {
  }

  lemma DeleteLogSplit(d: Disk, r: Ram, hist: seq<Op>, flushed: nat, switched: nat, i: nat, d': Disk)
    requires LogSplit(d, r, hist, flushed, switched) && r.logNumber <= r.logfileNumber
    requires i < |d.logs| && d.logs[i].number < r.logNumber
    requires d' == d.(logs := d.logs[..i] + d.logs[i + 1..])
    ensures LogSplit(d', r, hist, flushed, switched)
    ensures d'.logs != [] && d'.logs[|d'.logs| - 1] == d.logs[|d.logs| - 1]
  {
    hide Matches, LiveRecords;
    var n := |d.logs| - 1;
    var init := d.logs[..n];
    assert i < n;
    assert |d'.logs| == n && d'.logs[n - 1] == d.logs[n];
    RemoveDeadLog(init, i, r.logNumber);
    assert d'.logs[..n - 1] == init[..i] + init[i + 1..];
  }

  lemma DeleteLogInv(s: Store, s': Store, i: nat)
    requires Inv(s) && DeleteLogStep(s, s', i)
    ensures Inv(s')
  {
    hide ManifestOk, Replay, Covered, VersionInv, TablesKept, MemoryOk, LogSplit, SnapshotsOk, Matches, InflightOk;
    RemoveDeadLog(s.disk.logs, i, s.ram.value.logNumber);
    RemoveLogSorted(s.disk.logs, i);
    SameTables(s.disk.tables, Replay(Manifest(s.disk)));
    HarmlessDisk(s.disk, s'.disk, s.hist, s.flushed, Smallest(s));
    DeleteLogRam(s.disk, s.ram.value, s.hist, s.flushed, s.switched, i, s'.disk);
  }

  lemma SameTables(t: Tables, v: Levels)
    requires VersionInv(t, v)
    ensures TablesKept(t, v, t)
  {
    forall l, f | 0 <= l < |v| && f in v[l] ensures f.number in t { assert GoodFile(t, f); }
  }

  lemma StrayLogInv(s: Store, s': Store, n: nat)
    requires Inv(s) && StrayLogStep(s, s', n)
    ensures Inv(s')
  {
    hide ManifestOk, Replay, Covered, VersionInv, TablesKept, Matches;
    OnceEach(Manifest(s.disk), s.disk.current);
    var logNumber := LatestLogNumber(Manifest(s.disk)).value;
    LiveRecordsSnoc(s.disk.logs, Log(n, []), logNumber);
    assert LiveRecords(s.disk.logs, logNumber) + [] == LiveRecords(s.disk.logs, logNumber);
    assert LogsSorted(s'.disk.logs);
    SameTables(s.disk.tables, Replay(Manifest(s.disk)));
    HarmlessDisk(s.disk, s'.disk, s.hist, s.flushed, Smallest(s));
  }

  lemma StrayManifestInv(s: Store, s': Store, n: nat, edits: seq<Edit>)
    requires Inv(s) && StrayManifestStep(s, s', n, edits)
    ensures Inv(s')
  {
    hide ManifestOk, LogsOk, Replay, Covered, VersionInv;
  }

  // ---- crash ----

  lemma CrashWholeInv(s: Store, s': Store)
    requires Inv(s) && CrashStep(s, s', false)
    ensures Inv(s')
  {
    hide ManifestOk, LogsOk, Replay, VersionInv, MemoryOk, LogSplit, Covered, Stored;
    SmallestInRange(s.ram.value);
    CoveredMono(s.hist, Stored(s.disk.tables, Replay(Manifest(s.disk)), s.hist, s.flushed), Smallest(s), |s.hist|);
  }

  /** What the invariant says about the last log and the group in flight. */
  lemma LastLogParts(d: Disk, r: Ram, hist: seq<Op>, flushed: nat, switched: nat)
    requires RamInv(d, r, hist, flushed, switched) && r.inflight.Some?
    ensures d.logs != [] && flushed <= switched <= r.last <= |hist|
    ensures var n := |d.logs| - 1;
      var records := d.logs[n].records;
      && records != [] && records[|records| - 1].first == r.last + 1 && d.logs[n].number >= r.logNumber
      && Matches(hist, records, switched, |hist|)
      && Matches(hist, LiveRecords(d.logs[..n], r.logNumber), flushed, switched)
  {
    hide Replay, TableOf, SnapshotsOk, CountersOk, Matches, LiveRecords;
  }

  /** Without its last record a log reaches the operation before it. */
  lemma MatchesInit(hist: seq<Op>, records: seq<Batch>, from: nat, to: nat)
    requires Matches(hist, records, from, to) && records != []
    ensures records[|records| - 1].first >= 1
    ensures Matches(hist, records[..|records| - 1], from, records[|records| - 1].first - 1)
  {
  }

  lemma TornSorted(logs: seq<Log>, n: nat, records: seq<Batch>)
    requires LogsSorted(logs) && n < |logs|
    ensures LogsSorted(logs[n := Log(logs[n].number, records)])
  {
  }

  /** The logs once the record of the group in flight is torn off. */
  lemma TornLogs(d: Disk, r: Ram, hist: seq<Op>, flushed: nat, switched: nat, d': Disk)
    requires RamInv(d, r, hist, flushed, switched) && LogsSorted(d.logs) && r.inflight.Some?
    requires var n := |d.logs| - 1;
      var records := d.logs[n].records;
      d' == d.(logs := d.logs[n := Log(d.logs[n].number, records[..|records| - 1])])
    ensures LogsOk(d'.logs, r.logNumber, hist[..r.last], flushed)
  {
    hide RamInv, LogsSorted, Matches, LiveRecords;
    LastLogParts(d, r, hist, flushed, switched);
    var n, last, h := |d.logs| - 1, r.last, hist[..r.last];
    var records := d.logs[n].records;
    var init := records[..|records| - 1];
    var early := LiveRecords(d.logs[..n], r.logNumber);
    MatchesInit(hist, records, switched, |hist|);
    assert h[..last] == hist[..last] && h[..switched] == hist[..switched];
    MatchesPrefix(hist, h, init, switched, last);
    MatchesPrefix(hist, h, early, flushed, switched);
    MatchesConcat(h, early, init, flushed, switched, last);
    TornSorted(d.logs, n, init);
    assert d'.logs[..n] == d.logs[..n];
    LiveRecordsLast(d'.logs, r.logNumber);
  }

  lemma TornStored(t: Tables, v: Levels, hist: seq<Op>, flushed: nat, smallest: nat, last: nat)
    requires TablesOk(t, v, hist, flushed) && flushed <= last <= |hist| && smallest <= last
    requires Covered(hist, Stored(t, v, hist, flushed), smallest)
    ensures TablesOk(t, v, hist[..last], flushed)
    ensures Covered(hist[..last], Stored(t, v, hist[..last], flushed), last)
  {
    hide VersionInv, Covered;
    var h := hist[..last];
    StoredGenuine(t, v, hist, flushed);
    forall e | e in VersionEntries(t, v) ensures e == EntryAt(h, e.key.sequence) {
      assert h[e.key.sequence - 1] == hist[e.key.sequence - 1];
    }
    forall e ensures e in Stored(t, v, h, flushed) <==> e in Stored(t, v, hist, flushed) && e.key.sequence <= last {
      InTail(h, flushed, e);
      InTail(hist, flushed, e);
      if flushed < e.key.sequence <= last { assert h[e.key.sequence - 1] == hist[e.key.sequence - 1]; }
    }
    CoveredTruncate(hist, Stored(t, v, hist, flushed), Stored(t, v, h, flushed), smallest, last);
    CoveredMono(h, Stored(t, v, h, flushed), smallest, last);
  }

  lemma CrashTornInv(s: Store, s': Store)
    requires Inv(s) && CrashStep(s, s', true)
    ensures Inv(s')
  {
    hide ManifestOk, Replay, VersionInv, LogSplit, Covered, Stored, Matches, TableOf, LiveRecords, LogsSorted;
    var r := s.ram.value;
    assert |s.hist| - |r.inflight.value.ops| == r.last;
    assert s.flushed <= r.last;
    SmallestInRange(r);
    TornLogs(s.disk, r, s.hist, s.flushed, s.switched, s'.disk);
    TornStored(s.disk.tables, Replay(Manifest(s.disk)), s.hist, s.flushed, SmallestSnapshot(r), r.last);
    assert Manifest(s'.disk) == Manifest(s.disk);
  }

  // ---- replaying logs ----

  /** Inserting a batch's operations at their own numbers extends the table. */
  lemma {:induction false} InsertOpsTable(hist: seq<Op>, from: nat, mem: seq<Entry>, b: Batch, n: nat)
    requires n <= |b.ops| && b.first >= 1 && b.first - 1 + |b.ops| <= |hist|
    requires b.ops == hist[b.first - 1..b.first - 1 + |b.ops|]
    requires from <= b.first - 1 && TableOf(hist, from, b.first - 1, mem)
    ensures TableOf(hist, from, b.first - 1 + n, InsertOps(mem, b, n))
  {
    hide TableOf, InsertEntry;
    if n > 0 {
      InsertOpsTable(hist, from, mem, b, n - 1);
      var to := b.first - 1 + (n - 1);
      assert EntryOf(b.ops[n - 1], b.first + n - 1) == EntryAt(hist, to + 1);
      TableOfInsert(hist, from, to, InsertOps(mem, b, n - 1), EntryAt(hist, to + 1));
    }
  }

  /** Replaying records rebuilds exactly the entries of their operations. */
  lemma {:induction false} MemOfTable(hist: seq<Op>, records: seq<Batch>, from: nat, to: nat)
    requires Matches(hist, records, from, to) && to <= |hist|
    ensures TableOf(hist, from, to, MemOf(records))
  {
    if records != [] {
      var b := records[|records| - 1];
      MatchesOrder(hist, records[..|records| - 1], from, b.first - 1);
      MemOfTable(hist, records[..|records| - 1], from, b.first - 1);
      InsertOpsTable(hist, from, MemOf(records[..|records| - 1]), b, |b.ops|);
    }
  }

  lemma NoneMatch(hist: seq<Op>, at: nat)
    ensures Matches(hist, [], at, at)
  {
  }

  /** A run of records splits at any record. */
  lemma {:induction false} MatchesSplit(hist: seq<Op>, records: seq<Batch>, from: nat, to: nat, cut: nat)
    returns (mid: nat)
    requires Matches(hist, records, from, to) && cut <= |records|
    ensures Matches(hist, records[..cut], from, mid) && Matches(hist, records[cut..], mid, to)
  {
    hide Matches;
    if cut == |records| {
      assert records[..cut] == records && records[cut..] == [];
      NoneMatch(hist, to);
      mid := to;
    } else {
      var n := |records| - 1;
      assert records == records[..n] + [records[n]];
      MatchesLast(hist, records[..n], records[n], from, to);
      mid := MatchesSplit(hist, records[..n], from, records[n].first - 1, cut);
      assert records[..n][..cut] == records[..cut];
      assert records[cut..] == records[..n][cut..] + [records[n]];
      MatchesLast(hist, records[..n][cut..], records[n], mid, to);
    }
  }

  /** The last sequence number recovery finds is the length of the history. */
  lemma {:induction false} MaxSequenceMatches(hist: seq<Op>, records: seq<Batch>, from: nat, to: nat)
    requires Matches(hist, records, from, to)
    ensures MaxSequence(records) <= to && (records != [] ==> MaxSequence(records) == to)
  {
    if records != [] {
      var b := records[|records| - 1];
      MatchesOrder(hist, records, from, to);
      MatchesOrder(hist, records[..|records| - 1], from, b.first - 1);
      MaxSequenceMatches(hist, records[..|records| - 1], from, b.first - 1);
    }
  }

  // ---- the recovered version ----

  /** The edit `Open` logs: recovered tables at level 0, a fresh log. */
  ghost function RecoveryEdit(newLog: nat, last: nat, outs: seq<Output>): Edit {
    FullEdit(newLog, newLog + 1, last, {}, AddAll(0, outs))
  }

  ghost predicate RisingNumbers(first: nat, outs: seq<Output>) {
    && (forall i :: 0 <= i < |outs| ==> outs[i].meta.number >= first && GoodOutput(outs[i]))
    && (forall i, j :: 0 <= i < j < |outs| ==> outs[i].meta.number < outs[j].meta.number)
  }

  lemma {:induction false} RecoveredRising(records: seq<Batch>, first: nat, outs: seq<Output>)
    requires RecoveredTables(records, first, outs)
    ensures RisingNumbers(first, outs)
    decreases |outs|
  {
    hide MemOf, GoodOutput;
    if outs != [] {
      var init := outs[..|outs| - 1];
      var cut :| 0 <= cut <= |records| && outs[|outs| - 1].entries == MemOf(records[cut..]) &&
        RecoveredTables(records[..cut], first, init);
      RecoveredRising(records[..cut], first, init);
      assert forall i :: 0 <= i < |init| ==> init[i] == outs[i];
    }
  }

  lemma RecoveryFresh(edits: seq<Edit>, newLog: nat, last: nat, outs: seq<Output>, first: nat)
    requires HasCounters(edits) && LatestNextFile(edits).value <= first && RisingNumbers(first, outs)
    ensures FreshAdds(edits, RecoveryEdit(newLog, last, outs), 0)
    ensures forall l: nat, f :: Adds(RecoveryEdit(newLog, last, outs), l, f) <==> l == 0 && f in Metas(outs)
  {
    var e := RecoveryEdit(newLog, last, outs);
    assert forall i :: 0 <= i < |outs| ==> e.added[i] == (0, outs[i].meta) && Metas(outs)[i] == outs[i].meta;
    forall l: nat, f ensures Adds(e, l, f) <==> l == 0 && f in Metas(outs) {
      if Adds(e, l, f) {
        var i :| 0 <= i < |e.added| && e.added[i] == (l, f);
        assert Metas(outs)[i] == f;
      }
      if l == 0 && f in Metas(outs) {
        var i :| 0 <= i < |outs| && Metas(outs)[i] == f;
        assert e.added[i] == (l, f);
      }
    }
  }

  /** Levels after some recovered tables are added. */
  lemma RecoveryLevels(edits: seq<Edit>, current: nat, newLog: nat, last: nat, outs: seq<Output>, first: nat)
    requires ManifestOk(edits, current) && LatestNextFile(edits).value <= first && RisingNumbers(first, outs)
    ensures var v, v' := Replay(edits), Install(Replay(edits), RecoveryEdit(newLog, last, outs));
      && (forall l :: 1 <= l < NUM_LEVELS ==> v'[l] == v[l])
      && (forall f :: f in v'[0] <==> f in v[0] || f in Metas(outs))
      && SmallestOrdered(v'[0])
  {
    hide NumbersOnce, Install, Replay, EverAdded, LevelsRise, RisingNumbers;
    var e := RecoveryEdit(newLog, last, outs);
    OnceEach(edits, current);
    RecoveryFresh(edits, newLog, last, outs, first);
    FreshAddable(edits, current, e, 0);
    InstallApplied(edits, e);
    var v, v' := Replay(edits), Install(Replay(edits), e);
    forall l | 1 <= l < NUM_LEVELS ensures v'[l] == v[l] {
      assert AppliedAt(v[l], v'[l], e, l);
      assert Untouched(e, l);
    }
    assert AppliedAt(v[0], v'[0], e, 0);
    assert DeletedNumbers(e.deleted, 0) == {};
  }

  /** Adding one more recovered table is a flush to level 0. */
  lemma RecoveryFlushed(d: Disk, newLog: nat, last: nat, outs: seq<Output>, first: nat)
    requires ManifestOk(Manifest(d), d.current) && LatestNextFile(Manifest(d)).value <= first
    requires RisingNumbers(first, outs) && outs != [] && LiveBelow(d.tables, Replay(Manifest(d)), first)
    requires Sorted(outs[|outs| - 1].entries)
    ensures var init, o := outs[..|outs| - 1], outs[|outs| - 1];
      var v := Replay(Manifest(d));
      && Flushed(WriteTables(d.tables, init), Install(v, RecoveryEdit(newLog, last, init)),
                 WriteTables(d.tables, outs), Install(v, RecoveryEdit(newLog, last, outs)), 0, o.meta)
      && Data(WriteTables(d.tables, outs), o.meta) == o.entries
  {
    hide ManifestOk, Install, Replay, Sorted, SmallestOrdered, SortedLevel;
    var init, o := outs[..|outs| - 1], outs[|outs| - 1];
    assert RisingNumbers(first, init);
    RecoveryLevels(Manifest(d), d.current, newLog, last, init, first);
    RecoveryLevels(Manifest(d), d.current, newLog, last, outs, first);
    var v := Replay(Manifest(d));
    var a, b := Install(v, RecoveryEdit(newLog, last, init)), Install(v, RecoveryEdit(newLog, last, outs));
    MetasSnoc(outs);
    forall l, g: FileMeta | 0 <= l < NUM_LEVELS && g in a[l]
      ensures g.number < o.meta.number && g.number in WriteTables(d.tables, init)
    {
      RecoveryLive(d, v, a, init, first, l, g);
      BelowLast(first, outs, g);
    }
    hide RisingNumbers, RecoveryEdit, Metas, WriteTables, LiveBelow;
    LastTable(d.tables, a, outs, first);
  }

  lemma BelowLast(first: nat, outs: seq<Output>, g: FileMeta)
    requires RisingNumbers(first, outs) && outs != []
    requires g.number < first || g in Metas(outs[..|outs| - 1])
    ensures g.number < outs[|outs| - 1].meta.number
  {
    var init := outs[..|outs| - 1];
    if g in Metas(init) {
      var i :| 0 <= i < |init| && Metas(init)[i] == g;
      assert init[i] == outs[i];
    }
  }

  lemma LastTable(t0: Tables, a: Levels, outs: seq<Output>, first: nat)
    requires RisingNumbers(first, outs) && outs != [] && Sorted(outs[|outs| - 1].entries)
    requires forall l, g :: 0 <= l < |a| && g in a[l] ==>
               g.number < outs[|outs| - 1].meta.number && g.number in WriteTables(t0, outs[..|outs| - 1])
    ensures TablesKept(WriteTables(t0, outs[..|outs| - 1]), a, WriteTables(t0, outs))
    ensures GoodFile(WriteTables(t0, outs), outs[|outs| - 1].meta)
    ensures Data(WriteTables(t0, outs), outs[|outs| - 1].meta) == outs[|outs| - 1].entries
  {
    assert GoodOutput(outs[|outs| - 1]);
  }

  lemma MetasSnoc(outs: seq<Output>)
    requires outs != []
    ensures forall f :: f in Metas(outs) <==> f in Metas(outs[..|outs| - 1]) || f == outs[|outs| - 1].meta
  {
    var init := outs[..|outs| - 1];
    assert Metas(outs) == Metas(init) + [outs[|outs| - 1].meta];
  }

  lemma RecoveryLive(d: Disk, v: Levels, a: Levels, init: seq<Output>, first: nat, l: nat, g: FileMeta)
    requires |v| == NUM_LEVELS && |a| == NUM_LEVELS && l < NUM_LEVELS && g in a[l]
    requires LiveBelow(d.tables, v, first) && RisingNumbers(first, init)
    requires forall k :: 1 <= k < NUM_LEVELS ==> a[k] == v[k]
    requires forall f :: f in a[0] <==> f in v[0] || f in Metas(init)
    ensures g.number in WriteTables(d.tables, init)
    ensures g.number < first || g in Metas(init)
  {
    WriteTablesData(d.tables, init);
    if g in Metas(init) { var i :| 0 <= i < |init| && Metas(init)[i] == g; }
  }

  lemma RecoveryNothing(d: Disk, newLog: nat, last: nat)
    requires ManifestOk(Manifest(d), d.current)
    ensures Install(Replay(Manifest(d)), RecoveryEdit(newLog, last, [])) == Replay(Manifest(d))
    ensures WriteTables(d.tables, []) == d.tables
  {
    EmptyEditKeeps(d, RecoveryEdit(newLog, last, []));
  }

  /** Tables, version and stored entries after replaying the live records. */
  lemma {:induction false} RecoverChain(d: Disk, hist: seq<Op>, flushed: nat, records: seq<Batch>, to: nat,
                                        newLog: nat, last: nat, outs: seq<Output>, first: nat)
    requires ManifestOk(Manifest(d), d.current) && LatestNextFile(Manifest(d)).value <= first
    requires LiveBelow(d.tables, Replay(Manifest(d)), first)
    requires TablesOk(d.tables, Replay(Manifest(d)), hist, flushed)
    requires Matches(hist, records, flushed, to) && to <= |hist|
    requires RecoveredTables(records, first, outs)
    ensures var v := Replay(Manifest(d));
      var t', v' := WriteTables(d.tables, outs), Install(v, RecoveryEdit(newLog, last, outs));
      && TablesOk(t', v', hist, to)
      && Stored(t', v', hist, to) == Stored(d.tables, v, hist, flushed)
  {
    hide ManifestOk, Install, Replay, LiveBelow, TablesOk, Sorted, Stored, TableOf;
    RecoveredRising(records, first, outs);
    MatchesOrder(hist, records, flushed, to);
    var v := Replay(Manifest(d));
    if outs == [] {
      MemOfTable(hist, records, flushed, to);
      EmptyTable(hist, flushed, to);
      RecoveryNothing(d, newLog, last);
    } else {
      var init, o := outs[..|outs| - 1], outs[|outs| - 1];
      var cut :| 0 <= cut <= |records| && o.entries == MemOf(records[cut..]) &&
        RecoveredTables(records[..cut], first, init);
      var mid := MatchesSplit(hist, records, flushed, to, cut);
      MatchesOrder(hist, records[cut..], mid, to);
      RecoverChain(d, hist, flushed, records[..cut], mid, newLog, last, init, first);
      MemOfTable(hist, records[cut..], mid, to);
      TableSorted(hist, mid, to, o.entries);
      RecoveryFlushed(d, newLog, last, outs, first);
      FlushTables(WriteTables(d.tables, init), Install(v, RecoveryEdit(newLog, last, init)),
                  WriteTables(d.tables, outs), Install(v, RecoveryEdit(newLog, last, outs)), 0, o.meta, o.entries, hist,
                    mid, to);
    }
  }

  lemma TableSorted(hist: seq<Op>, from: nat, to: nat, entries: seq<Entry>)
    requires TableOf(hist, from, to, entries)
    ensures Sorted(entries)
  {
  }

  // ---- the new MANIFEST ----

  lemma {:induction false} TagLevelMembers(level: nat, files: seq<FileMeta>)
    ensures forall l: nat, f :: (l, f) in TagLevel(level, files) <==> l == level && f in files
    ensures NoDuplicates(files) ==> forall i, j :: 0 <= i < j < |TagLevel(level, files)| ==>
            TagLevel(level, files)[i] != TagLevel(level, files)[j]
  {
    if files != [] {
      var init, last := files[..|files| - 1], files[|files| - 1];
      assert files == init + [last];
      TagLevelMembers(level, init);
    }
  }

  lemma {:induction false} TagLevelsMembers(v: Levels, n: nat)
    requires n <= |v| && forall l :: 0 <= l < |v| ==> NoDuplicates(v[l])
    ensures forall l: nat, f :: (l, f) in TagLevels(v, n) <==> l < n && f in v[l]
    ensures forall i, j :: 0 <= i < j < |TagLevels(v, n)| ==> TagLevels(v, n)[i] != TagLevels(v, n)[j]
  {
    if n > 0 {
      TagLevelsMembers(v, n - 1);
      TagLevelMembers(n - 1, v[n - 1]);
      var a, b := TagLevels(v, n - 1), TagLevel(n - 1, v[n - 1]);
      var c := a + b;
      forall i, j | 0 <= i < j < |c| ensures c[i] != c[j] {
        if i < |a| && j >= |a| {
          var x, y := a[i], b[j - |a|];
          assert (x.0, x.1) in a && (y.0, y.1) in b;
        }
      }
    }
  }

  lemma SnapshotAdds(v: Levels)
    requires |v| == NUM_LEVELS && UniqueNumbers(v) && forall l :: 0 <= l < |v| ==> NoDuplicates(v[l])
    ensures forall l: nat, f :: Adds(SnapshotRecord(v), l, f) <==> l < NUM_LEVELS && f in v[l]
    ensures forall l: nat :: SingleAdds(SnapshotRecord(v), l)
  {
    TagLevelsMembers(v, |v|);
    var e := SnapshotRecord(v);
    forall i, j | 0 <= i < j < |e.added| && e.added[i].0 == e.added[j].0
      ensures e.added[i].1.number != e.added[j].1.number
    {
      var l: nat := e.added[i].0;
      assert (l, e.added[i].1) == e.added[i] && (l, e.added[j].1) == e.added[j];
      assert Adds(e, l, e.added[i].1) && Adds(e, l, e.added[j].1);
    }
  }

  /** Replaying the snapshot record gives the version it was made from. */
  lemma SnapshotReplays(v: Levels)
    requires |v| == NUM_LEVELS && UniqueNumbers(v) && forall l :: 0 <= l < |v| ==> NoDuplicates(v[l])
    requires forall l :: 0 <= l < NUM_LEVELS ==> FilesSorted(v[l])
    ensures Replay([SnapshotRecord(v)]) == v
    ensures forall l :: 0 <= l < NUM_LEVELS ==> NumbersOnce([], [SnapshotRecord(v)], l)
  {
    var e := SnapshotRecord(v);
    SnapshotAdds(v);
    forall l | 0 <= l < NUM_LEVELS ensures NumbersOnce([], [e], l) && Replay([e])[l] == v[l] {
      SnapshotLevel(v, l);
    }
  }

  lemma SnapshotLevel(v: Levels, l: nat)
    requires |v| == NUM_LEVELS && l < NUM_LEVELS && FilesSorted(v[l])
    requires forall f :: Adds(SnapshotRecord(v), l, f) <==> f in v[l]
    requires SingleAdds(SnapshotRecord(v), l)
    ensures NumbersOnce([], [SnapshotRecord(v)], l) && Replay([SnapshotRecord(v)])[l] == v[l]
  {
    var e := SnapshotRecord(v);
    assert [e][0] == e;
    ReplayLevel([e], l);
    InstallMembers([], e, l);
    SortedUnique(Replay([e])[l], v[l]);
  }

  lemma NewManifest(v: Levels, e: Edit, newLog: nat, last: nat, outs: seq<Output>, first: nat, current: nat,
                    edits: seq<Edit>)
    requires ManifestOk(edits, current) && v == Replay(edits) && LatestNextFile(edits).value < first
    requires UniqueNumbers(v) && forall l :: 0 <= l < |v| ==> NoDuplicates(v[l])
    requires RisingNumbers(first, outs) && e == RecoveryEdit(newLog, last, outs)
    requires first <= newLog + 1 && forall i :: 0 <= i < |outs| ==> outs[i].meta.number < newLog
    ensures ManifestOk([SnapshotRecord(v), e], LatestNextFile(edits).value)
    ensures Replay([SnapshotRecord(v), e]) == Install(v, e)
  {
    hide Install, Replay, SnapshotRecord, RecoveryEdit, UniqueNumbers, NumbersOnce, LevelsRise, FreshAdds;
    var snap := SnapshotRecord(v);
    assert [snap] + [e] == [snap, e];
    OnceEach(edits, current);
    forall l | 0 <= l < NUM_LEVELS ensures FilesSorted(v[l]) { ReplayMembers(edits, l); }
    SnapshotReplays(v);
    SnapshotAdds(v);
    RecoveryFresh(edits, newLog, last, outs, first);
    NewManifestAddable(edits, current, v, e, newLog, outs, first);
    InstallApplied([snap], e);
    RecoveryLevels(edits, current, newLog, last, outs, first);
    NewManifestRise(edits, current, v, Install(v, e), e, newLog, outs, first);
    NewManifestBounds(edits, current, v, e, newLog, outs);
    NewManifestCounters(snap, newLog, last, outs);
  }

  lemma NewManifestCounters(snap: Edit, newLog: nat, last: nat, outs: seq<Output>)
    ensures var edits := [snap, RecoveryEdit(newLog, last, outs)];
      HasCounters(edits) && LatestNextFile(edits) == Some(newLog + 1) && LatestLogNumber(edits) == Some(newLog)
      && LatestSequence(edits) == Some(last)
  {
    LatestOfFull([snap], newLog, newLog + 1, last, {}, AddAll(0, outs));
    assert [snap] + [RecoveryEdit(newLog, last, outs)] == [snap, RecoveryEdit(newLog, last, outs)];
  }

  /** Numbers of the live version lie below the recorded counter. */
  lemma LiveNumbersBelow(edits: seq<Edit>, current: nat, l: nat, f: FileMeta)
    requires ManifestOk(edits, current) && l < NUM_LEVELS && f in Replay(edits)[l]
    ensures f.number < LatestNextFile(edits).value
  {
    ReplayMembers(edits, l);
    assert EverAdded(edits, l, f);
  }

  lemma NewManifestAddable(edits: seq<Edit>, current: nat, v: Levels, e: Edit, newLog: nat, outs: seq<Output>,
                           first: nat)
    requires ManifestOk(edits, current) && v == Replay(edits) && LatestNextFile(edits).value < first
    requires forall l: nat, f :: Adds(SnapshotRecord(v), l, f) <==> l < NUM_LEVELS && f in v[l]
    requires FreshAdds(edits, e, 0) && RisingNumbers(first, outs)
    requires forall l: nat, f :: Adds(e, l, f) <==> l == 0 && f in Metas(outs)
    ensures Addable([SnapshotRecord(v)], e)
  {
    hide ManifestOk, Replay, SnapshotRecord, Adds;
    forall l: nat, f, g: FileMeta | Adds(e, l, f) && EverAdded([SnapshotRecord(v)], l, g) ensures f.number != g.number {
      assert [SnapshotRecord(v)][0] == SnapshotRecord(v);
      assert Adds(SnapshotRecord(v), l, g);
      LiveNumbersBelow(edits, current, l, g);
      var i :| 0 <= i < |outs| && Metas(outs)[i] == f;
    }
    assert forall l: nat :: SingleAdds(e, l);
  }

  lemma NewManifestRise(edits: seq<Edit>, current: nat, v: Levels, v': Levels, e: Edit, newLog: nat, outs: seq<Output>,
                        first: nat)
    requires ManifestOk(edits, current) && v == Replay(edits) && UniqueNumbers(v) && LatestNextFile(edits).value < first
    requires RisingNumbers(first, outs) && |v'| == NUM_LEVELS
    requires forall l: nat, f :: Adds(SnapshotRecord(v), l, f) <==> l < NUM_LEVELS && f in v[l]
    requires forall l: nat, f :: Adds(e, l, f) <==> l == 0 && f in Metas(outs)
    requires forall l :: 1 <= l < NUM_LEVELS ==> v'[l] == v[l]
    requires forall f :: f in v'[0] <==> f in v[0] || f in Metas(outs)
    ensures LevelsRise([SnapshotRecord(v), e], v')
  {
    hide ManifestOk, Replay, SnapshotRecord, Adds;
    assert [SnapshotRecord(v)] + [e] == [SnapshotRecord(v), e];
    forall o | o in Metas(outs) ensures o.number >= first { var i :| 0 <= i < |outs| && Metas(outs)[i] == o; }
    forall l: nat, m, f, g: FileMeta | EverAdded([SnapshotRecord(v), e], l, f) && 0 <= m < |v'| && g in v'[m] &&
      f.number == g.number
      ensures l <= m
    {
      EverAddedSnoc([SnapshotRecord(v)], e, l, f);
      if !Adds(e, l, f) {
        assert [SnapshotRecord(v)][0] == SnapshotRecord(v);
        assert Adds(SnapshotRecord(v), l, f);
        LiveNumbersBelow(edits, current, l, f);
      }
    }
  }

  lemma NewManifestBounds(edits: seq<Edit>, current: nat, v: Levels, e: Edit, newLog: nat, outs: seq<Output>)
    requires ManifestOk(edits, current) && v == Replay(edits) && LatestNextFile(edits).value <= newLog
    requires forall l: nat, f :: Adds(SnapshotRecord(v), l, f) <==> l < NUM_LEVELS && f in v[l]
    requires forall l: nat, f :: Adds(e, l, f) <==> l == 0 && f in Metas(outs)
    requires forall i :: 0 <= i < |outs| ==> outs[i].meta.number < newLog
    ensures forall l: nat, f :: EverAdded([SnapshotRecord(v), e], l, f) ==> l < NUM_LEVELS && f.number < newLog + 1
  {
    hide ManifestOk, Replay, SnapshotRecord, Adds;
    assert [SnapshotRecord(v)] + [e] == [SnapshotRecord(v), e];
    forall l: nat, f: FileMeta | EverAdded([SnapshotRecord(v), e], l, f)
      ensures l < NUM_LEVELS && f.number < newLog + 1
    {
      EverAddedSnoc([SnapshotRecord(v)], e, l, f);
      if Adds(e, l, f) {
        var i :| 0 <= i < |outs| && Metas(outs)[i] == f;
      } else {
        assert [SnapshotRecord(v)][0] == SnapshotRecord(v);
        assert Adds(SnapshotRecord(v), l, f);
        LiveNumbersBelow(edits, current, l, f);
      }
    }
  }

  lemma RecoveredSequence(hist: seq<Op>, records: seq<Batch>, flushed: nat, recorded: nat)
    requires Matches(hist, records, flushed, |hist|) && flushed <= recorded <= |hist|
    ensures (if recorded < MaxSequence(records) then MaxSequence(records) else recorded) == |hist|
  {
    MaxSequenceMatches(hist, records, flushed, |hist|);
  }

  /** After recovery the logs end in an empty one and none before it is live. */
  lemma RecoveredLogs(d: Disk, r: Ram, hist: seq<Op>, logs: seq<Log>, newLog: nat)
    requires d.logs == logs + [Log(newLog, [])] && LogsSorted(logs)
    requires forall i :: 0 <= i < |logs| ==> logs[i].number < newLog
    requires r.logNumber == newLog && r.logfileNumber == newLog
    ensures LogSplit(d, r, hist, |hist|, |hist|) && LogsOk(d.logs, newLog, hist, |hist|)
    ensures forall i :: 0 <= i < |d.logs| ==> d.logs[i].number <= newLog
  {
    hide LiveRecords;
    DeadLogsSilent(logs, newLog);
    LiveRecordsSnoc(logs, Log(newLog, []), newLog);
    assert d.logs[..|logs|] == logs && d.logs[|logs|] == Log(newLog, []);
  }

  /** Memory and counters right after recovery: everything is on disk, one empty log is live. */
  lemma RecoveredRam(d': Disk, r': Ram, hist: seq<Op>, logs: seq<Log>, newLog: nat)
    requires d'.logs == logs + [Log(newLog, [])] && LogsSorted(logs)
    requires forall i :: 0 <= i < |logs| ==> logs[i].number < newLog
    requires HasCounters(Manifest(d')) && LatestLogNumber(Manifest(d')) == Some(newLog)
    requires LatestNextFile(Manifest(d')) == Some(newLog + 1) && LatestSequence(Manifest(d')) == Some(|hist|)
    requires r' == OpenedRam(Replay(Manifest(d')), |hist|, newLog, d'.current)
    ensures RamInv(d', r', hist, |hist|, |hist|) && LogsOk(d'.logs, newLog, hist, |hist|)
  {
    hide Replay, LiveRecords, LatestLogNumber, LatestNextFile, LatestSequence, LogSplit, LogsOk, LogsSorted, Manifest,
      HasCounters;
    RecoveredLogs(d', r', hist, logs, newLog);
    assert TableOf(hist, |hist|, |hist|, []);
  }

  /** The new MANIFEST: a snapshot record and the record of the tables written. */
  lemma RecoveredManifest(edits: seq<Edit>, current: nat, t: Tables, records: seq<Batch>, outs: seq<Output>, next: nat,
                          newLog: nat, last: nat)
    requires ManifestOk(edits, current) && HasCounters(edits) && VersionInv(t, Replay(edits))
    requires LatestNextFile(edits) == Some(next)
    requires RecoveredTables(records, next + 1, outs) && newLog > next
    requires forall i :: 0 <= i < |outs| ==> outs[i].meta.number < newLog
    ensures var e := RecoveryEdit(newLog, last, outs);
      var edits' := [SnapshotRecord(Replay(edits)), e];
      && ManifestOk(edits', next) && Replay(edits') == Install(Replay(edits), e)
      && LatestNextFile(edits') == Some(newLog + 1) && LatestLogNumber(edits') == Some(newLog)
      && LatestSequence(edits') == Some(last)
  {
    hide Install, Replay, SnapshotRecord, RecoveryEdit, VersionInv, RecoveredTables, ManifestOk, RisingNumbers,
      LatestLogNumber, LatestNextFile, LatestSequence;
    var v := Replay(edits);
    RecoveredRising(records, next + 1, outs);
    VersionParts(t, v);
    NewManifest(v, RecoveryEdit(newLog, last, outs), newLog, last, outs, next + 1, current, edits);
    NewManifestCounters(SnapshotRecord(v), newLog, last, outs);
  }

  /** The tables written hold every operation of the logs. */
  lemma RecoveredStored(d: Disk, hist: seq<Op>, flushed: nat, edits: seq<Edit>, records: seq<Batch>, outs: seq<Output>,
                        next: nat,
                        newLog: nat, last: nat)
    requires DiskInv(d, hist, flushed, |hist|) && edits == Manifest(d) && LatestNextFile(edits) == Some(next)
    requires LatestLogNumber(edits).Some? && records == LiveRecords(d.logs, LatestLogNumber(edits).value)
    requires RecoveredTables(records, next + 1, outs)
    ensures var v := Install(Replay(edits), RecoveryEdit(newLog, last, outs));
      && TablesOk(WriteTables(d.tables, outs), v, hist, |hist|)
      && Covered(hist, Stored(WriteTables(d.tables, outs), v, hist, |hist|), |hist|)
  {
    hide DiskInv, Install, Replay, RecoveryEdit, Covered, Stored, VersionInv, Matches, RecoveredTables, WriteTables,
      LiveRecords, ManifestOk, TablesOk, LiveBelow, LogsSorted, LatestLogNumber, LatestNextFile, LatestSequence;
    DiskInvParts(d, hist, flushed, |hist|);
    AllLiveBelow(d, d.tables, Replay(edits), next + 1);
    RecoverChain(d, hist, flushed, records, |hist|, newLog, last, outs, next + 1);
  }

  /** From the new MANIFEST, tables and logs to the invariant. */
  lemma RecoveredState(d': Disk, hist: seq<Op>, edits': seq<Edit>, t': Tables, logs: seq<Log>, newLog: nat)
    requires Manifest(d') == edits' && d'.tables == t' && d'.logs == logs + [Log(newLog, [])] && |hist| < MAX_SEQUENCE
    requires ManifestOk(edits', d'.current) && LatestLogNumber(edits') == Some(newLog)
    requires LatestNextFile(edits') == Some(newLog + 1) && LatestSequence(edits') == Some(|hist|)
    requires TablesOk(t', Replay(edits'), hist, |hist|)
    requires Covered(hist, Stored(t', Replay(edits'), hist, |hist|), |hist|)
    requires LogsSorted(logs) && forall i :: 0 <= i < |logs| ==> logs[i].number < newLog
    ensures DiskInv(d', hist, |hist|, |hist|)
    ensures RamInv(d', OpenedRam(Replay(edits'), |hist|, newLog, d'.current), hist, |hist|, |hist|)
  {
    hide DiskInv, Replay, Covered, Stored, RamInv, ManifestOk, TablesOk, LogsOk, LogsSorted, LatestLogNumber,
      LatestNextFile, LatestSequence, Manifest;
    var r' := OpenedRam(Replay(edits'), |hist|, newLog, d'.current);
    RecoveredRam(d', r', hist, logs, newLog);
    MakeDiskInv(d', hist, |hist|, |hist|);
  }

  lemma RecoverDisk(d: Disk, hist: seq<Op>, flushed: nat, edits: seq<Edit>, records: seq<Batch>, outs: seq<Output>,
                    next: nat, newLog: nat, d': Disk)
    requires DiskInv(d, hist, flushed, |hist|) && edits == Manifest(d) && LatestNextFile(edits) == Some(next)
    requires LatestLogNumber(edits).Some? && records == LiveRecords(d.logs, LatestLogNumber(edits).value)
    requires RecoveredTables(records, next + 1, outs) && newLog > next
    requires forall i :: 0 <= i < |outs| ==> outs[i].meta.number < newLog
    requires forall i :: 0 <= i < |d.logs| ==> d.logs[i].number < newLog
    requires var edits' := [SnapshotRecord(Replay(edits)), RecoveryEdit(newLog, |hist|, outs)];
      d' == Disk(WriteTables(d.tables, outs), d.logs + [Log(newLog, [])], d.manifests[next := edits'], next)
    ensures DiskInv(d', hist, |hist|, |hist|)
    ensures Replay(Manifest(d')) == Install(Replay(edits), RecoveryEdit(newLog, |hist|, outs))
    ensures RamInv(d', OpenedRam(Replay(Manifest(d')), |hist|, newLog, d'.current), hist, |hist|, |hist|)
  {
    hide *;
    DiskInvParts(d, hist, flushed, |hist|);
    RecoveredStored(d, hist, flushed, edits, records, outs, next, newLog, |hist|);
    RecoveredManifest(edits, d.current, d.tables, records, outs, next, newLog, |hist|);
    var edits' := [SnapshotRecord(Replay(edits)), RecoveryEdit(newLog, |hist|, outs)];
    NewCurrent(d', next, edits');
    RecoveredState(d', hist, edits', WriteTables(d.tables, outs), d.logs, newLog);
  }

  lemma NewCurrent(d: Disk, n: nat, edits: seq<Edit>)
    requires d.current == n && n in d.manifests && d.manifests[n] == edits
    ensures Manifest(d) == edits
  {
  }

  /** What the invariant of the disk says, part by part. */
  lemma DiskInvParts(d: Disk, hist: seq<Op>, flushed: nat, smallest: nat)
    requires DiskInv(d, hist, flushed, smallest)
    ensures var edits := Manifest(d);
      && ManifestOk(edits, d.current) && HasCounters(edits)
      && LatestLogNumber(edits).Some? && LatestNextFile(edits).Some? && LatestSequence(edits).Some?
      && TablesOk(d.tables, Replay(edits), hist, flushed) && VersionInv(d.tables, Replay(edits))
      && flushed <= |hist| < MAX_SEQUENCE
      && LogsSorted(d.logs) && Matches(hist, LiveRecords(d.logs, LatestLogNumber(edits).value), flushed, |hist|)
      && Covered(hist, Stored(d.tables, Replay(edits), hist, flushed), smallest)
  {
    hide Replay, VersionInv, Covered, Stored, Matches, LiveRecords, LogsSorted, LevelsRise, NumbersOnce, EverAdded,
      VersionEntries;
  }

  lemma MakeDiskInv(d: Disk, hist: seq<Op>, flushed: nat, smallest: nat)
    requires var edits := Manifest(d);
      && ManifestOk(edits, d.current) && LatestLogNumber(edits).Some? && LatestSequence(edits).Some?
      && TablesOk(d.tables, Replay(edits), hist, flushed) && LogsOk(d.logs, LatestLogNumber(edits).value, hist, flushed)
      && flushed <= LatestSequence(edits).value <= |hist| < MAX_SEQUENCE
      && smallest <= |hist| && Covered(hist, Stored(d.tables, Replay(edits), hist, flushed), smallest)
    ensures DiskInv(d, hist, flushed, smallest)
  {
    hide Replay, TablesOk, Covered, Stored, LogsOk, ManifestOk;
  }

  lemma RecoverInv(s: Store, s': Store, outs: seq<Output>, newLog: nat)
    requires Inv(s) && RecoverStep(s, s', outs, newLog)
    ensures Inv(s')
    ensures s'.ram.value.last == |s.hist|
  {
    hide Install, Replay, SnapshotRecord, Covered, Stored, VersionInv, Matches, RecoveredTables, WriteTables,
      LiveRecords, RamInv, ManifestOk, MaxSequence;
    var edits := Manifest(s.disk);
    var records := LiveRecords(s.disk.logs, LatestLogNumber(edits).value);
    RecoveredSequence(s.hist, records, s.flushed, LatestSequence(edits).value);
    RecoverDisk(s.disk, s.hist, s.flushed, edits, records, outs, LatestNextFile(edits).value, newLog, s'.disk);
  }
}
