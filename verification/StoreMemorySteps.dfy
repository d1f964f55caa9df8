/** Steps that change logs, memtables and snapshots keep the store invariant. */
module StoreMemorySteps {
  import opened InternalKeys
  import opened VersionReads
  import opened VersionBuilder
  import opened Views
  import opened LevelShape
  import opened StoreState
  import opened StoreSteps
  import opened StoreInvariant

  ghost predicate Extends(hist: seq<Op>, more: seq<Op>) {
    |hist| <= |more| && more[..|hist|] == hist
  }

  lemma EntryAtExtends(hist: seq<Op>, more: seq<Op>, n: nat)
    requires Extends(hist, more) && 1 <= n <= |hist|
    ensures EntryAt(more, n) == EntryAt(hist, n)
  {
    assert more[n - 1] == more[..|hist|][n - 1];
  }

  lemma TableOfExtends(hist: seq<Op>, more: seq<Op>, from: nat, to: nat, entries: seq<Entry>)
    requires Extends(hist, more) && TableOf(hist, from, to, entries)
    ensures TableOf(more, from, to, entries)
  {
    forall n | from < n <= to ensures EntryAt(more, n) in entries && EntryAt(more, n) == EntryAt(hist, n) {
      EntryAtExtends(hist, more, n);
    }
  }

  lemma TablesOkExtends(t: Tables, v: Levels, hist: seq<Op>, more: seq<Op>, flushed: nat)
    requires Extends(hist, more) && TablesOk(t, v, hist, flushed)
    ensures TablesOk(t, v, more, flushed)
  {
    forall e | e in VersionEntries(t, v) ensures e == EntryAt(more, e.key.sequence) {
      EntryAtExtends(hist, more, e.key.sequence);
    }
  }

  lemma StoredExtends(t: Tables, v: Levels, hist: seq<Op>, more: seq<Op>, flushed: nat, smallest: nat)
    requires Extends(hist, more) && TablesOk(t, v, hist, flushed) && smallest <= |hist|
    requires Covered(hist, Stored(t, v, hist, flushed), smallest)
    ensures Covered(more, Stored(t, v, more, flushed), smallest)
  {
    TablesOkExtends(t, v, hist, more, flushed);
    StoredGenuine(t, v, hist, flushed);
    StoredGenuine(t, v, more, flushed);
    forall e | e in Tail(hist, flushed) ensures e in Tail(more, flushed) {
      EntryAtExtends(hist, more, e.key.sequence);
    }
    forall e | e in Tail(more, flushed) && e.key.sequence <= |hist| ensures e in Tail(hist, flushed) {
      EntryAtExtends(hist, more, e.key.sequence);
    }
    CoveredExtend(hist, more, Stored(t, v, hist, flushed), Stored(t, v, more, flushed), smallest);
  }

  lemma MatchesSnoc(hist: seq<Op>, more: seq<Op>, records: seq<Batch>, from: nat, ops: seq<Op>)
    requires Matches(hist, records, from, |hist|) && more == hist + ops
    ensures Matches(more, records + [Batch(|hist| + 1, ops)], from, |more|)
  {
    hide Matches;
    MatchesPrefix(hist, more, records, from, |hist|);
    MatchesLast(more, records, Batch(|hist| + 1, ops), from, |more|);
    assert more[|hist|..|more|] == ops;
  }

  lemma LiveRecordsLast(logs: seq<Log>, logNumber: nat)
    requires logs != []
    ensures var n := |logs| - 1;
      LiveRecords(logs, logNumber) == LiveRecords(logs[..n], logNumber) +
        (if logs[n].number >= logNumber then logs[n].records else [])
  {
  }

  lemma LogsOfSplit(d: Disk, r: Ram, hist: seq<Op>, flushed: nat, switched: nat)
    requires LogSplit(d, r, hist, flushed, switched) && r.logNumber <= r.logfileNumber && LogsSorted(d.logs)
    ensures LogsOk(d.logs, r.logNumber, hist, flushed)
  {
    var n := |d.logs| - 1;
    LiveRecordsLast(d.logs, r.logNumber);
    MatchesConcat(hist, LiveRecords(d.logs[..n], r.logNumber), d.logs[n].records, flushed, switched, |hist|);
  }

  lemma AppendSplit(d: Disk, r: Ram, hist: seq<Op>, flushed: nat, switched: nat, more: seq<Op>, ops: seq<Op>, b: Batch)
    requires LogSplit(d, r, hist, flushed, switched) && more == hist + ops && b == Batch(|hist| + 1, ops)
    ensures LogSplit(d.(logs := AppendRecord(d.logs, b)), r, more, flushed, switched)
  {
    hide Matches, LiveRecords;
    var n := |d.logs| - 1;
    var logs' := AppendRecord(d.logs, b);
    MatchesSnoc(hist, more, d.logs[n].records, switched, ops);
    MatchesOrder(hist, d.logs[n].records, switched, |hist|);
    MatchesPrefix(hist, more, LiveRecords(d.logs[..n], r.logNumber), flushed, switched);
    assert logs'[..n] == d.logs[..n];
  }

  lemma AppendKeepsNumbers(logs: seq<Log>, b: Batch)
    requires logs != [] && LogsSorted(logs)
    ensures LogsSorted(AppendRecord(logs, b))
    ensures forall i :: 0 <= i < |logs| ==> AppendRecord(logs, b)[i].number == logs[i].number
  {
    var logs' := AppendRecord(logs, b);
    forall i, j | 0 <= i < j < |logs'| ensures logs'[i].number < logs'[j].number {
      assert logs[i].number < logs[j].number;
    }
  }

  lemma WriteLogInv(s: Store, s': Store, ops: seq<Op>)
    requires Inv(s) && WriteLogStep(s, s', ops)
    ensures Inv(s')
  {
    hide Matches, LiveRecords, Covered, ManifestOk, TableOf, Stored, VersionInv, Replay;
    var r, r' := s.ram.value, s'.ram.value;
    assert Extends(s.hist, s'.hist);
    var v := Replay(Manifest(s.disk));
    assert Manifest(s'.disk) == Manifest(s.disk);
    SmallestInRange(r);
    StoredExtends(s.disk.tables, v, s.hist, s'.hist, s.flushed, SmallestSnapshot(r));
    TablesOkExtends(s.disk.tables, v, s.hist, s'.hist, s.flushed);
    TableOfExtends(s.hist, s'.hist, s.switched, r.last, r.mem);
    if r.imm.Some? { TableOfExtends(s.hist, s'.hist, s.flushed, s.switched, r.imm.value); }
    AppendSplit(s.disk, r, s.hist, s.flushed, s.switched, s'.hist, ops, r'.inflight.value);
    AppendKeepsNumbers(s.disk.logs, r'.inflight.value);
    assert s'.hist[|s.hist|..] == ops;
    LogsOfSplit(s'.disk, r', s'.hist, s.flushed, s.switched);
  }

  lemma TableOfInsert(hist: seq<Op>, from: nat, to: nat, entries: seq<Entry>, e: Entry)
    requires TableOf(hist, from, to, entries) && from <= to < |hist| && e == EntryAt(hist, to + 1)
    ensures TableOf(hist, from, to + 1, InsertEntry(entries, e))
  {
    InsertEntryMembers(entries, e);
    InsertEntrySorted(entries, e);
  }

  /** A change of memory alone that keeps the smallest snapshot. */
  lemma SameDiskInv(s: Store, s': Store)
    requires DiskInv(s.disk, s.hist, s.flushed, Smallest(s))
    requires s'.disk == s.disk && s'.hist == s.hist && s'.flushed == s.flushed && Smallest(s') == Smallest(s)
    requires s'.ram.Some? && RamInv(s'.disk, s'.ram.value, s'.hist, s'.flushed, s'.switched)
    ensures Inv(s')
  {
  }

  lemma ApplyNextInv(s: Store, s': Store)
    requires Inv(s) && ApplyNextStep(s, s')
    ensures Inv(s')
  {
    hide DiskInv, RamInv, InsertEntry, EntryOf;
    ApplyNextMemory(s.disk, s.ram.value, s.hist, s.flushed, s.switched, s'.ram.value);
    SameDiskInv(s, s');
  }

  lemma ApplyNextMemory(d: Disk, r: Ram, hist: seq<Op>, flushed: nat, switched: nat, r': Ram)
    requires RamInv(d, r, hist, flushed, switched)
    requires r.inflight.Some? && r.done < |r.inflight.value.ops|
    requires var b := r.inflight.value;
      r' == r.(mem := InsertEntry(r.mem, EntryOf(b.ops[r.done], b.first + r.done)), done := r.done + 1)
    ensures RamInv(d, r', hist, flushed, switched)
  {
    hide Matches, LiveRecords, Replay, LatestLogNumber, LatestNextFile, LatestSequence, TableOf, InsertEntry;
    var b := r.inflight.value;
    assert EntryOf(b.ops[r.done], b.first + r.done) == EntryAt(hist, r.last + r.done + 1);
    TableOfInsert(hist, switched, r.last + r.done, r.mem, EntryAt(hist, r.last + r.done + 1));
  }

  lemma PublishInv(s: Store, s': Store)
    requires Inv(s) && PublishStep(s, s')
    ensures Inv(s')
  {
    var r, r' := s.ram.value, s'.ram.value;
    assert r'.last == |s.hist|;
    SmallestInRange(r);
    CoveredMono(s.hist, Stored(s.disk.tables, r.version, s.hist, s.flushed), SmallestSnapshot(r), SmallestSnapshot(r'));
  }

  lemma SwitchMemTableInv(s: Store, s': Store)
    requires Inv(s) && SwitchMemTableStep(s, s')
    ensures Inv(s')
  {
    hide Covered, ManifestOk, Stored, VersionInv, Replay;
    var r, r' := s.ram.value, s'.ram.value;
    LiveRecordsSnoc(s.disk.logs, Log(r.nextFile, []), r.logNumber);
    assert LiveRecords(s.disk.logs, r.logNumber) + [] == LiveRecords(s.disk.logs, r.logNumber);
    assert s'.disk.logs[..|s.disk.logs|] == s.disk.logs;
    assert LogsSorted(s'.disk.logs);
    assert Manifest(s'.disk) == Manifest(s.disk);
    assert LogSplit(s'.disk, r', s.hist, s.flushed, |s.hist|);
  }

  lemma TakeSnapshotInv(s: Store, s': Store)
    requires Inv(s) && TakeSnapshotStep(s, s')
    ensures Inv(s')
  {
    TakeSnapshotRam(s.disk, s.ram.value, s.hist, s.flushed, s.switched, s'.ram.value);
    SameDiskInv(s, s');
  }

  lemma TakeSnapshotRam(d: Disk, r: Ram, hist: seq<Op>, flushed: nat, switched: nat, r': Ram)
    requires RamInv(d, r, hist, flushed, switched) && r' == r.(snapshots := r.snapshots + [r.last])
    ensures RamInv(d, r', hist, flushed, switched) && SmallestSnapshot(r') == SmallestSnapshot(r)
  {
  }

  lemma PinnedRam(d: Disk, r: Ram, hist: seq<Op>, flushed: nat, switched: nat, r': Ram)
    requires RamInv(d, r, hist, flushed, switched) && r' == r.(pinned := r'.pinned)
    ensures RamInv(d, r', hist, flushed, switched) && SmallestSnapshot(r') == SmallestSnapshot(r)
  {
    hide TableOf, Matches, LiveRecords, HasCounters, Replay;
  }

  lemma PinVersionInv(s: Store, s': Store)
    requires Inv(s) && PinVersionStep(s, s')
    ensures Inv(s')
  {
    hide DiskInv, RamInv, SmallestSnapshot;
    PinnedRam(s.disk, s.ram.value, s.hist, s.flushed, s.switched, s'.ram.value);
  }

  lemma UnpinVersionInv(s: Store, s': Store, i: nat)
    requires Inv(s) && UnpinVersionStep(s, s', i)
    ensures Inv(s')
  {
    hide DiskInv, RamInv, SmallestSnapshot;
    PinnedRam(s.disk, s.ram.value, s.hist, s.flushed, s.switched, s'.ram.value);
  }

  lemma ReleaseSnapshotInv(s: Store, s': Store, i: nat)
    requires Inv(s) && ReleaseSnapshotStep(s, s', i)
    ensures Inv(s')
  {
    var r, r' := s.ram.value, s'.ram.value;
    ReleaseSnapshotRam(s.disk, r, s.hist, s.flushed, s.switched, i, r');
    CoveredMono(s.hist, Stored(s.disk.tables, r.version, s.hist, s.flushed), SmallestSnapshot(r), SmallestSnapshot(r'));
  }

  lemma ReleaseSnapshotRam(d: Disk, r: Ram, hist: seq<Op>, flushed: nat, switched: nat, i: nat, r': Ram)
    requires RamInv(d, r, hist, flushed, switched) && i < |r.snapshots|
    requires r' == r.(snapshots := r.snapshots[..i] + r.snapshots[i + 1..])
    ensures RamInv(d, r', hist, flushed, switched)
    ensures SmallestSnapshot(r) <= SmallestSnapshot(r') <= |hist|
  {
  }
}
