/** The store's background work and recovery as the code does them, each shown to be one step
    of the store (db/db_impl.cc, db/version_set.cc). */
module StoreWork {
  import opened InternalKeys
  import opened VersionReads
  import opened CompactionInputs
  import opened VersionBuilder
  import opened Compactions
  import opened Views
  import opened LevelShape
  import opened StoreState
  import opened StoreSteps
  import opened StoreInvariant
  import opened StoreRecovery
  import opened StoreTheorems

  // ---- flush ----

  lemma VersionOfInv(s: Store)
    requires Inv(s) && s.ram.Some?
    ensures GoodLevels(s.ram.value.version)
    ensures forall l, f :: 0 <= l < NUM_LEVELS && f in s.ram.value.version[l] ==> f.largest.sequence <= MAX_SEQUENCE
  {
    hide ManifestOk, LogsOk, LogSplit, MemoryOk, InflightOk, Covered, Replay;
    var t, v := s.disk.tables, s.ram.value.version;
    VersionGoodLevels(t, v);
    forall l, f: FileMeta | 0 <= l < NUM_LEVELS && f in v[l] ensures f.largest.sequence <= MAX_SEQUENCE {
      FileEnds(t, f);
      InVersionEntries(t, v, l, f, Data(t, f)[|Data(t, f)| - 1]);
    }
  }

  lemma ImmOrdered(s: Store)
    requires Inv(s) && s.ram.Some? && s.ram.value.imm.Some? && s.ram.value.imm.value != []
    ensures var imm := s.ram.value.imm.value; imm[0].key.user <= imm[|imm| - 1].key.user
  {
    hide DiskInv, CountersOk, LogSplit, InflightOk;
    var imm := s.ram.value.imm.value;
    assert |imm| > 1 ==> Before(imm[0].key, imm[|imm| - 1].key);
  }

  /** `CompactMemTable`: writes the immutable memtable out, at the level
      `PickLevelForMemTableOutput` finds for it. */
  method CompactMemTable(s: Store, size: nat, maxOverlapBytes: nat) returns (s': Store, level: nat)
    requires Reachable(s) && s.ram.Some? && s.ram.value.imm.Some?
    ensures FlushMemTableStep(s, s', level, size)
    ensures var imm := s.ram.value.imm.value;
      |s.ram.value.version| == NUM_LEVELS &&
      if imm == [] then level == 0
      else IsOutputLevel(s.ram.value.version, imm[0].key.user, imm[|imm| - 1].key.user, maxOverlapBytes, level)
  {
    hide Inv, Reachable, GoodLevels, NoOverlapUpTo, Install, IsOutputLevel;
    ReachableInv(s);
    VersionOfInv(s);
    assert |s.ram.value.version| == NUM_LEVELS by { LevelCount(s); }
    var r := s.ram.value;
    var imm := r.imm.value;
    level := 0;
    if imm == [] {
      var (d', r') := LogAndApply(s.disk, r, FullEdit(r.logfileNumber, r.nextFile + 1, r.last, {}, []));
      s' := s.(flushed := s.switched, disk := d', ram := Some(r'.(imm := None)));
    } else {
      ImmOrdered(s);
      var f := TableMeta(r.nextFile, size, imm);
      level := PickLevelForMemTableOutput(r.version, f.smallest.user, f.largest.user, maxOverlapBytes);
      var (d', r') := LogAndApply(s.disk.(tables := s.disk.tables[r.nextFile := imm]), r,
                                    FullEdit(r.logfileNumber, r.nextFile + 1, r.last, {}, [(level, f)]));
      s' := s.(flushed := s.switched, disk := d', ram := Some(r'.(imm := None)));
    }
  }

  lemma LevelCount(s: Store)
    requires Inv(s) && s.ram.Some?
    ensures |s.ram.value.version| == NUM_LEVELS
  {
    VersionOfInv(s);
  }

  // ---- compaction ----

  /** Size-triggered or seek-triggered compaction of `level`, starting from file `seed`
      (`BackgroundCompaction`, `PickCompaction`, `DoCompactionWork`,
      `InstallCompactionResults`).
      The result is one store step, provided no user key is shared across a boundary of the
      output level's inputs. */
  method BackgroundCompaction(s: Store, level: nat, seed: FileMeta, sizeLimit: nat, maxOverlapBytes: nat)
    returns (s': Store, in0: seq<FileMeta>, in1: seq<FileMeta>, outs: seq<Output>)
    requires Reachable(s) && s.ram.Some? && level + 1 < NUM_LEVELS && |s.ram.value.version| == NUM_LEVELS
    requires seed in s.ram.value.version[level]
    ensures ValidInputs(s.ram.value.version, level, in0, in1) && seed in in0
    ensures FromSeed(s.ram.value.version, level, seed, sizeLimit, in0, in1)
    ensures NoSharedBoundary(s.ram.value.version, level, in1) ==>
              if IsTrivialMove(s.ram.value.version, level, in0, in1, maxOverlapBytes)
              then in0 == [in0[0]] && TrivialMoveStep(s, s', level, in0[0])
              else CompactStep(s, s', level, in0, in1, outs)
  {
    hide Inv, Reachable, GoodLevels, ValidInputs, NoSharedBoundary, Install, Kept, MergeInputs, GoodOutputs, Flatten,
      WriteTables, Compaction.Valid, SmallestSnapshot, FromSeed, IsTrivialMove;
    ReachableInv(s);
    VersionOfInv(s);
    var r := s.ram.value;
    in0, in1 := PickCompactionInputs(r.version, level, seed, sizeLimit);
    InputsNotEmpty(r.version, level, in0, in1);
    var trivial := DecideTrivialMove(r.version, level, in0, in1, maxOverlapBytes);
    if trivial {
      TrivialIsSingle(r.version, level, in0, in1, maxOverlapBytes);
      outs := [];
      var f := in0[0];
      var (d', r') := LogAndApply(s.disk, r,
                                  FullEdit(r.logNumber, r.nextFile, r.last, {(level, f.number)}, [(level + 1, f)]));
      s' := s.(disk := d', ram := Some(r'));
    } else {
      var input := MergeInputs(s.disk.tables, in0 + in1);
      SortedInput(s, level, in0, in1);
      var c := new Compaction(level, r.version);
      outs := DoCompactionWork(c, input, SmallestSnapshot(r), r.nextFile);
      var e := FullEdit(r.logNumber, r.nextFile + |outs|, r.last,
                        DeletionsOf(level, in0) + DeletionsOf(level + 1, in1), AddAll(level + 1, outs));
      var (d', r') := LogAndApply(s.disk.(tables := WriteTables(s.disk.tables, outs)), r, e);
      s' := s.(disk := d', ram := Some(r'));
    }
  }

  lemma TrivialIsSingle(v: Levels, level: nat, in0: seq<FileMeta>, in1: seq<FileMeta>, maxOverlapBytes: nat)
    requires |v| == NUM_LEVELS && level + 1 < NUM_LEVELS && IsTrivialMove(v, level, in0, in1, maxOverlapBytes)
    ensures |in0| == 1 && in0 == [in0[0]] && in1 == []
  {
  }

  lemma InputsNotEmpty(v: Levels, level: nat, in0: seq<FileMeta>, in1: seq<FileMeta>)
    requires |v| == NUM_LEVELS && level + 1 < NUM_LEVELS && ValidInputs(v, level, in0, in1)
    ensures in0 != []
  {
  }

  /** What the compaction loop needs: sorted input, a usable version, and a smallest snapshot
      below the largest sequence number. */
  lemma SortedInput(s: Store, level: nat, in0: seq<FileMeta>, in1: seq<FileMeta>)
    requires Inv(s) && s.ram.Some? && level + 1 < NUM_LEVELS && |s.ram.value.version| == NUM_LEVELS
    requires ValidInputs(s.ram.value.version, level, in0, in1)
    ensures Sorted(MergeInputs(s.disk.tables, in0 + in1)) && SmallestSnapshot(s.ram.value) < MAX_SEQUENCE
    ensures forall l :: 1 <= l < NUM_LEVELS ==> SortedLevel(s.ram.value.version[l])
    ensures forall l, f :: 0 <= l < NUM_LEVELS && f in s.ram.value.version[l] ==> f.smallest.user <= f.largest.user
  {
    hide ManifestOk, LogsOk, LogSplit, MemoryOk, InflightOk, Covered, Replay, ValidInputs, Sorted, MergeInputs,
      VersionInv;
    StoreVersionSteps.CompactionInput(s.disk.tables, s.ram.value.version, s.hist, s.flushed, level, in0, in1);
    SmallestInRange(s.ram.value);
    VersionOfInv(s);
  }

  // ---- recovery ----

  lemma {:induction false} MemOfConcat(a: seq<Batch>, b: seq<Batch>)
    requires MemOf(b) == []
    ensures MemOf(a + b) == MemOf(a)
  {
    if b == [] {
      assert a + b == a;
    } else {
      var init, last := b[..|b| - 1], b[|b| - 1];
      assert (a + b)[..|a + b| - 1] == a + init && (a + b)[|a + b| - 1] == last;
      if |last.ops| > 0 { InsertOpsNotEmpty(MemOf(init), last, |last.ops|); }
      MemOfConcat(a, init);
    }
  }

  lemma InsertOpsNotEmpty(mem: seq<Entry>, b: Batch, n: nat)
    requires 0 < n <= |b.ops|
    ensures InsertOps(mem, b, n) != []
  {
  }

  /** Records that hold no operation change nothing. */
  lemma EmptyRecordsRecovered(records: seq<Batch>, more: seq<Batch>, first: nat, outs: seq<Output>)
    requires RecoveredTables(records, first, outs) && MemOf(more) == []
    ensures RecoveredTables(records + more, first, outs)
  {
    hide MemOf, GoodOutput;
    if outs == [] {
      MemOfConcat(records, more);
    } else {
      var o, init := outs[|outs| - 1], outs[..|outs| - 1];
      var cut :| 0 <= cut <= |records| && o.entries == MemOf(records[cut..]) &&
        RecoveredTables(records[..cut], first, init);
      MemOfConcat(records[cut..], more);
      assert (records + more)[cut..] == records[cut..] + more;
      assert (records + more)[..cut] == records[..cut];
    }
  }

  lemma TableRecovered(records: seq<Batch>, more: seq<Batch>, first: nat, outs: seq<Output>, o: Output)
    requires RecoveredTables(records, first, outs)
    requires GoodOutput(o) && o.meta.number >= first && o.entries == MemOf(more)
    requires forall i :: 0 <= i < |outs| ==> outs[i].meta.number < o.meta.number
    ensures RecoveredTables(records + more, first, outs + [o])
  {
    assert (outs + [o])[..|outs|] == outs;
    assert (records + more)[|records|..] == more && (records + more)[..|records|] == records;
  }

  ghost predicate NumbersBelow(outs: seq<Output>, n: nat) {
    forall i :: 0 <= i < |outs| ==> outs[i].meta.number < n
  }

  /** Writes the memtable of the records `pending` as a level-0 table, unless it is empty. */
  method WriteLevel0Table(outs: seq<Output>, mem: seq<Entry>, number: nat, size: nat,
                          ghost records: seq<Batch>, ghost pending: seq<Batch>, ghost first: nat)
    returns (outs': seq<Output>)
    requires RecoveredTables(records, first, outs) && mem == MemOf(pending)
    requires first <= number && NumbersBelow(outs, number)
    ensures RecoveredTables(records + pending, first, outs') && NumbersBelow(outs', number + 1)
  {
    if mem == [] {
      EmptyRecordsRecovered(records, pending, first, outs);
      outs' := outs;
    } else {
      var o := Output(TableMeta(number, size, mem), mem);
      TableRecovered(records, pending, first, outs, o);
      outs' := outs + [o];
    }
  }

  lemma MaxSequenceSnoc(records: seq<Batch>, b: Batch)
    ensures MaxSequence(records + [b]) ==
            var lastSeq := if b.first + |b.ops| >= 1 then b.first + |b.ops| - 1 else 0;
            if lastSeq > MaxSequence(records) then lastSeq else MaxSequence(records)
  {
    assert (records + [b])[..|records|] == records;
  }

  lemma MemOfSnoc(records: seq<Batch>, b: Batch)
    ensures MemOf(records + [b]) == InsertOps(MemOf(records), b, |b.ops|)
  {
    assert (records + [b])[..|records|] == records;
  }

  /** `RecoverLogFile`: replays one log into a memtable, writing it out whenever it is full
      and at the end.  `full` is the memory-usage test. */
  method RecoverLogFile(log: Log, full: seq<Entry> -> bool, outs: seq<Output>, nextFile: nat, maxSequence: nat,
                        ghost before: seq<Batch>, ghost first: nat)
    returns (outs': seq<Output>, nextFile': nat, maxSequence': nat)
    requires RecoveredTables(before, first, outs) && first <= nextFile && NumbersBelow(outs, nextFile)
    requires maxSequence == MaxSequence(before)
    ensures RecoveredTables(before + log.records, first, outs') && nextFile <= nextFile'
    ensures NumbersBelow(outs', nextFile')
    ensures maxSequence' == MaxSequence(before + log.records)
  {
    hide RecoveredTables, MaxSequence, InsertOps;
    outs', nextFile', maxSequence' := outs, nextFile, maxSequence;
    var mem: Option<seq<Entry>> := None;
    ghost var written := before;
    ghost var pending: seq<Batch> := [];
    assert before + log.records[..0] == before;
    for i := 0 to |log.records|
      invariant written + pending == before + log.records[..i]
      invariant RecoveredTables(written, first, outs') && nextFile <= nextFile' && NumbersBelow(outs', nextFile')
      invariant maxSequence' == MaxSequence(before + log.records[..i])
      invariant if mem.Some? then mem.value == MemOf(pending) else pending == []
    {
      var batch := log.records[i];
      assert before + log.records[..i + 1] == (before + log.records[..i]) + [batch];
      assert written + (pending + [batch]) == (written + pending) + [batch];
      MaxSequenceSnoc(before + log.records[..i], batch);
      MemOfSnoc(pending, batch);
      if mem.None? {
        mem := Some([]);
      }
      mem := Some(InsertOps(mem.value, batch, |batch.ops|));
      pending := pending + [batch];
      var lastSeq := if batch.first + |batch.ops| >= 1 then batch.first + |batch.ops| - 1 else 0;
      if lastSeq > maxSequence' {
        maxSequence' := lastSeq;
      }
      if full(mem.value) {
        var size: nat := *;
        outs' := WriteLevel0Table(outs', mem.value, nextFile', size, written, pending, first);
        nextFile' := nextFile' + 1;
        written, pending := written + pending, [];
        mem := None;
        assert written + pending == written;
      }
    }
    assert before + log.records[..|log.records|] == before + log.records;
    if mem.Some? {
      var size: nat := *;
      outs' := WriteLevel0Table(outs', mem.value, nextFile', size, written, pending, first);
      nextFile' := nextFile' + 1;
    } else {
      assert written + pending == written;
    }
  }

  lemma LiveRecordsTo(logs: seq<Log>, i: nat, logNumber: nat)
    requires i < |logs|
    ensures LiveRecords(logs[..i + 1], logNumber) ==
            LiveRecords(logs[..i], logNumber) + (if logs[i].number >= logNumber then logs[i].records else [])
  {
    assert logs[..i + 1] == logs[..i] + [logs[i]];
    LiveRecordsSnoc(logs[..i], logs[i], logNumber);
  }

  lemma NothingRecovered(logs: seq<Log>, minLog: nat, first: nat)
    ensures LiveRecords(logs[..0], minLog) == [] && RecoveredTables([], first, []) && MaxSequence([]) == 0
  {
  }

  /** The log part of `DBImpl::Recover`: every log numbered `minLog` or higher, in order. */
  method RecoverLogs(logs: seq<Log>, minLog: nat, full: seq<Entry> -> bool, first: nat)
    returns (outs: seq<Output>, nextFile: nat, maxSequence: nat)
    ensures RecoveredTables(LiveRecords(logs, minLog), first, outs)
    ensures maxSequence == MaxSequence(LiveRecords(logs, minLog))
    ensures first <= nextFile && NumbersBelow(outs, nextFile)
    ensures forall i :: 0 <= i < |logs| && logs[i].number >= minLog ==> logs[i].number < nextFile
  {
    hide RecoveredTables, LiveRecords, MaxSequence;
    outs, nextFile, maxSequence := [], first, 0;
    NothingRecovered(logs, minLog, first);
    for i := 0 to |logs|
      invariant RecoveredTables(LiveRecords(logs[..i], minLog), first, outs)
      invariant maxSequence == MaxSequence(LiveRecords(logs[..i], minLog))
      invariant first <= nextFile && NumbersBelow(outs, nextFile)
      invariant forall j :: 0 <= j < i && logs[j].number >= minLog ==> logs[j].number < nextFile
    {
      LiveRecordsTo(logs, i, minLog);
      if logs[i].number >= minLog {
        outs, nextFile, maxSequence :=
          RecoverLogFile(logs[i], full, outs, nextFile, maxSequence, LiveRecords(logs[..i], minLog), first);
        if nextFile <= logs[i].number { // MarkFileNumberUsed
          nextFile := logs[i].number + 1;
        }
      } else {
        assert LiveRecords(logs[..i], minLog) + [] == LiveRecords(logs[..i], minLog);
      }
    }
    assert logs[..|logs|] == logs;
  }

  /** The counters a MANIFEST records last, as the loop of `VersionSet::Recover` collects them. */
  method RecoverCounters(edits: seq<Edit>) returns (logNumber: Option<nat>, nextFile: Option<nat>, last: Option<nat>)
    ensures logNumber == LatestLogNumber(edits) && nextFile == LatestNextFile(edits) && last == LatestSequence(edits)
  {
    logNumber, nextFile, last := None, None, None;
    for i := 0 to |edits|
      invariant logNumber == LatestLogNumber(edits[..i]) && nextFile == LatestNextFile(edits[..i])
      invariant last == LatestSequence(edits[..i])
    {
      assert edits[..i + 1][..i] == edits[..i];
      if edits[i].logNumber.Some? { logNumber := edits[i].logNumber; }
      if edits[i].nextFile.Some? { nextFile := edits[i].nextFile; }
      if edits[i].lastSequence.Some? { last := edits[i].lastSequence; }
    }
    assert edits[..|edits|] == edits;
  }

  lemma RecoverInput(s: Store)
    requires Inv(s) && s.ram == None
    ensures forall e, a :: e in Manifest(s.disk) && a in e.added ==> a.0 < NUM_LEVELS
    ensures HasCounters(Manifest(s.disk))
    ensures LatestLogNumber(Manifest(s.disk)).value < LatestNextFile(Manifest(s.disk)).value
  {
    hide Replay, Covered, NumbersOnce, LevelsRise, LogsOk, TablesOk, LatestLogNumber, LatestNextFile, LatestSequence;
    var edits := Manifest(s.disk);
    forall e, a | e in edits && a in e.added ensures a.0 < NUM_LEVELS {
      var i :| 0 <= i < |edits| && edits[i] == e;
      assert Adds(edits[i], a.0, a.1);
      assert EverAdded(edits, a.0, a.1);
    }
  }

  /** `DB::Open` on what a crash left: MANIFEST, then logs, then a new log and MANIFEST.  From
      every reachable state without memory it succeeds, by one recovery step of the store. */
  method Open(s: Store, full: seq<Entry> -> bool) returns (s': Store, outs: seq<Output>, newLog: nat)
    requires Reachable(s) && s.ram == None
    ensures RecoverStep(s, s', outs, newLog)
    ensures s'.ram.Some? && s'.ram.value.last == |s.hist| && s'.hist == s.hist
  {
    hide Inv, Reachable, Replay, Install, WriteTables, RecoveredTables, LiveRecords, MaxSequence, SnapshotRecord,
      LatestLogNumber, LatestNextFile, LatestSequence, Manifest, AddAll;
    ReachableInv(s);
    RecoverInput(s);
    DiskParts(s);
    var edits := Manifest(s.disk);
    var v := RecoverVersion(edits);
    var logNumber, nextFile, last := RecoverCounters(edits);
    var manifestNumber := nextFile.value;
    var maxSequence;
    outs, newLog, maxSequence := RecoverLogs(s.disk.logs, logNumber.value, full, manifestNumber + 1);
    var lastSequence := last.value;
    if lastSequence < maxSequence {
      lastSequence := maxSequence;
    }
    var e := FullEdit(newLog, newLog + 1, lastSequence, {}, AddAll(0, outs));
    s' := Store(s.hist, |s.hist|, |s.hist|,
                Disk(WriteTables(s.disk.tables, outs), s.disk.logs + [Log(newLog, [])],
                     s.disk.manifests[manifestNumber := [SnapshotRecord(v), e]], manifestNumber),
                Some(OpenedRam(Install(v, e), lastSequence, newLog, manifestNumber)));
    RecoverInv(s, s', outs, newLog);
  }

  // ---- obsolete files ----

  ghost predicate NamedIn(versions: seq<Levels>, n: nat) {
    exists i :: 0 <= i < |versions| && LiveNumber(versions[i], n)
  }

  /** The numbers of all files of all versions that are referred to. */
  method AddLiveFiles(versions: seq<Levels>) returns (live: set<nat>)
    ensures forall n: nat :: n in live <==> NamedIn(versions, n)
  {
    live := {};
    for i := 0 to |versions|
      invariant forall n: nat :: n in live <==> NamedIn(versions[..i], n)
    {
      ghost var before := live;
      var v := versions[i];
      for l := 0 to |v|
        invariant forall n: nat :: n in live <==> n in before || LiveNumber(v[..l], n)
      {
        for k := 0 to |v[l]|
          invariant forall n: nat :: n in live <==> n in before || LiveNumber(v[..l], n) || NumberIn(v[l][..k], n)
        {
          NumberInSnoc(v[l], k);
          live := live + {v[l][k].number};
        }
        assert v[l][..|v[l]|] == v[l];
        LiveNumberSnoc(v, l);
      }
      assert v[..|v|] == v;
      NamedInSnoc(versions, i);
    }
    assert versions[..|versions|] == versions;
  }

  ghost predicate NumberIn(files: seq<FileMeta>, n: nat) {
    exists f :: f in files && f.number == n
  }

  lemma NumberInSnoc(files: seq<FileMeta>, k: nat)
    requires k < |files|
    ensures forall n: nat :: NumberIn(files[..k + 1], n) <==> NumberIn(files[..k], n) || n == files[k].number
  {
    assert files[..k + 1] == files[..k] + [files[k]];
    assert files[k] in files[..k + 1];
    forall n: nat | NumberIn(files[..k], n) ensures NumberIn(files[..k + 1], n) {
      var f :| f in files[..k] && f.number == n;
      assert f in files[..k + 1];
    }
  }

  lemma LiveNumberSnoc(v: Levels, l: nat)
    requires l < |v|
    ensures forall n: nat :: LiveNumber(v[..l + 1], n) <==> LiveNumber(v[..l], n) || NumberIn(v[l], n)
  {
    var some, more := v[..l], v[..l + 1];
    forall n: nat ensures LiveNumber(more, n) <==> LiveNumber(some, n) || NumberIn(v[l], n) {
      if LiveNumber(some, n) {
        var m, f: FileMeta :| 0 <= m < |some| && f in some[m] && f.number == n;
        assert f in more[m];
      }
      if NumberIn(v[l], n) {
        var f :| f in v[l] && f.number == n;
        assert f in more[l];
      }
      if LiveNumber(more, n) {
        var m, f: FileMeta :| 0 <= m < |more| && f in more[m] && f.number == n;
        assert m < l ==> f in some[m];
      }
    }
  }

  lemma NamedInSnoc(versions: seq<Levels>, i: nat)
    requires i < |versions|
    ensures forall n: nat :: NamedIn(versions[..i + 1], n) <==> NamedIn(versions[..i], n) || LiveNumber(versions[i], n)
  {
    hide LiveNumber;
    var some, more := versions[..i], versions[..i + 1];
    forall n: nat ensures NamedIn(more, n) <==> NamedIn(some, n) || LiveNumber(versions[i], n) {
      if NamedIn(some, n) {
        var k :| 0 <= k < |some| && LiveNumber(some[k], n);
        assert LiveNumber(more[k], n);
      }
      if LiveNumber(versions[i], n) { assert LiveNumber(more[i], n); }
      if NamedIn(more, n) {
        var k :| 0 <= k < |more| && LiveNumber(more[k], n);
        assert k < i ==> LiveNumber(some[k], n);
      }
    }
  }

  /** The logs numbered `logNumber` or higher. */
  function LogsFrom(logs: seq<Log>, logNumber: nat): seq<Log> {
    if logs == [] then []
    else
      var last := logs[|logs| - 1];
      LogsFrom(logs[..|logs| - 1], logNumber) + (if last.number >= logNumber then [last] else [])
  }

  /** `DeleteObsoleteFiles`, by kind of file: of the tables those stay that the current version
      or one held by an iterator names, of the logs those from the recorded log number on, and
      of the MANIFESTs the current one and later ones.  Every deletion is a step of the store. */
  method DeleteObsoleteFiles(s: Store) returns (s': Store)
    requires Reachable(s) && s.ram.Some?
    ensures Reachable(s') && s'.ram == s.ram && s'.hist == s.hist && s'.disk.current == s.disk.current
    ensures var r := s.ram.value;
      && (forall n: nat :: n in s'.disk.tables <==>
            n in s.disk.tables && (LiveNumber(r.version, n) || PinnedNumber(r, n)))
      && (forall n :: n in s'.disk.tables ==> s'.disk.tables[n] == s.disk.tables[n])
      && s'.disk.logs == LogsFrom(s.disk.logs, r.logNumber)
      && (forall n :: n in s'.disk.manifests <==> n in s.disk.manifests && n >= r.manifestNumber)
      && (forall n :: n in s'.disk.manifests ==> s'.disk.manifests[n] == s.disk.manifests[n])
  {
    hide Reachable, LiveNumber, PinnedNumber;
    var r := s.ram.value;
    var live := AddLiveFiles(r.pinned + [r.version]);
    forall n: nat ensures n in live <==> LiveNumber(r.version, n) || PinnedNumber(r, n) { LiveOrPinned(r, n); }
    s' := DeleteTables(s, live);
    s' := DeleteLogs(s');
    s' := DeleteManifests(s');
  }

  lemma LiveOrPinned(r: Ram, n: nat)
    ensures NamedIn(r.pinned + [r.version], n) <==> LiveNumber(r.version, n) || PinnedNumber(r, n)
  {
    hide LiveNumber;
    var all := r.pinned + [r.version];
    if NamedIn(all, n) {
      var i :| 0 <= i < |all| && LiveNumber(all[i], n);
      assert i < |r.pinned| ==> LiveNumber(r.pinned[i], n);
    }
    if PinnedNumber(r, n) {
      var i :| 0 <= i < |r.pinned| && LiveNumber(r.pinned[i], n);
      assert LiveNumber(all[i], n);
    }
    if LiveNumber(r.version, n) { assert LiveNumber(all[|r.pinned|], n); }
  }

  method DeleteTables(s: Store, live: set<nat>) returns (s': Store)
    requires Reachable(s) && s.ram.Some?
    requires forall n: nat :: n in live <==> LiveNumber(s.ram.value.version, n) || PinnedNumber(s.ram.value, n)
    ensures Reachable(s') && s' == s.(disk := s.disk.(tables := s'.disk.tables))
    ensures forall n: nat :: n in s'.disk.tables <==> n in s.disk.tables && n in live
    ensures forall n :: n in s'.disk.tables ==> s'.disk.tables[n] == s.disk.tables[n]
  {
    hide Reachable, LiveNumber, PinnedNumber;
    s' := s;
    var todo := s.disk.tables.Keys;
    while todo != {}
      invariant todo <= s.disk.tables.Keys && Reachable(s') && s' == s.(disk := s.disk.(tables := s'.disk.tables))
      invariant forall n: nat :: n in s'.disk.tables <==> n in s.disk.tables && (n in live || n in todo)
      invariant forall n :: n in s'.disk.tables ==> s'.disk.tables[n] == s.disk.tables[n]
      decreases todo
    {
      var n :| n in todo;
      if n !in live {
        var next := s'.(disk := s'.disk.(tables := s'.disk.tables - {n}));
        Reach(s', next, DeleteTable(n));
        s' := next;
      }
      todo := todo - {n};
    }
  }

  method DeleteLogs(s: Store) returns (s': Store)
    requires Reachable(s) && s.ram.Some?
    ensures Reachable(s') && s' == s.(disk := s.disk.(logs := LogsFrom(s.disk.logs, s.ram.value.logNumber)))
  {
    hide Reachable, LogsFrom, DeleteLogStep;
    s' := s;
    var logNumber := s.ram.value.logNumber;
    NoLogs(s.disk.logs, logNumber);
    var i, done := 0, 0;
    while i < |s'.disk.logs|
      invariant done <= |s.disk.logs| && Reachable(s') && s' == s.(disk := s.disk.(logs := s'.disk.logs))
      invariant s'.disk.logs == LogsFrom(s.disk.logs[..done], logNumber) + s.disk.logs[done..]
      invariant i == |LogsFrom(s.disk.logs[..done], logNumber)|
      decreases |s.disk.logs| - done
    {
      LogsFromStep(s.disk.logs, done, logNumber, s'.disk.logs);
      if s'.disk.logs[i].number < logNumber {
        var next := s'.(disk := s'.disk.(logs := s'.disk.logs[..i] + s'.disk.logs[i + 1..]));
        LogDeleted(s', next, i);
        s' := next;
      } else {
        i := i + 1;
      }
      done := done + 1;
    }
    assert s.disk.logs[..|s.disk.logs|] == s.disk.logs;
  }

  lemma LogDeleted(s: Store, s': Store, i: nat)
    requires Reachable(s) && s.ram.Some? && i < |s.disk.logs| && s.disk.logs[i].number < s.ram.value.logNumber
    requires s' == s.(disk := s.disk.(logs := s.disk.logs[..i] + s.disk.logs[i + 1..]))
    ensures Reachable(s')
  {
    hide Reachable;
    Reach(s, s', DeleteLog(i));
  }

  lemma NoLogs(logs: seq<Log>, logNumber: nat)
    ensures LogsFrom(logs[..0], logNumber) == [] && [] + logs[0..] == logs
  {
  }

  /** The loop looks at log `n`, which `now` still has behind the logs kept so far. */
  lemma LogsFromStep(logs: seq<Log>, n: nat, logNumber: nat, now: seq<Log>)
    requires n < |logs| && now == LogsFrom(logs[..n], logNumber) + logs[n..]
    ensures var i := |LogsFrom(logs[..n], logNumber)|;
      && i < |now| && now[i] == logs[n]
      && |LogsFrom(logs[..n + 1], logNumber)| == (if now[i].number < logNumber then i else i + 1)
      && LogsFrom(logs[..n + 1], logNumber) + logs[n + 1..] ==
         if now[i].number < logNumber then now[..i] + now[i + 1..] else now
  {
    assert logs[..n + 1][..n] == logs[..n];
    assert logs[n..] == [logs[n]] + logs[n + 1..];
  }

  method DeleteManifests(s: Store) returns (s': Store)
    requires Reachable(s) && s.ram.Some?
    ensures Reachable(s') && s' == s.(disk := s.disk.(manifests := s'.disk.manifests))
    ensures forall n :: n in s'.disk.manifests <==> n in s.disk.manifests && n >= s.ram.value.manifestNumber
    ensures forall n :: n in s'.disk.manifests ==> s'.disk.manifests[n] == s.disk.manifests[n]
  {
    hide Reachable;
    s' := s;
    var number := s.ram.value.manifestNumber;
    var todo := s.disk.manifests.Keys;
    while todo != {}
      invariant todo <= s.disk.manifests.Keys && Reachable(s')
      invariant s' == s.(disk := s.disk.(manifests := s'.disk.manifests))
      invariant forall n :: n in s'.disk.manifests <==> n in s.disk.manifests && (n >= number || n in todo)
      invariant forall n :: n in s'.disk.manifests ==> s'.disk.manifests[n] == s.disk.manifests[n]
      decreases todo
    {
      var n :| n in todo;
      if n < number {
        var next := s'.(disk := s'.disk.(manifests := s'.disk.manifests - {n}));
        Reach(s', next, DeleteManifest(n));
        s' := next;
      }
      todo := todo - {n};
    }
  }
}
