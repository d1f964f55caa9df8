/** The steps of the store (db/db_impl.cc, db/version_set.cc `LogAndApply`).

    A step is what the code does while it holds the mutex, or one disk write.  A flush and a
    compaction are atomic; `StrayTable`, `StrayLog` and `StrayManifest` add the files that an
    unfinished flush, compaction or recovery may leave behind. */
module StoreSteps {
  import opened InternalKeys
  import opened VersionReads
  import opened CompactionInputs
  import opened VersionBuilder
  import opened Compactions
  import opened StoreState

  datatype Step =
    | WriteLog(ops: seq<Op>)
    | ApplyNext
    | Publish
    | SwitchMemTable
    | FlushMemTable(level: nat, size: nat)
    | Compact(level: nat, in0: seq<FileMeta>, in1: seq<FileMeta>, outs: seq<Output>)
    | TrivialMove(level: nat, file: FileMeta)
    | TakeSnapshot
    | ReleaseSnapshot(index: nat)
    | PinVersion
    | UnpinVersion(index: nat)
    | DeleteTable(number: nat)
    | DeleteLog(index: nat)
    | DeleteManifest(number: nat)
    | StrayTable(number: nat, entries: seq<Entry>)
    | StrayLog(number: nat)
    | StrayManifest(number: nat, edits: seq<Edit>)
    | Crash(torn: bool)
    | Recover(outs: seq<Output>, newLog: nat)

  /** A fresh database as `NewDB` leaves it: one MANIFEST record, nothing else. */
  ghost predicate Init(s: Store) {
    && s.hist == [] && s.flushed == 0 && s.switched == 0 && s.ram == None
    && s.disk == Disk(map[], [], map[1 := [FullEdit(0, 2, 0, {}, [])]], 1)
  }

  function Manifest(d: Disk): seq<Edit> {
    if d.current in d.manifests then d.manifests[d.current] else []
  }

  ghost predicate LiveNumber(v: Levels, n: nat) {
    exists l, f :: 0 <= l < |v| && f in v[l] && f.number == n
  }

  /** Appends a record to the MANIFEST and installs the version it describes. */
  function LogAndApply(d: Disk, r: Ram, e: Edit): (Disk, Ram)
    requires |r.version| == NUM_LEVELS && e.nextFile.Some? && e.logNumber.Some?
  {
    (d.(manifests := d.manifests[d.current := Manifest(d) + [e]]),
     r.(version := Install(r.version, e), nextFile := e.nextFile.value, logNumber := e.logNumber.value))
  }

  // ---- writes ----

  /** Appends a batch to the last log, which is the current one. */
  function AppendRecord(logs: seq<Log>, b: Batch): seq<Log>
    requires logs != []
  {
    var n := |logs| - 1;
    logs[n := Log(logs[n].number, logs[n].records + [b])]
  }

  ghost predicate WriteLogStep(s: Store, s': Store, ops: seq<Op>) {
    && s.ram.Some? && s.ram.value.inflight == None && s.disk.logs != []
    && s.ram.value.last + |ops| < MAX_SEQUENCE
    && var b := Batch(s.ram.value.last + 1, ops);
       s' == s.(hist := s.hist + ops,
                disk := s.disk.(logs := AppendRecord(s.disk.logs, b)),
                ram := Some(s.ram.value.(inflight := Some(b), done := 0)))
  }

  ghost predicate ApplyNextStep(s: Store, s': Store) {
    && s.ram.Some? && s.ram.value.inflight.Some? && s.ram.value.done < |s.ram.value.inflight.value.ops|
    && var r := s.ram.value;
       var b := r.inflight.value;
       s' == s.(ram := Some(r.(mem := InsertEntry(r.mem, EntryOf(b.ops[r.done], b.first + r.done)),
                               done := r.done + 1)))
  }

  ghost predicate PublishStep(s: Store, s': Store) {
    && s.ram.Some? && s.ram.value.inflight.Some? && s.ram.value.done == |s.ram.value.inflight.value.ops|
    && s' == s.(ram := Some(s.ram.value.(inflight := None, done := 0, last := s.ram.value.last + s.ram.value.done)))
  }

  ghost predicate SwitchMemTableStep(s: Store, s': Store) {
    && s.ram.Some? && s.ram.value.inflight == None && s.ram.value.imm == None
    && var r := s.ram.value;
       s' == s.(switched := |s.hist|,
                disk := s.disk.(logs := s.disk.logs + [Log(r.nextFile, [])]),
                ram := Some(r.(mem := [], imm := Some(r.mem), logfileNumber := r.nextFile, nextFile := r.nextFile + 1)))
  }

  // ---- flush, compaction, trivial move ----

  function TableMeta(number: nat, size: nat, entries: seq<Entry>): FileMeta
    requires entries != []
  {
    FileMeta(number, size, entries[0].key, entries[|entries| - 1].key)
  }

  ghost predicate FlushMemTableStep(s: Store, s': Store, level: nat, size: nat) {
    && s.ram.Some? && s.ram.value.imm.Some? && |s.ram.value.version| == NUM_LEVELS
    && var r := s.ram.value;
       var imm := r.imm.value;
       if imm == [] then
         // the empty table file is removed again and not recorded
         var (d', r') := LogAndApply(s.disk, r, FullEdit(r.logfileNumber, r.nextFile + 1, r.last, {}, []));
         s' == s.(flushed := s.switched, disk := d', ram := Some(r'.(imm := None)))
       else
         var f := TableMeta(r.nextFile, size, imm);
         && level <= MAX_MEM_COMPACT_LEVEL
         && (level == 0 || NoOverlapUpTo(r.version, level, f.smallest.user, f.largest.user))
         && var (d', r') := LogAndApply(s.disk.(tables := s.disk.tables[r.nextFile := imm]), r,
                              FullEdit(r.logfileNumber, r.nextFile + 1, r.last, {}, [(level, f)]));
            s' == s.(flushed := s.switched, disk := d', ram := Some(r'.(imm := None)))
  }

  /** The hypothesis of every theorem about dropped markers: no level+1 file left out of the
      inputs shares a user key with a level+1 input. */
  ghost predicate NoSharedBoundary(v: Levels, level: nat, in1: seq<FileMeta>)
    requires level + 1 < |v|
  {
    forall h, g :: h in v[level + 1] && h !in in1 && g in in1 ==> !UserOverlap(h, g)
  }

  function DeletionsOf(level: nat, files: seq<FileMeta>): set<(nat, nat)> {
    set f | f in files :: (level, f.number)
  }

  function AddAll(level: nat, outs: seq<Output>): seq<(nat, FileMeta)> {
    seq(|outs|, i requires 0 <= i < |outs| => (level, outs[i].meta))
  }

  function WriteTables(t: Tables, outs: seq<Output>): Tables {
    if outs == [] then t
    else WriteTables(t, outs[..|outs| - 1])[outs[|outs| - 1].meta.number := outs[|outs| - 1].entries]
  }

  ghost predicate CompactStep(s: Store, s': Store, level: nat, in0: seq<FileMeta>, in1: seq<FileMeta>,
                              outs: seq<Output>) {
    && s.ram.Some? && |s.ram.value.version| == NUM_LEVELS && level + 1 < NUM_LEVELS
    && var r := s.ram.value;
       var input := MergeInputs(s.disk.tables, in0 + in1);
       && ValidInputs(r.version, level, in0, in1) && NoSharedBoundary(r.version, level, in1)
       && GoodOutputs(outs, r.nextFile)
       && Flatten(outs) == Kept(input, |input|, SmallestSnapshot(r), r.version, level)
       && var e := FullEdit(r.logNumber, r.nextFile + |outs|, r.last,
                            DeletionsOf(level, in0) + DeletionsOf(level + 1, in1), AddAll(level + 1, outs));
          var (d', r') := LogAndApply(s.disk.(tables := WriteTables(s.disk.tables, outs)), r, e);
          s' == s.(disk := d', ram := Some(r'))
  }

  ghost predicate TrivialMoveStep(s: Store, s': Store, level: nat, f: FileMeta) {
    && s.ram.Some? && |s.ram.value.version| == NUM_LEVELS && level + 1 < NUM_LEVELS
    && var r := s.ram.value;
       && ValidInputs(r.version, level, [f], [])
       && var e := FullEdit(r.logNumber, r.nextFile, r.last, {(level, f.number)}, [(level + 1, f)]);
          var (d', r') := LogAndApply(s.disk, r, e);
          s' == s.(disk := d', ram := Some(r'))
  }

  // ---- snapshots ----

  ghost predicate TakeSnapshotStep(s: Store, s': Store) {
    && s.ram.Some?
    && s' == s.(ram := Some(s.ram.value.(snapshots := s.ram.value.snapshots + [s.ram.value.last])))
  }

  ghost predicate ReleaseSnapshotStep(s: Store, s': Store, i: nat) {
    && s.ram.Some? && i < |s.ram.value.snapshots|
    && var sn := s.ram.value.snapshots;
       s' == s.(ram := Some(s.ram.value.(snapshots := sn[..i] + sn[i + 1..])))
  }

  // ---- versions held by iterators ----

  /** A new iterator takes a reference to the current version. */
  ghost predicate PinVersionStep(s: Store, s': Store) {
    && s.ram.Some?
    && s' == s.(ram := Some(s.ram.value.(pinned := s.ram.value.pinned + [s.ram.value.version])))
  }

  ghost predicate UnpinVersionStep(s: Store, s': Store, i: nat) {
    && s.ram.Some? && i < |s.ram.value.pinned|
    && var vs := s.ram.value.pinned;
       s' == s.(ram := Some(s.ram.value.(pinned := vs[..i] + vs[i + 1..])))
  }

  ghost predicate PinnedNumber(r: Ram, n: nat) {
    exists i :: 0 <= i < |r.pinned| && LiveNumber(r.pinned[i], n)
  }

  // ---- obsolete and stray files ----

  /** Deleting one obsolete file, by the rules of `DeleteObsoleteFiles`. */
  ghost predicate DeleteTableStep(s: Store, s': Store, n: nat) {
    && s.ram.Some? && !LiveNumber(s.ram.value.version, n) && !PinnedNumber(s.ram.value, n)
    && s' == s.(disk := s.disk.(tables := s.disk.tables - {n}))
  }

  ghost predicate DeleteLogStep(s: Store, s': Store, i: nat) {
    && s.ram.Some? && i < |s.disk.logs| && s.disk.logs[i].number < s.ram.value.logNumber
    && s' == s.(disk := s.disk.(logs := s.disk.logs[..i] + s.disk.logs[i + 1..]))
  }

  ghost predicate DeleteManifestStep(s: Store, s': Store, n: nat) {
    && s.ram.Some? && n < s.ram.value.manifestNumber
    && s' == s.(disk := s.disk.(manifests := s.disk.manifests - {n}))
  }

  /** A table file that no version names: output of a flush, compaction or recovery that did
      not get as far as its MANIFEST record. */
  ghost predicate StrayTableStep(s: Store, s': Store, n: nat, entries: seq<Entry>) {
    && !LiveNumber(Replay(Manifest(s.disk)), n) && (s.ram.Some? ==> !PinnedNumber(s.ram.value, n))
    && s' == s.(disk := s.disk.(tables := s.disk.tables[n := entries]))
  }

  /** A recovery that created its new log but crashed before its MANIFEST record. */
  ghost predicate StrayLogStep(s: Store, s': Store, n: nat) {
    && s.ram == None && (forall i :: 0 <= i < |s.disk.logs| ==> s.disk.logs[i].number < n)
    && s' == s.(disk := s.disk.(logs := s.disk.logs + [Log(n, [])]))
  }

  /** A recovery that wrote some of its new MANIFEST but crashed before `CURRENT` named it. */
  ghost predicate StrayManifestStep(s: Store, s': Store, n: nat, edits: seq<Edit>) {
    && s.ram == None && n != s.disk.current
    && s' == s.(disk := s.disk.(manifests := s.disk.manifests[n := edits]))
  }

  // ---- crash and recovery ----

  /** Memory is lost; the record of the group in flight is either whole or torn, and a torn
      record reads as absent. */
  ghost predicate CrashStep(s: Store, s': Store, torn: bool) {
    && s.ram.Some?
    && if torn then
         var r := s.ram.value;
         var n := |s.disk.logs| - 1;
         && r.inflight.Some? && s.disk.logs != [] && s.disk.logs[n].records != [] && |r.inflight.value.ops| <= |s.hist|
         && var records := s.disk.logs[n].records;
            s' == s.(hist := s.hist[..|s.hist| - |r.inflight.value.ops|], ram := None,
                     disk := s.disk.(logs := s.disk.logs[n := Log(s.disk.logs[n].number, records[..|records| - 1])]))
       else
         s' == s.(ram := None)
  }

  /** Largest sequence number of any operation in the records, or 0. */
  function MaxSequence(records: seq<Batch>): nat {
    if records == [] then 0
    else
      var r := records[|records| - 1];
      var lastSeq := if r.first + |r.ops| >= 1 then r.first + |r.ops| - 1 else 0;
      if lastSeq > MaxSequence(records[..|records| - 1]) then lastSeq else MaxSequence(records[..|records| - 1])
  }

  /** Tables written while the records are replayed: each holds the memtable of a run of
      consecutive records, in order, under rising numbers from `first` on.  Where a memtable
      is cut off is left open; an empty memtable leaves no table. */
  ghost predicate RecoveredTables(records: seq<Batch>, first: nat, outs: seq<Output>) {
    if outs == [] then MemOf(records) == []
    else
      var o, init := outs[|outs| - 1], outs[..|outs| - 1];
      && GoodOutput(o) && o.meta.number >= first
      && (forall i :: 0 <= i < |init| ==> init[i].meta.number < o.meta.number)
      && exists cut ::
         0 <= cut <= |records| && o.entries == MemOf(records[cut..]) && RecoveredTables(records[..cut], first, init)
  }

  /** Replays the MANIFEST and the logs it still needs, writes what the logs hold as level-0
      tables, and starts a new MANIFEST and a new log. */
  ghost predicate RecoverStep(s: Store, s': Store, outs: seq<Output>, newLog: nat) {
    && s.ram == None
    && var edits := Manifest(s.disk);
       && LatestLogNumber(edits).Some? && LatestNextFile(edits).Some? && LatestSequence(edits).Some?
       && var v := Replay(edits);
          var manifestNumber := LatestNextFile(edits).value;
          var records := LiveRecords(s.disk.logs, LatestLogNumber(edits).value);
          && (forall l, f :: 0 <= l < |v| && f in v[l] ==> f.number in s.disk.tables) // else "missing files"
          && RecoveredTables(records, manifestNumber + 1, outs)
          && newLog > manifestNumber
          && (forall i :: 0 <= i < |outs| ==> outs[i].meta.number < newLog)
          && (forall i :: 0 <= i < |s.disk.logs| ==> s.disk.logs[i].number < newLog)
          && var last := if LatestSequence(edits).value < MaxSequence(records) then MaxSequence(records)
             else LatestSequence(edits).value;
             var e := FullEdit(newLog, newLog + 1, last, {}, AddAll(0, outs));
             var v' := Install(v, e);
             s' == Store(s.hist, |s.hist|, |s.hist|,
                     Disk(WriteTables(s.disk.tables, outs), s.disk.logs + [Log(newLog, [])],
                          s.disk.manifests[manifestNumber := [SnapshotRecord(v), e]], manifestNumber),
                     Some(OpenedRam(v', last, newLog, manifestNumber)))
  }

  function TagLevel(level: nat, files: seq<FileMeta>): seq<(nat, FileMeta)> {
    if files == [] then [] else TagLevel(level, files[..|files| - 1]) + [(level, files[|files| - 1])]
  }

  function TagLevels(v: Levels, n: nat): seq<(nat, FileMeta)>
    requires n <= |v|
  {
    if n == 0 then [] else TagLevels(v, n - 1) + TagLevel(n - 1, v[n - 1])
  }

  /** First record of a new MANIFEST (`WriteSnapshot`): all files of the version. */
  function SnapshotRecord(v: Levels): Edit {
    Edit(None, None, None, {}, TagLevels(v, |v|))
  }

  // ---- runs ----

  ghost predicate NextStep(s: Store, s': Store, step: Step) {
    match step
    case WriteLog(ops) => WriteLogStep(s, s', ops)
    case ApplyNext => ApplyNextStep(s, s')
    case Publish => PublishStep(s, s')
    case SwitchMemTable => SwitchMemTableStep(s, s')
    case FlushMemTable(level, size) => FlushMemTableStep(s, s', level, size)
    case Compact(level, in0, in1, outs) => CompactStep(s, s', level, in0, in1, outs)
    case TrivialMove(level, file) => TrivialMoveStep(s, s', level, file)
    case TakeSnapshot => TakeSnapshotStep(s, s')
    case ReleaseSnapshot(index) => ReleaseSnapshotStep(s, s', index)
    case PinVersion => PinVersionStep(s, s')
    case UnpinVersion(index) => UnpinVersionStep(s, s', index)
    case DeleteTable(number) => DeleteTableStep(s, s', number)
    case DeleteLog(index) => DeleteLogStep(s, s', index)
    case DeleteManifest(number) => DeleteManifestStep(s, s', number)
    case StrayTable(number, entries) => StrayTableStep(s, s', number, entries)
    case StrayLog(number) => StrayLogStep(s, s', number)
    case StrayManifest(number, edits) => StrayManifestStep(s, s', number, edits)
    case Crash(torn) => CrashStep(s, s', torn)
    case Recover(outs, newLog) => RecoverStep(s, s', outs, newLog)
  }

  /** A run from a fresh database. */
  ghost predicate Run(states: seq<Store>, steps: seq<Step>) {
    && |states| == |steps| + 1
    && Init(states[0])
    && forall i :: 0 <= i < |steps| ==> NextStep(states[i], states[i + 1], steps[i])
  }
}
