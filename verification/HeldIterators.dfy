/** Iterators held while the store goes on working (db/db_impl.cc `NewInternalIterator`,
    db/version_set.cc `AddLiveFiles`): the version an iterator refers to keeps its tables, its
    memtable only gains newer entries, and the iterator shows the same history for as long as it
    is held, whatever compactions drop in the meantime. */
module HeldIterators {
  import opened InternalKeys
  import opened VersionReads
  import opened CompactionInputs
  import opened VersionBuilder
  import opened Compactions
  import opened Views
  import opened LevelShape
  import opened StoreState
  import opened StoreSteps
  import opened StoreInvariant
  import opened StoreVersionSteps
  import opened StoreRecovery
  import opened StoreTheorems
  import opened StoreIteration
  import opened DbIterators

  // ---- pinned versions keep their tables ----

  /** The tables of the version are on disk, under numbers already given out. */
  ghost predicate OnDisk(t: Tables, v: Levels, nextFile: nat) {
    forall n: nat :: LiveNumber(v, n) ==> n in t && n < nextFile
  }

  ghost predicate PinsOk(s: Store) {
    s.ram.Some? ==> forall i :: 0 <= i < |s.ram.value.pinned| ==>
      OnDisk(s.disk.tables, s.ram.value.pinned[i], s.ram.value.nextFile)
  }

  /** No table of the version goes away or changes. */
  ghost predicate TablesStay(t: Tables, v: Levels, t': Tables) {
    forall n: nat :: LiveNumber(v, n) && n in t ==> n in t' && t'[n] == t[n]
  }

  /** The step keeps the tables of every pinned version. */
  ghost predicate PinsKept(s: Store, s': Store)
    requires s.ram.Some?
  {
    && s'.ram.Some? && s'.ram.value.pinned == s.ram.value.pinned && s.ram.value.nextFile <= s'.ram.value.nextFile
    && forall i :: 0 <= i < |s.ram.value.pinned| ==> TablesStay(s.disk.tables, s.ram.value.pinned[i], s'.disk.tables)
  }

  lemma KeptPinsOk(s: Store, s': Store)
    requires PinsOk(s) && s.ram.Some? && PinsKept(s, s')
    ensures PinsOk(s')
  {
    hide LiveNumber;
    forall i | 0 <= i < |s'.ram.value.pinned|
      ensures OnDisk(s'.disk.tables, s'.ram.value.pinned[i], s'.ram.value.nextFile)
    {
      assert OnDisk(s.disk.tables, s.ram.value.pinned[i], s.ram.value.nextFile);
    }
  }

  lemma NewTablesKeep(t: Tables, v: Levels, nextFile: nat, outs: seq<Output>)
    requires OnDisk(t, v, nextFile) && GoodOutputs(outs, nextFile)
    ensures TablesStay(t, v, WriteTables(t, outs))
  {
    hide LiveNumber;
    WriteTablesData(t, outs);
  }

  lemma FlushPins(s: Store, s': Store, level: nat, size: nat)
    requires PinsOk(s) && FlushMemTableStep(s, s', level, size)
    ensures s.ram.Some? && PinsKept(s, s')
  {
    hide LiveNumber, Install, NoOverlapUpTo, TableMeta;
  }

  lemma CompactPins(s: Store, s': Store, level: nat, in0: seq<FileMeta>, in1: seq<FileMeta>, outs: seq<Output>)
    requires PinsOk(s) && CompactStep(s, s', level, in0, in1, outs)
    ensures s.ram.Some? && PinsKept(s, s')
  {
    hide LiveNumber, Install, ValidInputs, NoSharedBoundary, Kept, Flatten, MergeInputs, WriteTables,
      GoodOutputs;
    var r := s.ram.value;
    forall i | 0 <= i < |r.pinned| ensures TablesStay(s.disk.tables, r.pinned[i], s'.disk.tables) {
      NewTablesKeep(s.disk.tables, r.pinned[i], r.nextFile, outs);
    }
  }

  lemma MovePins(s: Store, s': Store, level: nat, f: FileMeta)
    requires TrivialMoveStep(s, s', level, f)
    ensures s.ram.Some? && PinsKept(s, s')
  {
    hide LiveNumber, Install, ValidInputs;
  }

  /** The tables of the current version are on disk under numbers already given out. */
  lemma VersionOnDisk(s: Store)
    requires Inv(s) && s.ram.Some?
    ensures OnDisk(s.disk.tables, s.ram.value.version, s.ram.value.nextFile)
  {
    hide ManifestOk, LogsOk, LogSplit, MemoryOk, InflightOk, Covered, VersionInv, Replay;
    var v := s.ram.value.version;
    forall n: nat | LiveNumber(v, n) ensures n in s.disk.tables && n < s.ram.value.nextFile {
      var l, f: FileMeta :| 0 <= l < |v| && f in v[l] && f.number == n;
      FileIn(s.disk.tables, v, l, f);
      LiveNumbersBelow(Manifest(s.disk), s.disk.current, l, f);
    }
  }

  /** Other steps of a running store change no table that a pinned version names. */
  lemma OtherPins(s: Store, s': Store, step: Step)
    requires s.ram.Some? && NextStep(s, s', step)
    requires !step.FlushMemTable? && !step.Compact? && !step.TrivialMove? && !step.PinVersion? && !step.UnpinVersion?
    requires !step.Crash?
    ensures PinsKept(s, s')
  {
    hide LiveNumber, Install, FlushMemTableStep, CompactStep, TrivialMoveStep;
  }

  lemma PinPins(s: Store, s': Store)
    requires Inv(s) && PinsOk(s) && PinVersionStep(s, s')
    ensures PinsOk(s')
  {
    hide Inv, LiveNumber;
    VersionOnDisk(s);
  }

  lemma UnpinPins(s: Store, s': Store, i: nat)
    requires PinsOk(s) && UnpinVersionStep(s, s', i)
    ensures PinsOk(s')
  {
    hide LiveNumber;
  }

  lemma NextPins(s: Store, s': Store, step: Step)
    requires Inv(s) && PinsOk(s) && NextStep(s, s', step)
    ensures PinsOk(s')
  {
    hide Inv, PinsOk, PinsKept, FlushMemTableStep, CompactStep, TrivialMoveStep, PinVersionStep, UnpinVersionStep,
      RecoverStep;
    if s.ram.None? {
      NoPins(s, s', step);
      return;
    }
    match step
    case FlushMemTable(level, size) => FlushPins(s, s', level, size); KeptPinsOk(s, s');
    case Compact(level, in0, in1, outs) => CompactPins(s, s', level, in0, in1, outs); KeptPinsOk(s, s');
    case TrivialMove(level, file) => MovePins(s, s', level, file); KeptPinsOk(s, s');
    case PinVersion => PinPins(s, s');
    case UnpinVersion(index) => UnpinPins(s, s', index);
    case Crash(torn) => NotRunning(s');
    case _ => OtherPins(s, s', step); KeptPinsOk(s, s');
  }

  lemma NotRunning(s: Store)
    requires s.ram == None
    ensures PinsOk(s)
  {
  }

  /** A recovered store has no iterators. */
  lemma NoPins(s: Store, s': Store, step: Step)
    requires s.ram == None && NextStep(s, s', step)
    ensures PinsOk(s')
  {
    hide Install, Replay, RecoveredTables, LiveRecords, WriteTables, FlushMemTableStep, CompactStep, TrivialMoveStep;
    match step
    case FlushMemTable(level, size) => NoFlushWhenDown(s, s', level, size);
    case Compact(level, in0, in1, outs) => NoCompactWhenDown(s, s', level, in0, in1, outs);
    case TrivialMove(level, file) => NoMoveWhenDown(s, s', level, file);
    case _ =>
  }

  lemma {:induction false} RunPins(states: seq<Store>, steps: seq<Step>, n: nat)
    requires Run(states, steps) && n < |states|
    ensures Inv(states[n]) && PinsOk(states[n])
  {
    hide Inv, PinsOk, Init, NextStep;
    RunInv(states, steps, n);
    if n == 0 {
      InitPins(states[0]);
    } else {
      RunPins(states, steps, n - 1);
      NextPins(states[n - 1], states[n], steps[n - 1]);
    }
  }

  lemma InitPins(s: Store)
    requires Init(s)
    ensures PinsOk(s)
  {
  }

  // ---- a version from when it is pinned until it is let go ----

  lemma StepKeepsTables(s: Store, s': Store, step: Step, v: Levels)
    requires Inv(s) && PinsOk(s) && NextStep(s, s', step)
    requires s.ram.Some? && s'.ram.Some? && v in s.ram.value.pinned
    ensures TablesStay(s.disk.tables, v, s'.disk.tables)
  {
    hide Inv, PinsOk, FlushMemTableStep, CompactStep, TrivialMoveStep, RecoverStep, LiveNumber;
    match step
    case FlushMemTable(level, size) => FlushPins(s, s', level, size);
    case Compact(level, in0, in1, outs) => CompactPins(s, s', level, in0, in1, outs);
    case TrivialMove(level, file) => MovePins(s, s', level, file);
    case PinVersion =>
    case UnpinVersion(index) =>
    case Crash(torn) => assert false;
    case _ => OtherPins(s, s', step);
  }

  /** The store runs and the version stays pinned from state `i` to state `j`. */
  ghost predicate Holding(states: seq<Store>, i: nat, j: nat, v: Levels)
    requires i <= j < |states|
  {
    forall k :: i <= k <= j ==> states[k].ram.Some? && v in states[k].ram.value.pinned
  }

  /** Every table of a version stays on disk unchanged for as long as the version is pinned. */
  lemma {:induction false} HeldTables(states: seq<Store>, steps: seq<Step>, i: nat, j: nat, v: Levels)
    requires Run(states, steps) && i <= j < |states| && Holding(states, i, j, v)
    ensures TablesStay(states[i].disk.tables, v, states[j].disk.tables)
    ensures OnDisk(states[i].disk.tables, v, states[i].ram.value.nextFile)
    decreases j
  {
    hide Inv, Init, NextStep, LiveNumber, PinsOk;
    RunPins(states, steps, i);
    PinnedOnDisk(states[i], v);
    if i < j {
      HeldTables(states, steps, i, j - 1, v);
      RunPins(states, steps, j - 1);
      PinnedOnDisk(states[j - 1], v);
      StepKeepsTables(states[j - 1], states[j], steps[j - 1], v);
    }
  }

  lemma PinnedOnDisk(s: Store, v: Levels)
    requires PinsOk(s) && s.ram.Some? && v in s.ram.value.pinned
    ensures OnDisk(s.disk.tables, v, s.ram.value.nextFile)
  {
    hide LiveNumber, OnDisk;
    var i :| 0 <= i < |s.ram.value.pinned| && s.ram.value.pinned[i] == v;
  }

  lemma SameEntries(t: Tables, v: Levels, t': Tables, nextFile: nat)
    requires OnDisk(t, v, nextFile) && TablesStay(t, v, t')
    ensures VersionEntries(t', v) == VersionEntries(t, v)
  {
    forall l, f | 0 <= l < |v| && f in v[l] ensures Data(t', f) == Data(t, f) {
      assert LiveNumber(v, f.number);
    }
  }

  // ---- the memtable under an iterator ----

  lemma StepGrows(s: Store, s': Store, step: Step, mem: seq<Entry>, last: nat)
    requires Inv(s') && NextStep(s, s', step) && s.ram.Some? && s'.ram.Some? && !step.SwitchMemTable?
    requires Grown(mem, s.ram.value.mem, last) && last <= s.ram.value.last
    requires s.ram.value.inflight.Some? ==> s.ram.value.inflight.value.first == s.ram.value.last + 1
    ensures Grown(mem, s'.ram.value.mem, last) && last <= s'.ram.value.last
  {
    hide Inv, InsertEntry, Sorted, FlushMemTableStep, CompactStep, TrivialMoveStep, RecoverStep;
    MemSorted(s');
    match step
    case FlushMemTable(level, size) => FlushKeepsMem(s, s', level, size);
    case Compact(level, in0, in1, outs) => CompactKeepsMem(s, s', level, in0, in1, outs);
    case TrivialMove(level, file) => MoveKeepsMem(s, s', level, file);
    case ApplyNext =>
      var r := s.ram.value;
      InsertEntryMembers(r.mem, EntryOf(r.inflight.value.ops[r.done], r.inflight.value.first + r.done));
    case Recover(outs, newLog) => RecoverKeepsHistory(s, s', outs, newLog);
    case _ =>
  }

  lemma MemSorted(s: Store)
    requires Inv(s) && s.ram.Some?
    ensures Sorted(s.ram.value.mem)
    ensures s.ram.value.inflight.Some? ==> s.ram.value.inflight.value.first == s.ram.value.last + 1
  {
    hide DiskInv, LogSplit, CountersOk, SnapshotsOk, Sorted;
  }

  lemma FlushKeepsMem(s: Store, s': Store, level: nat, size: nat)
    requires FlushMemTableStep(s, s', level, size) && s.ram.Some? && s'.ram.Some?
    ensures s'.ram.value.mem == s.ram.value.mem && s'.ram.value.last == s.ram.value.last
  {
    hide Install, TableMeta, NoOverlapUpTo;
  }

  lemma CompactKeepsMem(s: Store, s': Store, level: nat, in0: seq<FileMeta>, in1: seq<FileMeta>, outs: seq<Output>)
    requires CompactStep(s, s', level, in0, in1, outs) && s.ram.Some? && s'.ram.Some?
    ensures s'.ram.value.mem == s.ram.value.mem && s'.ram.value.last == s.ram.value.last
  {
    hide Install, ValidInputs, NoSharedBoundary, Kept, Flatten, MergeInputs, WriteTables, GoodOutputs;
  }

  lemma MoveKeepsMem(s: Store, s': Store, level: nat, f: FileMeta)
    requires TrivialMoveStep(s, s', level, f) && s.ram.Some? && s'.ram.Some?
    ensures s'.ram.value.mem == s.ram.value.mem && s'.ram.value.last == s.ram.value.last
  {
    hide Install, ValidInputs;
  }

  /** Until the memtable is switched it only gains entries newer than those published when the
      iterator was made. */
  lemma {:induction false} MemGrows(states: seq<Store>, steps: seq<Step>, i: nat, j: nat)
    requires Run(states, steps) && i <= j < |states|
    requires forall k :: i <= k <= j ==> states[k].ram.Some?
    requires forall k :: i <= k < j ==> !steps[k].SwitchMemTable?
    ensures Grown(states[i].ram.value.mem, states[j].ram.value.mem, states[i].ram.value.last)
    ensures states[i].ram.value.last <= states[j].ram.value.last
    decreases j
  {
    hide Inv, Init, NextStep, Sorted;
    RunInv(states, steps, j);
    MemSorted(states[j]);
    if i < j {
      MemGrows(states, steps, i, j - 1);
      RunInv(states, steps, j - 1);
      MemSorted(states[j - 1]);
      StepGrows(states[j - 1], states[j], steps[j - 1], states[i].ram.value.mem, states[i].ram.value.last);
    }
  }

  /** The memtable in each state after `i` up to `j`. */
  ghost function MemsOf(states: seq<Store>, i: nat, j: nat): seq<seq<Entry>>
    requires i <= j < |states| && forall k :: i <= k <= j ==> states[k].ram.Some?
    decreases j - i
  {
    if i == j then [] else [states[i + 1].ram.value.mem] + MemsOf(states, i + 1, j)
  }

  /** A run without a switch is what a scan in `StoreIteration` allows under its iterator. */
  lemma {:induction false} RunGrows(states: seq<Store>, steps: seq<Step>, i: nat, j: nat)
    requires Run(states, steps) && i <= j < |states|
    requires forall k :: i <= k <= j ==> states[k].ram.Some?
    requires forall k :: i <= k < j ==> !steps[k].SwitchMemTable?
    ensures Growing(states[i].ram.value.mem, MemsOf(states, i, j), states[i].ram.value.last)
    decreases j - i
  {
    hide Run, Grown;
    if i < j {
      MemGrows(states, steps, i, i + 1);
      RunGrows(states, steps, i + 1, j);
      GrowingSince(states[i + 1].ram.value.mem, MemsOf(states, i + 1, j), states[i + 1].ram.value.last,
                   states[i].ram.value.last);
    }
  }

  lemma {:induction false} GrowingSince(mem: seq<Entry>, lists: seq<seq<Entry>>, last: nat, before: nat)
    requires Growing(mem, lists, last) && before <= last
    ensures Growing(mem, lists, before)
    decreases lists
  {
    hide Sorted;
    if lists != [] { GrowingSince(lists[0], lists[1..], last, before); }
  }

  // ---- what a held iterator shows ----

  /** An iterator made in state `i` at a snapshot readable then, and still held in state `j`:
      over the memtables it was made with and the tables its version has now, it shows the
      history up to the snapshot, even if the snapshot is no longer one that compactions keep. */
  lemma HeldIteratorShowsHistory(states: seq<Store>, steps: seq<Step>, i: nat, j: nat, later: seq<Entry>,
                                 entries: seq<Entry>, at: nat, user: UserKey, value: string)
    requires Run(states, steps) && i <= j < |states| && states[i].ram.Some?
    requires Holding(states, i, j, states[i].ram.value.version) && Readable(states[i].ram.value, at)
    requires Grown(states[i].ram.value.mem, later, states[i].ram.value.last) && Sorted(entries)
    requires forall e :: e in entries <==>
               e in later || (states[i].ram.value.imm.Some? && e in states[i].ram.value.imm.value) ||
               e in VersionEntries(states[j].disk.tables, states[i].ram.value.version)
    ensures at <= |states[i].hist| && at <= |states[j].hist|
    ensures (exists k: nat :: Shown(entries, at, k) && entries[k].key.user == user && entries[k].value == value) <==>
            Read(states[i].hist, user, at) == Some(value)
    ensures Read(states[j].hist, user, at) == Read(states[i].hist, user, at)
  {
    hide Inv, Init, NextStep, Shown, Read, Readable, Grown, VersionEntries, LiveNumber, Acknowledged;
    var s, v := states[i], states[i].ram.value.version;
    HeldTables(states, steps, i, j, v);
    SameEntries(s.disk.tables, v, states[j].disk.tables, s.ram.value.nextFile);
    assert states[i] in states;
    IterationShowsHistory(s, later, entries, at, user, value);
    SameReads(states, steps, i, j, user, at);
  }

  lemma SameReads(states: seq<Store>, steps: seq<Step>, i: nat, j: nat, user: UserKey, at: nat)
    requires Run(states, steps) && i <= j < |states| && states[i].ram.Some? && states[j].ram.Some?
    requires Readable(states[i].ram.value, at)
    ensures at <= |states[i].hist| && at <= |states[j].hist|
    ensures Read(states[j].hist, user, at) == Read(states[i].hist, user, at)
  {
    hide Inv, Init, NextStep, Read, Readable, Acknowledged;
    RunInv(states, steps, i);
    RunInv(states, steps, j);
    ReadableInRange(states[i], at);
    AckInRange(states[i]);
    AckInRange(states[j]);
    AcknowledgedIsDurable(states, steps, i, j);
    ReadPrefix(Acknowledged(states[i]), states[i].hist, user, at);
    ReadPrefix(Acknowledged(states[j]), states[j].hist, user, at);
  }
}
