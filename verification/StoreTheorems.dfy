/** What the store promises, over every run from a fresh database. */
module StoreTheorems {
  import opened InternalKeys
  import opened VersionReads
  import opened CompactionInputs
  import opened VersionBuilder
  import opened Compactions
  import opened Views
  import opened LevelShape
  import opened StoreState
  import opened StoreSteps
  import opened StoreInvariant
  import opened StoreMemorySteps
  import opened StoreVersionSteps
  import opened StoreRecovery

  // ---- every reachable state satisfies the invariant ----

  lemma InitDisk(d: Disk)
    requires d == Disk(map[], [], map[1 := [FullEdit(0, 2, 0, {}, [])]], 1)
    ensures ManifestOk(Manifest(d), d.current)
    ensures Replay(Manifest(d)) == EMPTY_LEVELS
    ensures LatestLogNumber(Manifest(d)) == Some(0) && LatestSequence(Manifest(d)) == Some(0)
  {
    hide Replay;
    var edits := Manifest(d);
    assert edits == [FullEdit(0, 2, 0, {}, [])];
    LatestOfFull([], 0, 2, 0, {}, []);
    assert [] + edits == edits;
    forall level: nat, f ensures !EverAdded(edits, level, f) { }
    forall level | 0 <= level < NUM_LEVELS ensures NumbersOnce([], edits, level) && Replay(edits)[level] == [] {
      InitLevel(edits, level);
    }
    assert Replay(edits) == EMPTY_LEVELS;
  }

  lemma InitLevel(edits: seq<Edit>, level: nat)
    requires level < NUM_LEVELS && edits == [FullEdit(0, 2, 0, {}, [])]
    ensures NumbersOnce([], edits, level) && Replay(edits)[level] == []
  {
    hide Replay;
    assert NumbersOnce([], edits, level);
    ReplayMembers(edits, level);
    if Replay(edits)[level] != [] {
      EmptyAdds(edits, level, Replay(edits)[level][0]);
    }
  }

  lemma EmptyAdds(edits: seq<Edit>, level: nat, f: FileMeta)
    requires edits == [FullEdit(0, 2, 0, {}, [])]
    ensures !EverAdded(edits, level, f)
  {
  }

  lemma EmptyVersion(t: Tables, v: Levels)
    requires |v| == NUM_LEVELS && forall l :: 0 <= l < NUM_LEVELS ==> v[l] == []
    ensures VersionInv(t, v) && VersionEntries(t, v) == {}
  {
    hide GoodFile, NewerFile, Data;
  }

  lemma InitInv(s: Store)
    requires Init(s)
    ensures Inv(s)
  {
    hide Replay, ManifestOk, VersionInv, VersionEntries, LatestLogNumber, LatestSequence, LatestNextFile;
    InitDisk(s.disk);
    EmptyVersion(s.disk.tables, Replay(Manifest(s.disk)));
  }

  lemma NextInv(s: Store, s': Store, step: Step)
    requires Inv(s) && NextStep(s, s', step)
    ensures Inv(s')
  {
    hide Inv, WriteLogStep, ApplyNextStep, PublishStep, SwitchMemTableStep, FlushMemTableStep, CompactStep,
      TrivialMoveStep, TakeSnapshotStep, ReleaseSnapshotStep, PinVersionStep, UnpinVersionStep, DeleteTableStep,
      DeleteLogStep, DeleteManifestStep, StrayTableStep, StrayLogStep, StrayManifestStep, CrashStep, RecoverStep;
    match step
    case WriteLog(ops) => WriteLogInv(s, s', ops);
    case ApplyNext => ApplyNextInv(s, s');
    case Publish => PublishInv(s, s');
    case SwitchMemTable => SwitchMemTableInv(s, s');
    case FlushMemTable(level, size) => FlushMemTableInv(s, s', level, size);
    case Compact(level, in0, in1, outs) => CompactInv(s, s', level, in0, in1, outs);
    case TrivialMove(level, file) => TrivialMoveInv(s, s', level, file);
    case TakeSnapshot => TakeSnapshotInv(s, s');
    case ReleaseSnapshot(index) => ReleaseSnapshotInv(s, s', index);
    case PinVersion => PinVersionInv(s, s');
    case UnpinVersion(index) => UnpinVersionInv(s, s', index);
    case DeleteTable(number) => DeleteTableInv(s, s', number);
    case DeleteLog(index) => DeleteLogInv(s, s', index);
    case DeleteManifest(number) => DeleteManifestInv(s, s', number);
    case StrayTable(number, entries) => StrayTableInv(s, s', number, entries);
    case StrayLog(number) => StrayLogInv(s, s', number);
    case StrayManifest(number, edits) => StrayManifestInv(s, s', number, edits);
    case Crash(torn) => if torn { CrashTornInv(s, s'); } else { CrashWholeInv(s, s'); }
    case Recover(outs, newLog) => RecoverInv(s, s', outs, newLog);
  }

  lemma {:induction false} RunInv(states: seq<Store>, steps: seq<Step>, n: nat)
    requires Run(states, steps) && n < |states|
    ensures Inv(states[n])
  {
    hide Inv, Init, NextStep;
    if n == 0 {
      InitInv(states[0]);
    } else {
      RunInv(states, steps, n - 1);
      NextInv(states[n - 1], states[n], steps[n - 1]);
    }
  }

  /** `s` is a state of some run from a fresh database. */
  ghost predicate Reachable(s: Store) {
    exists states, steps :: Run(states, steps) && s in states
  }

  lemma ReachableInv(s: Store)
    requires Reachable(s)
    ensures Inv(s)
  {
    var states, steps :| Run(states, steps) && s in states;
    var n :| 0 <= n < |states| && states[n] == s;
    RunInv(states, steps, n);
  }

  /** One step further is still a state of some run. */
  lemma Reach(s: Store, s': Store, step: Step)
    requires Reachable(s) && NextStep(s, s', step)
    ensures Reachable(s')
  {
    hide NextStep, Init;
    var states, steps :| Run(states, steps) && s in states;
    var n :| 0 <= n < |states| && states[n] == s;
    var states', steps' := states[..n + 1] + [s'], steps[..n] + [step];
    forall i | 0 <= i < |steps'| ensures NextStep(states'[i], states'[i + 1], steps'[i]) {
      if i < n { assert NextStep(states[i], states[i + 1], steps[i]); }
    }
    assert Run(states', steps') && states'[n + 1] == s';
  }

  // ---- reads ----

  /** A snapshot a reader may use: a held one, or the last sequence number. */
  ghost predicate Readable(r: Ram, at: nat) {
    at == r.last || at in r.snapshots
  }

  /** The memtable as a reader meets it after writers have gone on inserting: what was there
      when the read began, and later operations. */
  ghost predicate Grown(mem: seq<Entry>, later: seq<Entry>, last: nat) {
    && Sorted(later)
    && (forall e :: e in mem ==> e in later)
    && (forall e :: e in later && e !in mem ==> e.key.sequence > last)
  }

  lemma ReadableRange(r: Ram, at: nat)
    requires SnapshotsOk(r) && Readable(r, at)
    ensures SmallestSnapshot(r) <= at <= r.last
  {
    SmallestInRange(r);
    if at in r.snapshots { var i :| 0 <= i < |r.snapshots| && r.snapshots[i] == at; }
  }

  /** A visible entry of a newer layer beats everything in the older ones. */
  lemma LayerAnswers(stored: set<Entry>, layer: seq<Entry>, floor: nat, user: UserKey, at: nat, n: Entry)
    requires NewestIn(layer, user, at, Some(n)) && n in stored && n.key.sequence > floor
    requires forall e :: e in stored && e.key.sequence > floor && Visible(e, user, at) ==> e in layer
    ensures NewestStored(stored, user, at, Some(n))
  {
    forall e | e in stored && Visible(e, user, at) ensures e.key.sequence <= n.key.sequence {
      if e.key.sequence > floor { assert e in layer; }
    }
  }

  /** What a reader may see of the operations after the last switch is in the memtable. */
  lemma RecentInMem(s: Store, later: seq<Entry>, user: UserKey, at: nat, e: Entry)
    requires Inv(s) && s.ram.Some? && Grown(s.ram.value.mem, later, s.ram.value.last) && at <= s.ram.value.last
    requires e in Stored(s.disk.tables, s.ram.value.version, s.hist, s.flushed)
    requires e.key.sequence > s.switched && Visible(e, user, at)
    ensures e in later
  {
    hide ManifestOk, LogsOk, LogSplit, InflightOk, Covered, VersionInv;
    assert EntryAt(s.hist, e.key.sequence) in s.ram.value.mem;
  }

  lemma MemAnswers(s: Store, later: seq<Entry>, user: UserKey, at: nat, n: Entry)
    requires Inv(s) && s.ram.Some? && Grown(s.ram.value.mem, later, s.ram.value.last) && at <= s.ram.value.last
    requires TableGet(later, user, at) == Some(n)
    ensures NewestStored(Stored(s.disk.tables, s.ram.value.version, s.hist, s.flushed), user, at, Some(n))
  {
    hide ManifestOk, LogsOk, LogSplit, InflightOk, Covered, VersionInv, TableGet;
    var r := s.ram.value;
    var stored := Stored(s.disk.tables, r.version, s.hist, s.flushed);
    TableGetIsNewest(later, user, at);
    assert n in r.mem;
    assert n in Tail(s.hist, s.flushed);
    forall e | e in stored && e.key.sequence > s.switched && Visible(e, user, at) ensures e in later {
      RecentInMem(s, later, user, at, e);
    }
    LayerAnswers(stored, later, s.switched, user, at, n);
  }

  lemma ImmAnswers(s: Store, later: seq<Entry>, user: UserKey, at: nat, n: Entry)
    requires Inv(s) && s.ram.Some? && Grown(s.ram.value.mem, later, s.ram.value.last) && at <= s.ram.value.last
    requires TableGet(later, user, at) == None
    requires s.ram.value.imm.Some? && TableGet(s.ram.value.imm.value, user, at) == Some(n)
    ensures NewestStored(Stored(s.disk.tables, s.ram.value.version, s.hist, s.flushed), user, at, Some(n))
  {
    hide ManifestOk, LogsOk, LogSplit, InflightOk, Covered, VersionInv, TableGet;
    var r := s.ram.value;
    var stored := Stored(s.disk.tables, r.version, s.hist, s.flushed);
    TableGetIsNewest(r.imm.value, user, at);
    assert n in Tail(s.hist, s.flushed);
    forall e | e in stored && Visible(e, user, at) ensures e.key.sequence <= s.switched {
      NotRecent(s, later, user, at, e);
    }
    LayerAnswers(stored, r.imm.value, s.flushed, user, at, n);
  }

  lemma NotRecent(s: Store, later: seq<Entry>, user: UserKey, at: nat, e: Entry)
    requires Inv(s) && s.ram.Some? && Grown(s.ram.value.mem, later, s.ram.value.last) && at <= s.ram.value.last
    requires TableGet(later, user, at) == None
    requires e in Stored(s.disk.tables, s.ram.value.version, s.hist, s.flushed) && Visible(e, user, at)
    ensures e.key.sequence <= s.switched
  {
    hide Inv, Stored, TableGet;
    TableGetIsNewest(later, user, at);
    if e.key.sequence > s.switched {
      RecentInMem(s, later, user, at, e);
    }
  }

  lemma VersionAnswers(s: Store, later: seq<Entry>, user: UserKey, at: nat, n: Option<Entry>)
    requires Inv(s) && s.ram.Some? && Grown(s.ram.value.mem, later, s.ram.value.last) && at <= s.ram.value.last
    requires TableGet(later, user, at) == None
    requires s.ram.value.imm.Some? ==> TableGet(s.ram.value.imm.value, user, at) == None
    requires |s.ram.value.version| == NUM_LEVELS && NewestInVersion(s.disk.tables, s.ram.value.version, user, at, n)
    ensures NewestStored(Stored(s.disk.tables, s.ram.value.version, s.hist, s.flushed), user, at, n)
  {
    hide ManifestOk, LogsOk, LogSplit, InflightOk, Covered, VersionInv, TableGet;
    var r := s.ram.value;
    var stored := Stored(s.disk.tables, r.version, s.hist, s.flushed);
    if r.imm.Some? { TableGetIsNewest(r.imm.value, user, at); }
    forall e | e in stored && Visible(e, user, at) ensures e in VersionEntries(s.disk.tables, r.version) {
      NotRecent(s, later, user, at, e);
    }
  }

  /** The layered lookup finds the newest stored entry, so it returns what the plain
      multi-version map returns. */
  lemma LookupAnswers(s: Store, user: UserKey, at: nat, n: Option<Entry>)
    requires Inv(s) && s.ram.Some? && Readable(s.ram.value, at)
    requires NewestStored(Stored(s.disk.tables, s.ram.value.version, s.hist, s.flushed), user, at, n)
    ensures at <= |s.hist| && Answer(n) == Read(s.hist, user, at)
  {
    hide ManifestOk, LogsOk, LogSplit, MemoryOk, Covered, VersionInv, NewestStored, Read, Answer, Stored;
    var r := s.ram.value;
    ReadableRange(r, at);
    StoredGenuine(s.disk.tables, r.version, s.hist, s.flushed);
    CoveredAnswers(s.hist, Stored(s.disk.tables, r.version, s.hist, s.flushed), Smallest(s), user, at, n);
  }

  lemma VersionReadable(s: Store)
    requires Inv(s) && s.ram.Some?
    ensures Shape(s.disk.tables, s.ram.value.version) && Recency(s.disk.tables, s.ram.value.version)
  {
    hide ManifestOk, LogsOk, LogSplit, MemoryOk, InflightOk, Covered, Replay;
    assert VersionInv(s.disk.tables, s.ram.value.version);
  }

  /** `DBImpl::Get` in any reachable state: memtable, then immutable memtable, then the
      version.  The memtable may have grown since the read began. */
  method Get(s: Store, later: seq<Entry>, user: UserKey, at: nat) returns (value: Option<string>)
    requires Reachable(s) && s.ram.Some? && Readable(s.ram.value, at)
    requires Grown(s.ram.value.mem, later, s.ram.value.last)
    ensures at <= |s.hist| && value == Read(s.hist, user, at)
  {
    hide Inv, Read, NewestStored, Stored, Sorted, Reachable, SmallestSnapshot;
    ReachableInv(s);
    var r := s.ram.value;
    assert at <= r.last by { ReadableInRange(s, at); }
    var n := TableGet(later, user, at);
    if n.Some? {
      MemAnswers(s, later, user, at, n.value);
      LookupAnswers(s, user, at, n);
      return Answer(n);
    }
    if r.imm.Some? {
      n := TableGet(r.imm.value, user, at);
      if n.Some? {
        ImmAnswers(s, later, user, at, n.value);
        LookupAnswers(s, user, at, n);
        return Answer(n);
      }
    }
    VersionReadable(s);
    n := VersionGet(s.disk.tables, r.version, user, at);
    VersionAnswers(s, later, user, at, n);
    LookupAnswers(s, user, at, n);
    return Answer(n);
  }

  lemma ReadableInRange(s: Store, at: nat)
    requires Inv(s) && s.ram.Some? && Readable(s.ram.value, at)
    ensures at <= s.ram.value.last <= |s.hist|
  {
    hide DiskInv, LogSplit, MemoryOk, CountersOk;
    ReadableRange(s.ram.value, at);
  }

  /** Everything stored in a running store. */
  ghost function StoredIn(s: Store): set<Entry>
    requires s.ram.Some?
  {
    Stored(s.disk.tables, s.ram.value.version, s.hist, s.flushed)
  }

  /** Steps that reorganise what is stored without writing. */
  ghost predicate Background(step: Step) {
    || step.SwitchMemTable? || step.FlushMemTable? || step.Compact? || step.TrivialMove?
    || step.DeleteTable? || step.DeleteLog? || step.DeleteManifest? || step.StrayTable?
  }

  lemma BackgroundKeepsHistory(s: Store, s': Store, step: Step)
    requires s.ram.Some? && Background(step) && NextStep(s, s', step)
    ensures s'.hist == s.hist && s'.ram.Some? && s'.ram.value.last == s.ram.value.last
    ensures s'.ram.value.snapshots == s.ram.value.snapshots
  {
    hide FlushMemTableStep, CompactStep, TrivialMoveStep;
    match step
    case FlushMemTable(level, size) => FlushKeepsHistory(s, s', level, size);
    case Compact(level, in0, in1, outs) => CompactKeepsHistory(s, s', level, in0, in1, outs);
    case TrivialMove(level, file) => MoveKeepsHistory(s, s', level, file);
    case _ =>
  }

  /** Memtable switches, flushes, compactions, trivial moves and file deletions leave every
      snapshot readable and change no answer at any of them. */
  lemma BackgroundKeepsAnswers(s: Store, s': Store, step: Step, user: UserKey, at: nat, n: Option<Entry>,
                               n': Option<Entry>)
    requires Reachable(s) && s.ram.Some? && Background(step) && NextStep(s, s', step)
    requires Readable(s.ram.value, at) && NewestStored(StoredIn(s), user, at, n)
    ensures s'.ram.Some? && Readable(s'.ram.value, at)
    ensures NewestStored(StoredIn(s'), user, at, n') ==> Answer(n') == Answer(n)
  {
    hide Inv, Reachable, NextStep, NewestStored, Read, Answer, Stored;
    ReachableInv(s);
    NextInv(s, s', step);
    BackgroundKeepsHistory(s, s', step);
    LookupAnswers(s, user, at, n);
    if NewestStored(StoredIn(s'), user, at, n') {
      LookupAnswers(s', user, at, n');
    }
  }

  // ---- durability ----

  lemma AckInRange(s: Store)
    requires Inv(s) && s.ram.Some?
    ensures s.ram.value.last <= |s.hist| && Acknowledged(s) == s.hist[..s.ram.value.last]
    ensures s.ram.value.inflight == None ==> s.ram.value.last == |s.hist| && Acknowledged(s) == s.hist
    ensures s.ram.value.inflight.Some? ==> s.hist == Acknowledged(s) + s.ram.value.inflight.value.ops
  {
    hide DiskInv, LogSplit, MemoryOk, CountersOk, SnapshotsOk;
    assert InflightOk(s.disk, s.ram.value, s.hist);
  }

  /** No step takes back an acknowledged operation. */
  lemma StepKeepsAcknowledged(s: Store, s': Store, step: Step)
    requires Inv(s) && NextStep(s, s', step)
    ensures Acknowledged(s) <= Acknowledged(s')
  {
    hide Inv, FlushMemTableStep, CompactStep, TrivialMoveStep, RecoverStep, LiveNumber, PinnedNumber, DeleteTableStep,
      StrayTableStep, DeleteLogStep, PinVersionStep, UnpinVersionStep;
    NextInv(s, s', step);
    if s.ram.Some? { AckInRange(s); }
    if s'.ram.Some? { AckInRange(s'); }
    match step
    case FlushMemTable(level, size) => FlushKeepsHistory(s, s', level, size);
    case Compact(level, in0, in1, outs) => CompactKeepsHistory(s, s', level, in0, in1, outs);
    case TrivialMove(level, file) => MoveKeepsHistory(s, s', level, file);
    case Recover(outs, newLog) => RecoverInv(s, s', outs, newLog); RecoverKeepsHistory(s, s', outs, newLog);
    case Publish => PublishHistory(s, s');
    case WriteLog(ops) =>
    case Crash(torn) =>
    case _ => QuietHistory(s, s', step);
  }

  lemma QuietHistory(s: Store, s': Store, step: Step)
    requires NextStep(s, s', step) && !step.FlushMemTable? && !step.Compact? && !step.TrivialMove? && !step.Recover?
    requires !step.Publish? && !step.WriteLog? && !step.Crash?
    ensures s'.hist == s.hist && (s'.ram.Some? <==> s.ram.Some?)
    ensures s.ram.Some? ==> s'.ram.value.last == s.ram.value.last
  {
    hide LiveNumber, PinnedNumber;
  }

  lemma PublishHistory(s: Store, s': Store)
    requires Inv(s) && PublishStep(s, s') && s'.ram.Some? && s.ram.value.last <= s'.ram.value.last <= |s.hist|
    ensures s.hist[..s.ram.value.last] <= s'.hist[..s'.ram.value.last]
  {
    hide Inv;
  }

  lemma FlushKeepsHistory(s: Store, s': Store, level: nat, size: nat)
    requires FlushMemTableStep(s, s', level, size)
    ensures s.ram.Some? && s'.hist == s.hist && s'.ram.Some? && s'.ram.value.last == s.ram.value.last
    ensures s'.ram.value.snapshots == s.ram.value.snapshots
  {
    hide Install, TableMeta, NoOverlapUpTo;
  }

  lemma CompactKeepsHistory(s: Store, s': Store, level: nat, in0: seq<FileMeta>, in1: seq<FileMeta>, outs: seq<Output>)
    requires CompactStep(s, s', level, in0, in1, outs)
    ensures s.ram.Some? && s'.hist == s.hist && s'.ram.Some? && s'.ram.value.last == s.ram.value.last
    ensures s'.ram.value.snapshots == s.ram.value.snapshots
  {
    hide Install, ValidInputs, NoSharedBoundary, Kept, Flatten, MergeInputs, WriteTables, GoodOutputs;
  }

  lemma MoveKeepsHistory(s: Store, s': Store, level: nat, f: FileMeta)
    requires TrivialMoveStep(s, s', level, f)
    ensures s.ram.Some? && s'.hist == s.hist && s'.ram.Some? && s'.ram.value.last == s.ram.value.last
    ensures s'.ram.value.snapshots == s.ram.value.snapshots
  {
    hide Install, ValidInputs;
  }

  lemma RecoverKeepsHistory(s: Store, s': Store, outs: seq<Output>, newLog: nat)
    requires RecoverStep(s, s', outs, newLog)
    ensures s'.hist == s.hist && s.ram == None && s'.ram.Some?
  {
    hide Install, Replay, RecoveredTables, LiveRecords, WriteTables;
  }

  /** Over every run, crashes and recoveries included, what was acknowledged at one moment is
      a prefix of what is acknowledged at any later one, so every read at an acknowledged
      snapshot gives the same answer ever after. */
  lemma {:induction false} AcknowledgedIsDurable(states: seq<Store>, steps: seq<Step>, i: nat, j: nat)
    requires Run(states, steps) && i <= j < |states|
    ensures Acknowledged(states[i]) <= Acknowledged(states[j])
    ensures forall user, at: nat :: at <= |Acknowledged(states[i])| ==>
              Read(Acknowledged(states[i]), user, at) == Read(Acknowledged(states[j]), user, at)
  {
    hide Inv, Init, NextStep, Acknowledged, Read;
    if i < j {
      AcknowledgedIsDurable(states, steps, i, j - 1);
      RunInv(states, steps, j - 1);
      StepKeepsAcknowledged(states[j - 1], states[j], steps[j - 1]);
    }
    var a, b := Acknowledged(states[i]), Acknowledged(states[j]);
    forall user, at: nat | at <= |a| ensures Read(a, user, at) == Read(b, user, at) {
      ReadPrefix(a, b, user, at);
    }
  }

  // ---- crash recovery ----

  /** What a crash leaves: everything acknowledged, and the group in flight whole or not at all. */
  lemma CrashLeaves(s: Store, s': Store, torn: bool)
    requires Inv(s) && CrashStep(s, s', torn)
    ensures s'.ram == None
    ensures s'.hist == Acknowledged(s) +
            (if torn || s.ram.value.inflight == None then [] else s.ram.value.inflight.value.ops)
  {
    hide DiskInv, RamInv;
    AckInRange(s);
  }

  lemma {:induction false} DownKeepsHistory(states: seq<Store>, steps: seq<Step>, i: nat, j: nat)
    requires Run(states, steps) && i <= j < |states| && states[i].ram == None
    requires forall k :: i <= k < j ==> !steps[k].Recover?
    ensures states[j].hist == states[i].hist && states[j].ram == None
  {
    hide Init, RecoverStep, CompactStep, FlushMemTableStep, TrivialMoveStep;
    if i < j {
      DownKeepsHistory(states, steps, i, j - 1);
      var s, s', step := states[j - 1], states[j], steps[j - 1];
      assert NextStep(s, s', step);
      match step
      case FlushMemTable(level, size) => NoFlushWhenDown(s, s', level, size);
      case Compact(level, in0, in1, outs) => NoCompactWhenDown(s, s', level, in0, in1, outs);
      case TrivialMove(level, file) => NoMoveWhenDown(s, s', level, file);
      case _ =>
    }
  }

  lemma NoFlushWhenDown(s: Store, s': Store, level: nat, size: nat)
    ensures FlushMemTableStep(s, s', level, size) ==> s.ram.Some?
  {
    hide Install, TableMeta, NoOverlapUpTo;
  }

  lemma NoCompactWhenDown(s: Store, s': Store, level: nat, in0: seq<FileMeta>, in1: seq<FileMeta>, outs: seq<Output>)
    ensures CompactStep(s, s', level, in0, in1, outs) ==> s.ram.Some?
  {
    hide Install, ValidInputs, NoSharedBoundary, Kept, Flatten, MergeInputs, WriteTables, GoodOutputs;
  }

  lemma NoMoveWhenDown(s: Store, s': Store, level: nat, f: FileMeta)
    ensures TrivialMoveStep(s, s', level, f) ==> s.ram.Some?
  {
    hide Install, ValidInputs;
  }

  /** A crash at any step of a run and the next recovery that completes, however many
      recoveries were cut short in between: the store holds exactly the acknowledged
      operations plus, unless its record was torn, the group in flight; its last sequence
      number is that of the last operation; and every read answers from that history. */
  lemma RecoveryIsExact(states: seq<Store>, steps: seq<Step>, i: nat, j: nat)
    requires Run(states, steps) && i < j < |steps| && steps[i].Crash? && steps[j].Recover?
    requires forall k :: i < k < j ==> !steps[k].Recover?
    ensures states[i].ram.Some? && states[j + 1].ram.Some?
    ensures states[j + 1].hist == Acknowledged(states[i]) +
              (if steps[i].torn || states[i].ram.value.inflight == None then []
               else states[i].ram.value.inflight.value.ops)
    ensures states[j + 1].ram.value.last == |states[j + 1].hist|
    ensures Acknowledged(states[j + 1]) == states[j + 1].hist
  {
    hide Inv, Init, Acknowledged, RecoverStep;
    RunInv(states, steps, i);
    RunInv(states, steps, j);
    assert NextStep(states[i], states[i + 1], steps[i]) && NextStep(states[j], states[j + 1], steps[j]);
    CrashLeaves(states[i], states[i + 1], steps[i].torn);
    DownKeepsHistory(states, steps, i + 1, j);
    RecoverInv(states[j], states[j + 1], steps[j].outs, steps[j].newLog);
    RecoverKeepsHistory(states[j], states[j + 1], steps[j].outs, steps[j].newLog);
    AckInRange(states[j + 1]);
    assert states[j + 1].hist[..|states[j + 1].hist|] == states[j + 1].hist;
  }

  lemma DiskParts(s: Store)
    requires Inv(s) && s.ram == None
    ensures HasCounters(Manifest(s.disk))
    ensures var v := Replay(Manifest(s.disk)); forall l, f :: 0 <= l < |v| && f in v[l] ==> f.number in s.disk.tables
  {
    hide Replay, Covered, NumbersOnce, LevelsRise, EverAdded, LogsOk, LatestLogNumber, LatestNextFile, LatestSequence,
      Recency, UniqueNumbers, VersionEntries;
  }

  /** Recovery is never stuck: in every reachable state without memory the files on disk
      suffice for it, whatever obsolete files were deleted before. */
  lemma RecoveryPossible(s: Store)
    requires Reachable(s) && s.ram == None
    ensures exists s', outs, newLog :: RecoverStep(s, s', outs, newLog)
  {
    hide Inv, Reachable, Replay, Install, WriteTables, RecoveredTables, LiveRecords, MaxSequence, SnapshotRecord,
      LatestLogNumber, LatestNextFile, LatestSequence, OneTable, LogNumbersBound, Manifest, AddAll, FullEdit;
    ReachableInv(s);
    DiskParts(s);
    var edits := Manifest(s.disk);
    var records := LiveRecords(s.disk.logs, LatestLogNumber(edits).value);
    var manifestNumber := LatestNextFile(edits).value;
    var first := manifestNumber + 1;
    var outs := OneTable(records, first);
    OneTableRecovers(records, first);
    var newLog := first + 1 + LogNumbersBound(s.disk.logs);
    LogNumbersBounded(s.disk.logs);
    var last: nat := if LatestSequence(edits).value < MaxSequence(records) then MaxSequence(records)
      else LatestSequence(edits).value;
    var v := Replay(edits);
    var e := FullEdit(newLog, newLog + 1, last, {}, AddAll(0, outs));
    var s' := Store(s.hist, |s.hist|, |s.hist|,
                    Disk(WriteTables(s.disk.tables, outs), s.disk.logs + [Log(newLog, [])],
                         s.disk.manifests[manifestNumber := [SnapshotRecord(v), e]], manifestNumber),
                    Some(OpenedRam(Install(v, e), last, newLog, manifestNumber)));
    assert RecoverStep(s, s', outs, newLog);
  }

  /** A recovery that never fills its memtable writes at most one table. */
  function OneTable(records: seq<Batch>, first: nat): seq<Output> {
    var mem := MemOf(records);
    if mem == [] then [] else [Output(TableMeta(first, 0, mem), mem)]
  }

  lemma OneTableRecovers(records: seq<Batch>, first: nat)
    ensures RecoveredTables(records, first, OneTable(records, first))
    ensures forall i :: 0 <= i < |OneTable(records, first)| ==> OneTable(records, first)[i].meta.number == first
  {
    var outs := OneTable(records, first);
    if outs != [] {
      assert records[0..] == records && records[..0] == [] && outs[..0] == [];
      assert RecoveredTables(records[..0], first, outs[..0]);
    }
  }

  function LogNumbersBound(logs: seq<Log>): nat {
    if logs == [] then 0 else logs[0].number + 1 + LogNumbersBound(logs[1..])
  }

  lemma {:induction false} LogNumbersBounded(logs: seq<Log>)
    ensures forall i :: 0 <= i < |logs| ==> logs[i].number < LogNumbersBound(logs)
  {
    if logs != [] {
      LogNumbersBounded(logs[1..]);
      forall i | 0 <= i < |logs| ensures logs[i].number < LogNumbersBound(logs) {
        if i > 0 { assert logs[1..][i - 1] == logs[i]; }
      }
    }
  }
}
