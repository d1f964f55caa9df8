/** States of the store: memory, disk and the history of logged operations, with the replay
    functions of recovery (db/db_impl.cc, db/version_set.cc `Recover`). */
module StoreState {
  import opened InternalKeys
  import opened VersionReads
  import opened VersionBuilder

  // ---- memtables ----

  /** Insertion into a memtable: its skip list keeps entries in internal key order. */
  function InsertEntry(mem: seq<Entry>, e: Entry): seq<Entry> {
    if mem == [] || Before(e.key, mem[0].key) then [e] + mem
    else [mem[0]] + InsertEntry(mem[1..], e)
  }

  lemma {:induction false} InsertEntryMembers(mem: seq<Entry>, e: Entry)
    ensures forall x :: x in InsertEntry(mem, e) <==> x == e || x in mem
  {
    if mem != [] && !Before(e.key, mem[0].key) { InsertEntryMembers(mem[1..], e); }
  }

  lemma {:induction false} InsertEntrySorted(mem: seq<Entry>, e: Entry)
    requires Sorted(mem) && forall x :: x in mem ==> x.key.sequence != e.key.sequence
    ensures Sorted(InsertEntry(mem, e))
  {
    if mem == [] {
    } else if Before(e.key, mem[0].key) {
      forall j | 0 <= j < |mem| ensures Before(e.key, mem[j].key) {
        assert j > 0 ==> Before(mem[0].key, mem[j].key);
      }
    } else {
      InsertEntrySorted(mem[1..], e);
      InsertEntryMembers(mem[1..], e);
      assert mem[0] in mem && Before(mem[0].key, e.key);
      forall x | x in InsertEntry(mem[1..], e) ensures Before(mem[0].key, x.key) {
        if x != e { var k :| 0 <= k < |mem[1..]| && mem[1..][k] == x; assert Before(mem[0].key, mem[k + 1].key); }
      }
    }
  }

  // ---- log files ----

  /** A log record: one write batch with the sequence number of its first operation. */
  datatype Batch = Batch(first: nat, ops: seq<Op>)

  /** The memtable after the first `n` operations of a batch are inserted. */
  function InsertOps(mem: seq<Entry>, b: Batch, n: nat): seq<Entry>
    requires n <= |b.ops|
  {
    if n == 0 then mem else InsertEntry(InsertOps(mem, b, n - 1), EntryOf(b.ops[n - 1], b.first + n - 1))
  }

  /** The memtable that replaying the records builds. */
  function MemOf(records: seq<Batch>): seq<Entry> {
    if records == [] then []
    else
      var b := records[|records| - 1];
      InsertOps(MemOf(records[..|records| - 1]), b, |b.ops|)
  }

  datatype Log = Log(number: nat, records: seq<Batch>)

  ghost predicate LogsSorted(logs: seq<Log>) {
    forall i, j :: 0 <= i < j < |logs| ==> logs[i].number < logs[j].number
  }

  /** Records of the logs numbered `logNumber` or higher, in order. */
  function LiveRecords(logs: seq<Log>, logNumber: nat): seq<Batch> {
    if logs == [] then []
    else
      var last := logs[|logs| - 1];
      LiveRecords(logs[..|logs| - 1], logNumber) + (if last.number >= logNumber then last.records else [])
  }

  /** The records hold exactly the operations after `from` up to `to`, at their own numbers. */
  ghost predicate Matches(hist: seq<Op>, records: seq<Batch>, from: nat, to: nat) {
    if records == [] then from == to
    else
      var r := records[|records| - 1];
      && r.first >= 1 && r.first - 1 + |r.ops| == to && to <= |hist|
      && r.ops == hist[r.first - 1..to]
      && Matches(hist, records[..|records| - 1], from, r.first - 1)
  }

  /** What one more record at the end asks for. */
  lemma MatchesLast(hist: seq<Op>, init: seq<Batch>, r: Batch, from: nat, to: nat)
    ensures Matches(hist, init + [r], from, to) <==>
            && r.first >= 1 && r.first - 1 + |r.ops| == to && to <= |hist| && r.ops == hist[r.first - 1..to]
            && Matches(hist, init, from, r.first - 1)
  {
    assert (init + [r])[..|init|] == init;
  }

  lemma {:induction false} MatchesOrder(hist: seq<Op>, records: seq<Batch>, from: nat, to: nat)
    requires Matches(hist, records, from, to)
    ensures from <= to
    ensures records != [] ==> to <= |hist|
  {
    if records != [] { MatchesOrder(hist, records[..|records| - 1], from, records[|records| - 1].first - 1); }
  }

  lemma {:induction false} MatchesConcat(hist: seq<Op>, a: seq<Batch>, b: seq<Batch>, from: nat, mid: nat, to: nat)
    requires Matches(hist, a, from, mid) && Matches(hist, b, mid, to)
    ensures Matches(hist, a + b, from, to)
  {
    if b == [] {
      assert a + b == a;
    } else {
      var init, last := b[..|b| - 1], b[|b| - 1];
      assert (a + b)[..|a + b| - 1] == a + init && (a + b)[|a + b| - 1] == last;
      MatchesConcat(hist, a, init, from, mid, last.first - 1);
    }
  }

  /** Records within a prefix of the history do not care what follows. */
  lemma {:induction false} MatchesPrefix(hist: seq<Op>, other: seq<Op>, records: seq<Batch>, from: nat, to: nat)
    requires Matches(hist, records, from, to) && to <= |hist| && to <= |other| && hist[..to] == other[..to]
    ensures Matches(other, records, from, to)
  {
    if records != [] {
      var r := records[|records| - 1];
      assert hist[r.first - 1..to] == hist[..to][r.first - 1..];
      assert other[r.first - 1..to] == other[..to][r.first - 1..];
      assert hist[..r.first - 1] == hist[..to][..r.first - 1];
      assert other[..r.first - 1] == other[..to][..r.first - 1];
      MatchesPrefix(hist, other, records[..|records| - 1], from, r.first - 1);
    }
  }

  lemma {:induction false} DeadLogsSilent(logs: seq<Log>, logNumber: nat)
    requires forall i :: 0 <= i < |logs| ==> logs[i].number < logNumber
    ensures LiveRecords(logs, logNumber) == []
  {
    if logs != [] { DeadLogsSilent(logs[..|logs| - 1], logNumber); }
  }

  lemma {:induction false} RemoveDeadLog(logs: seq<Log>, i: nat, logNumber: nat)
    requires i < |logs| && logs[i].number < logNumber
    ensures LiveRecords(logs[..i] + logs[i + 1..], logNumber) == LiveRecords(logs, logNumber)
  {
    var rest := logs[..i] + logs[i + 1..];
    if i == |logs| - 1 {
      assert rest == logs[..|logs| - 1];
    } else {
      var init := logs[..|logs| - 1];
      RemoveDeadLog(init, i, logNumber);
      assert rest == (init[..i] + init[i + 1..]) + [logs[|logs| - 1]];
      LiveRecordsSnoc(init[..i] + init[i + 1..], logs[|logs| - 1], logNumber);
    }
  }

  lemma LiveRecordsSnoc(logs: seq<Log>, l: Log, logNumber: nat)
    ensures LiveRecords(logs + [l], logNumber) ==
            LiveRecords(logs, logNumber) + (if l.number >= logNumber then l.records else [])
  {
    assert (logs + [l])[..|logs|] == logs;
  }

  // ---- MANIFEST records ----

  /** Latest value recorded for a counter; None if no record has it. */
  function LatestLogNumber(edits: seq<Edit>): Option<nat> {
    if edits == [] then None
    else if edits[|edits| - 1].logNumber.Some? then edits[|edits| - 1].logNumber
    else LatestLogNumber(edits[..|edits| - 1])
  }

  function LatestNextFile(edits: seq<Edit>): Option<nat> {
    if edits == [] then None
    else if edits[|edits| - 1].nextFile.Some? then edits[|edits| - 1].nextFile
    else LatestNextFile(edits[..|edits| - 1])
  }

  function LatestSequence(edits: seq<Edit>): Option<nat> {
    if edits == [] then None
    else if edits[|edits| - 1].lastSequence.Some? then edits[|edits| - 1].lastSequence
    else LatestSequence(edits[..|edits| - 1])
  }

  /** `LogAndApply` fills in all three counters. */
  function FullEdit(logNumber: nat, nextFile: nat, last: nat, deleted: set<(nat, nat)>,
                    added: seq<(nat, FileMeta)>): Edit {
    Edit(Some(logNumber), Some(nextFile), Some(last), deleted, added)
  }

  lemma LatestOfFull(edits: seq<Edit>, logNumber: nat, nextFile: nat, last: nat, deleted: set<(nat, nat)>,
                     added: seq<(nat, FileMeta)>)
    ensures var es := edits + [FullEdit(logNumber, nextFile, last, deleted, added)];
      LatestLogNumber(es) == Some(logNumber) && LatestNextFile(es) == Some(nextFile) && LatestSequence(es) == Some(last)
  {
  }

  // ---- states ----

  datatype Disk = Disk(tables: Tables, logs: seq<Log>, manifests: map<nat, seq<Edit>>, current: nat)

  datatype Ram = Ram(
    mem: seq<Entry>, imm: Option<seq<Entry>>,
    inflight: Option<Batch>, // the write group that is logged but not yet published
    done: nat,               // its operations inserted into the memtable so far
    last: nat,               // LastSequence
    version: Levels, snapshots: seq<nat>,
    nextFile: nat, logNumber: nat, logfileNumber: nat, manifestNumber: nat,
    pinned: seq<Levels>)     // versions that iterators hold on to

  /** Memory just after a database is opened. */
  function OpenedRam(version: Levels, last: nat, newLog: nat, manifestNumber: nat): Ram {
    Ram([], None, None, 0, last, version, [], newLog + 1, newLog, newLog, manifestNumber, [])
  }

  /** `hist` lists every logged operation.  `flushed` and `switched` only serve the proof:
      operations up to `flushed` have left the live logs, those up to `switched` have left the
      current memtable. */
  datatype Store = Store(hist: seq<Op>, flushed: nat, switched: nat, disk: Disk, ram: Option<Ram>)

  /** The smallest snapshot a compaction must keep (db_impl.cc 890-894). */
  function SmallestSnapshot(r: Ram): nat {
    if r.snapshots == [] then r.last else r.snapshots[0]
  }

  /** Operations acknowledged to writers. */
  function Acknowledged(s: Store): seq<Op> {
    if s.ram.Some? && s.ram.value.last <= |s.hist| then s.hist[..s.ram.value.last] else s.hist
  }

  // ---- merged compaction input ----

  function MergeEntries(a: seq<Entry>, b: seq<Entry>): seq<Entry>
    decreases |a| + |b|
  {
    if a == [] then b
    else if b == [] then a
    else if Before(a[0].key, b[0].key) then [a[0]] + MergeEntries(a[1..], b)
    else [b[0]] + MergeEntries(a, b[1..])
  }

  /** Entries of all input files in internal key order: what the input iterator yields. */
  function MergeInputs(t: Tables, files: seq<FileMeta>): seq<Entry> {
    if files == [] then [] else MergeEntries(Data(t, files[0]), MergeInputs(t, files[1..]))
  }

  lemma {:induction false} MergeEntriesMembers(a: seq<Entry>, b: seq<Entry>)
    ensures forall e :: e in MergeEntries(a, b) <==> e in a || e in b
    decreases |a| + |b|
  {
    if a != [] && b != [] {
      if Before(a[0].key, b[0].key) {
        MergeEntriesMembers(a[1..], b);
        assert a == [a[0]] + a[1..];
      } else {
        MergeEntriesMembers(a, b[1..]);
        assert b == [b[0]] + b[1..];
      }
    }
  }

  lemma HeadBeforeAll(h: Entry, own: seq<Entry>, rest: seq<Entry>, other: seq<Entry>, merged: seq<Entry>)
    requires Sorted(own) && Sorted(other) && own == [h] + rest
    requires other != [] ==> Before(h.key, other[0].key)
    requires Sorted(merged) && forall e :: e in merged <==> e in rest || e in other
    ensures Sorted([h] + merged)
  {
    forall k | 0 <= k < |merged| ensures Before(h.key, merged[k].key) {
      var e := merged[k];
      assert e in merged;
      if e in rest {
        var j :| 0 <= j < |rest| && rest[j] == e;
        assert Before(own[0].key, own[j + 1].key);
      } else {
        var j :| 0 <= j < |other| && other[j] == e;
        assert j > 0 ==> Before(other[0].key, other[j].key);
      }
    }
  }

  lemma {:induction false} MergeEntriesSorted(a: seq<Entry>, b: seq<Entry>)
    requires Sorted(a) && Sorted(b)
    requires ApartSequences(a, b)
    ensures Sorted(MergeEntries(a, b))
    decreases |a| + |b|
  {
    if a != [] && b != [] {
      assert a[0] in a && b[0] in b;
      if Before(a[0].key, b[0].key) {
        MergeEntriesSorted(a[1..], b);
        MergeEntriesMembers(a[1..], b);
        HeadBeforeAll(a[0], a, a[1..], b, MergeEntries(a[1..], b));
      } else {
        MergeEntriesSorted(a, b[1..]);
        MergeEntriesMembers(a, b[1..]);
        HeadBeforeAll(b[0], b, b[1..], a, MergeEntries(a, b[1..]));
      }
    }
  }

  lemma {:induction false} MergeInputsMembers(t: Tables, files: seq<FileMeta>)
    ensures forall e :: e in MergeInputs(t, files) <==> exists f :: f in files && e in Data(t, f)
  {
    if files != [] {
      MergeInputsMembers(t, files[1..]);
      MergeEntriesMembers(Data(t, files[0]), MergeInputs(t, files[1..]));
      assert files == [files[0]] + files[1..];
    }
  }

  ghost predicate ApartSequences(a: seq<Entry>, b: seq<Entry>) {
    forall x, y :: x in a && y in b ==> x.key.sequence != y.key.sequence
  }

  ghost predicate DistinctSequences(t: Tables, files: seq<FileMeta>) {
    forall i, j :: 0 <= i < j < |files| ==> ApartSequences(Data(t, files[i]), Data(t, files[j]))
  }

  lemma HeadApart(t: Tables, files: seq<FileMeta>)
    requires files != [] && DistinctSequences(t, files)
    ensures ApartSequences(Data(t, files[0]), MergeInputs(t, files[1..]))
    ensures DistinctSequences(t, files[1..])
  {
    var rest := files[1..];
    MergeInputsMembers(t, rest);
    forall x, y | x in Data(t, files[0]) && y in MergeInputs(t, rest) ensures x.key.sequence != y.key.sequence {
      var f :| f in rest && y in Data(t, f);
      var k :| 0 <= k < |rest| && rest[k] == f;
      assert ApartSequences(Data(t, files[0]), Data(t, files[k + 1]));
    }
    forall i, j | 0 <= i < j < |rest| ensures ApartSequences(Data(t, rest[i]), Data(t, rest[j])) {
      assert ApartSequences(Data(t, files[i + 1]), Data(t, files[j + 1]));
    }
  }

  lemma {:induction false} MergeInputsSorted(t: Tables, files: seq<FileMeta>)
    requires GoodFiles(t, files) && DistinctSequences(t, files)
    ensures Sorted(MergeInputs(t, files))
  {
    if files != [] {
      HeadApart(t, files);
      assert GoodFile(t, files[0]);
      assert forall f :: f in files[1..] ==> f in files;
      MergeInputsSorted(t, files[1..]);
      MergeEntriesSorted(Data(t, files[0]), MergeInputs(t, files[1..]));
    }
  }
}
