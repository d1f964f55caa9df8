/** The tables, logs and MANIFEST records of the store model as the bytes they stand for: a
    table file answers what the model's table answers, a log file cut off inside its last record
    is one of the two crashes of the model, and a record read back is the same edit. */
module StoreFiles {
  import opened InternalKeys
  import opened VersionReads
  import opened StoreState
  import opened StoreSteps
  import opened StoreInvariant
  import opened Coding
  import opened ByteKeys
  import opened Blocks
  import opened BlockIterators
  import opened BloomFilters
  import opened TableBuilders
  import opened Tables
  import VersionEdits
  import LogFormat
  import LogReader
  import W = WriteBatches

  // ---- keys ----

  /** User keys as bytes: any encoding that keeps their order. */
  ghost predicate Ordered(key: UserKey -> Bytes) {
    forall a, b :: a < b ==> BytesBefore(key(a), key(b))
  }

  function KeyBytes(key: UserKey -> Bytes, k: InternalKey): Bytes
    requires k.sequence <= MAX_SEQUENCE
  {
    InternalBytes(key(k.user), k.sequence, k.kind)
  }

  lemma UserOrder(key: UserKey -> Bytes, a: UserKey, b: UserKey)
    requires Ordered(key)
    ensures a < b <==> BytesBefore(key(a), key(b))
    ensures a == b <==> key(a) == key(b)
  {
    hide BytesBefore;
    BytesTotal(key(a), key(b));
    if a < b { assert BytesBefore(key(a), key(b)); }
    if b < a { assert BytesBefore(key(b), key(a)); }
  }

  lemma KeyOrderKept(key: UserKey -> Bytes, a: InternalKey, b: InternalKey)
    requires Ordered(key) && a.sequence <= MAX_SEQUENCE && b.sequence <= MAX_SEQUENCE
    ensures KeyBefore(KeyBytes(key, a), KeyBytes(key, b)) <==> Before(a, b)
    ensures UserOf(KeyBytes(key, a)) == key(a.user)
  {
    hide Ordered, BytesBefore, KeyBefore, InternalBytes, UserOf;
    OrderKept(key(a.user), a.sequence, a.kind, key(b.user), b.sequence, b.kind);
    UserOrder(key, a.user, b.user);
    InternalParts(key(a.user), a.sequence, a.kind);
  }

  // ---- tables ----

  ghost predicate SequencesOk(entries: seq<Entry>) {
    forall e :: e in entries ==> e.key.sequence <= MAX_SEQUENCE
  }

  function PairOf(key: UserKey -> Bytes, text: string -> Bytes, e: Entry): Pair
    requires e.key.sequence <= MAX_SEQUENCE
  {
    Pair(KeyBytes(key, e.key), text(e.value))
  }

  /** The pairs of the table file. */
  ghost function PairsOf(key: UserKey -> Bytes, text: string -> Bytes, entries: seq<Entry>): (pairs: seq<Pair>)
    requires SequencesOk(entries)
    ensures |pairs| == |entries| && forall i :: 0 <= i < |entries| ==> pairs[i] == PairOf(key, text, entries[i])
  {
    seq(|entries|, i requires 0 <= i < |entries| => PairOf(key, text, entries[i]))
  }

  /** The pairs of a sorted table come in the order a table builder asks for. */
  lemma PairsAscend(key: UserKey -> Bytes, text: string -> Bytes, entries: seq<Entry>)
    requires Ordered(key) && Sorted(entries) && SequencesOk(entries)
    ensures Ascending(PairsOf(key, text, entries))
  {
    hide Ordered, KeyBefore, InternalBytes;
    var pairs := PairsOf(key, text, entries);
    forall i, j | 0 <= i < j < |pairs| ensures KeyBefore(pairs[i].key, pairs[j].key) {
      assert entries[i] in entries && entries[j] in entries;
      KeyOrderKept(key, entries[i].key, entries[j].key);
    }
    forall p | p in pairs ensures |p.key| >= 8 {
      var i :| 0 <= i < |pairs| && pairs[i] == p;
      assert entries[i] in entries;
    }
  }

  lemma SeekOnFile(key: UserKey -> Bytes, text: string -> Bytes, entries: seq<Entry>, target: InternalKey)
    requires Ordered(key) && SequencesOk(entries) && target.sequence <= MAX_SEQUENCE
    ensures FirstFrom(KeyBefore, PairsOf(key, text, entries), KeyBytes(key, target), SeekIndex(entries, target))
  {
    hide Ordered, KeyBefore, KeyBytes;
    var i := SeekIndex(entries, target);
    forall j | 0 <= j < |entries| ensures KeyBefore(KeyBytes(key, entries[j].key), KeyBytes(key, target)) <==>
      Before(entries[j].key, target) {
      assert entries[j] in entries;
      KeyOrderKept(key, entries[j].key, target);
    }
  }

  lemma FirstIsUnique(pairs: seq<Pair>, k: Bytes, i: nat, j: nat)
    requires FirstFrom(KeyBefore, pairs, k, i) && FirstFrom(KeyBefore, pairs, k, j)
    ensures i == j
  {
    hide KeyBefore;
  }

  /** The result is the encoding of what the model's table answers; if that is nothing, it is
      nothing of the user key. */
  ghost predicate SameAnswer(key: UserKey -> Bytes, text: string -> Bytes, entries: seq<Entry>, user: UserKey, s: nat,
                             r: GetResult)
    requires SequencesOk(entries)
  {
    match TableGet(entries, user, s)
    case Some(e) => e in entries && r == Found(PairOf(key, text, e))
    case None => r.NotFound? || (r.Found? && UserOf(r.pair.key) != key(user))
  }

  /** A lookup in the table file answers as the model's table does. */
  lemma FileAnswers(key: UserKey -> Bytes, text: string -> Bytes, entries: seq<Entry>, user: UserKey, s: nat,
                    r: GetResult)
    requires Ordered(key) && SequencesOk(entries) && s <= MAX_SEQUENCE
    requires LookupOk(PairsOf(key, text, entries), KeyBytes(key, LookupKey(user, s)), r)
    ensures SameAnswer(key, text, entries, user, s, r)
  {
    hide Ordered, KeyBefore, KeyBytes, UserOf, FirstFrom, SeekIndex;
    var target := LookupKey(user, s);
    var pairs, k, i := PairsOf(key, text, entries), KeyBytes(key, target), SeekIndex(entries, target);
    SeekOnFile(key, text, entries, target);
    KeyOrderKept(key, target, target);
    if i < |entries| {
      assert entries[i] in entries;
      KeyOrderKept(key, entries[i].key, target);
      UserOrder(key, entries[i].key.user, user);
    }
    forall j: nat | FirstFrom(KeyBefore, pairs, k, j) ensures j == i { FirstIsUnique(pairs, k, i, j); }
  }

  /** Finishing the file of a table, opening it and looking a user key up at a snapshot. */
  method FinishAndAnswer(builder: TableBuilder, readName: Option<Bytes>, policy: BloomFilterPolicy, verify: bool,
                         key: UserKey -> Bytes, text: string -> Bytes, ghost entries: seq<Entry>, user: UserKey, s: nat)
    returns (r: GetResult)
    requires builder.Valid() && !builder.closed && builder.IndexRoom(builder.lastKey)
    requires |builder.dataBlock.buffer| < WORD - 1
    requires builder.options.filterName.Some? ==> |builder.options.filterName.value| + 42 < WORD - 1
    requires builder.filterBlock != null ==> builder.filterBlock.policy == policy
    requires HashesUserKey(policy.hash)
    requires Ordered(key) && SequencesOk(entries) && builder.added == PairsOf(key, text, entries) && s <= MAX_SEQUENCE
    modifies builder, builder.dataBlock, builder.indexBlock, builder.filterBlock
    ensures |builder.file| < WORD ==> SameAnswer(key, text, entries, user, s, r)
  {
    hide LookupOk, HashesUserKey, Ordered, KeyBytes, SameAnswer, SequencesOk;
    r := FinishAndGet(builder, readName, policy, KeyBytes(key, LookupKey(user, s)), verify);
    if |builder.file| < WORD { FileAnswers(key, text, entries, user, s, r); }
  }

  // ---- logs ----

  function RecordOf(key: UserKey -> Bytes, text: string -> Bytes, op: Op): W.Record {
    match op
    case Put(k, v) => W.PutRecord(key(k), text(v))
    case Delete(k) => W.DeleteRecord(key(k))
  }

  function BatchOf(key: UserKey -> Bytes, text: string -> Bytes, b: Batch): W.BatchRecord {
    W.BatchRecord(b.first, seq(|b.ops|, i requires 0 <= i < |b.ops| => RecordOf(key, text, b.ops[i])))
  }

  function BatchesOf(key: UserKey -> Bytes, text: string -> Bytes, records: seq<Batch>): (batches: seq<W.BatchRecord>)
    ensures |batches| == |records| && forall i :: 0 <= i < |records| ==> batches[i] == BatchOf(key, text, records[i])
  {
    seq(|records|, i requires 0 <= i < |records| => BatchOf(key, text, records[i]))
  }

  /** The log file of these records. */
  function LogBytes(extend: (nat, Bytes) -> nat, key: UserKey -> Bytes, text: string -> Bytes,
                    records: seq<Batch>): Bytes {
    LogFormat.LogOf(extend, W.RepsOf(BatchesOf(key, text, records)))
  }

  lemma {:induction false} LogGrows(extend: (nat, Bytes) -> nat, reps: seq<Bytes>, k: nat, n: nat)
    requires k <= n <= |reps|
    ensures |LogFormat.LogOf(extend, reps[..k])| <= |LogFormat.LogOf(extend, reps[..n])|
  {
    hide LogFormat.RecordBytes;
    if k < n {
      assert reps[..n][..n - 1] == reps[..n - 1];
      LogGrows(extend, reps, k, n - 1);
    }
  }

  lemma InitReps(key: UserKey -> Bytes, text: string -> Bytes, records: seq<Batch>, n: nat)
    requires n <= |records|
    ensures BatchesOf(key, text, records)[..n] == BatchesOf(key, text, records[..n])
    ensures W.RepsOf(BatchesOf(key, text, records))[..n] == W.RepsOf(BatchesOf(key, text, records[..n]))
  {
  }

  /** Replaying a log file that ends in or right after its last record gives that record's
      operations too exactly if the file holds all of it. */
  lemma CutInLastRecord(extend: (nat, Bytes) -> nat, key: UserKey -> Bytes, text: string -> Bytes, records: seq<Batch>,
                        n: nat,
                        mem: seq<W.MemEntry>)
    requires records != [] && W.Replayed(extend, BatchesOf(key, text, records), n, mem)
    requires |LogBytes(extend, key, text, records[..|records| - 1])| <= n <= |LogBytes(extend, key, text, records)|
    ensures mem == W.EntriesOf(BatchesOf(key, text, if n == |LogBytes(extend, key, text, records)| then records
                                         else records[..|records| - 1]))
  {
    hide LogFormat.LogOf, W.EntriesOf, W.RepsOf, BatchesOf;
    var batches, m := BatchesOf(key, text, records), |records|;
    var reps := W.RepsOf(batches);
    var k: nat :| k <= |batches| && LogReader.WhollyIn(extend, reps, n, k) && mem == W.EntriesOf(batches[..k]);
    InitReps(key, text, records, m - 1);
    assert reps[..m] == reps && batches[..m] == batches;
    if k < m - 1 { LogGrows(extend, reps, k + 1, m - 1); }
  }

  // ---- memtables ----

  function MemEntryOf(key: UserKey -> Bytes, text: string -> Bytes, e: Entry): W.MemEntry {
    W.MemEntry(key(e.key.user), e.key.sequence, e.key.kind, if e.key.kind.Value? then text(e.value) else [])
  }

  lemma {:induction false} InsertedOps(mem: seq<Entry>, b: Batch, n: nat)
    requires n <= |b.ops|
    ensures forall e :: e in InsertOps(mem, b, n) <==> e in mem || exists i ::
            0 <= i < n && e == EntryOf(b.ops[i], b.first + i)
  {
    if n > 0 {
      InsertedOps(mem, b, n - 1);
      InsertEntryMembers(InsertOps(mem, b, n - 1), EntryOf(b.ops[n - 1], b.first + n - 1));
    }
  }

  lemma NumberedOps(key: UserKey -> Bytes, text: string -> Bytes, b: Batch, m: W.MemEntry)
    ensures m in W.Numbered(b.first, BatchOf(key, text, b).records) <==>
            exists i :: 0 <= i < |b.ops| && m == MemEntryOf(key, text, EntryOf(b.ops[i], b.first + i))
  {
    var numbered := W.Numbered(b.first, BatchOf(key, text, b).records);
    assert forall i :: 0 <= i < |b.ops| ==> numbered[i] == MemEntryOf(key, text, EntryOf(b.ops[i], b.first + i));
  }

  lemma LastReplayed(key: UserKey -> Bytes, text: string -> Bytes, records: seq<Batch>)
    requires records != []
    ensures var init, last := records[..|records| - 1], records[|records| - 1];
      W.EntriesOf(BatchesOf(key, text, records)) ==
      W.EntriesOf(BatchesOf(key, text, init)) + W.Numbered(last.first, BatchOf(key, text, last).records)
  {
    InitReps(key, text, records, |records| - 1);
  }

  /** The memtable that the bytes are replayed into holds the encodings of what the model's holds. */
  lemma {:induction false} ReplaysAgree(key: UserKey -> Bytes, text: string -> Bytes, records: seq<Batch>,
                                        m: W.MemEntry)
    ensures m in W.EntriesOf(BatchesOf(key, text, records)) <==> exists e ::
            e in MemOf(records) && m == MemEntryOf(key, text, e)
  {
    if records != [] {
      hide W.EntriesOf, BatchesOf, BatchOf, MemEntryOf, EntryOf, InsertOps;
      var init, last := records[..|records| - 1], records[|records| - 1];
      LastReplayed(key, text, records);
      ReplaysAgree(key, text, init, m);
      NumberedOps(key, text, last, m);
      InsertedOps(MemOf(init), last, |last.ops|);
      if e :| e in MemOf(records) && m == MemEntryOf(key, text, e) {
        assert m in W.EntriesOf(BatchesOf(key, text, records));
      }
      if m in W.EntriesOf(BatchesOf(key, text, init)) {
        var e :| e in MemOf(init) && m == MemEntryOf(key, text, e);
        assert e in MemOf(records);
      }
    }
  }

  // ---- MANIFEST records ----

  ghost predicate SameFile(key: UserKey -> Bytes, level: nat, f: FileMeta, r: VersionEdits.FileRecord) {
    && f.smallest.sequence <= MAX_SEQUENCE && f.largest.sequence <= MAX_SEQUENCE
    && r == VersionEdits.FileRecord(level, f.number, f.size, KeyBytes(key, f.smallest), KeyBytes(key, f.largest))
  }

  /** The record says what the edit says. */
  ghost predicate Describes(key: UserKey -> Bytes, e: VersionBuilder.Edit, r: VersionEdits.EditRecord) {
    && r.logNumber == e.logNumber && r.nextFile == e.nextFile && r.lastSequence == e.lastSequence
    && (forall d :: d in e.deleted <==> d in r.deleted)
    && |r.added| == |e.added|
    && forall i :: 0 <= i < |e.added| ==> SameFile(key, e.added[i].0, e.added[i].1, r.added[i])
  }

  lemma KeyOfBytes(key: UserKey -> Bytes, a: InternalKey, b: InternalKey)
    requires Ordered(key) && a.sequence <= MAX_SEQUENCE && b.sequence <= MAX_SEQUENCE
    requires KeyBytes(key, a) == KeyBytes(key, b)
    ensures a == b
  {
    hide Ordered, InternalBytes, UserOf, TrailerOf;
    InternalParts(key(a.user), a.sequence, a.kind);
    InternalParts(key(b.user), b.sequence, b.kind);
    UserOrder(key, a.user, b.user);
  }

  /** A record describes one edit only. */
  lemma RecordDetermines(key: UserKey -> Bytes, e: VersionBuilder.Edit, f: VersionBuilder.Edit,
                         r: VersionEdits.EditRecord)
    requires Ordered(key) && Describes(key, e, r) && Describes(key, f, r)
    ensures e == f
  {
    hide Ordered, KeyBytes;
    forall i | 0 <= i < |e.added| ensures e.added[i] == f.added[i] {
      assert SameFile(key, e.added[i].0, e.added[i].1, r.added[i]) &&
        SameFile(key, f.added[i].0, f.added[i].1, r.added[i]);
      KeyOfBytes(key, e.added[i].1.smallest, f.added[i].1.smallest);
      KeyOfBytes(key, e.added[i].1.largest, f.added[i].1.largest);
    }
    assert e.added == f.added;
    assert e.deleted == f.deleted;
  }

  /** Writing an edit as a record and reading it into a fresh object: the copy describes this
      edit and no other. */
  method WriteEdit(key: UserKey -> Bytes, ghost e: VersionBuilder.Edit, edit: VersionEdits.VersionEdit)
    returns (copy: VersionEdits.VersionEdit)
    requires VersionEdits.EditOk(edit.Value()) && Ordered(key) && Describes(key, e, edit.Value())
    ensures forall f :: Describes(key, f, copy.Value()) <==> f == e
  {
    hide VersionEdits.EditOk, Ordered, Describes;
    copy := VersionEdits.WriteAndRead(edit);
    forall f | Describes(key, f, copy.Value()) ensures f == e { RecordDetermines(key, e, f, copy.Value()); }
  }

  // ---- crashes ----

  /** A process that dies while the group in flight is being written to the log leaves the log
      file cut off somewhere in its last record.  Replaying that file is a crash of the model:
      the one that keeps the group if the file is whole, and the torn one otherwise. */
  lemma CutIsCrash(extend: (nat, Bytes) -> nat, key: UserKey -> Bytes, text: string -> Bytes, s: Store, n: nat,
                   mem: seq<W.MemEntry>)
    returns (torn: bool, s': Store)
    requires Inv(s) && s.ram.Some? && s.ram.value.inflight.Some? && s.disk.logs != []
    requires var records := s.disk.logs[|s.disk.logs| - 1].records;
      && records != []
      && |LogBytes(extend, key, text, records[..|records| - 1])| <= n <= |LogBytes(extend, key, text, records)|
      && W.Replayed(extend, BatchesOf(key, text, records), n, mem)
    ensures CrashStep(s, s', torn) && |s'.disk.logs| == |s.disk.logs|
    ensures torn <==> n < |LogBytes(extend, key, text, s.disk.logs[|s.disk.logs| - 1].records)|
    ensures forall m :: m in mem <==> exists e ::
            e in MemOf(s'.disk.logs[|s'.disk.logs| - 1].records) && m == MemEntryOf(key, text, e)
  {
    hide DiskInv, CountersOk, MemoryOk, LogSplit, LogBytes, W.Replayed, W.EntriesOf, BatchesOf, MemOf, MemEntryOf;
    var r, last := s.ram.value, |s.disk.logs| - 1;
    var records := s.disk.logs[last].records;
    assert InflightOk(s.disk, r, s.hist);
    torn := n < |LogBytes(extend, key, text, records)|;
    s' := if torn then
      s.(hist := s.hist[..|s.hist| - |r.inflight.value.ops|], ram := None,
         disk := s.disk.(logs := s.disk.logs[last := Log(s.disk.logs[last].number, records[..|records| - 1])]))
    else s.(ram := None);
    CutInLastRecord(extend, key, text, records, n, mem);
    var left := s'.disk.logs[last].records;
    forall m ensures m in mem <==> exists e :: e in MemOf(left) && m == MemEntryOf(key, text, e) {
      ReplaysAgree(key, text, left, m);
    }
  }
}
