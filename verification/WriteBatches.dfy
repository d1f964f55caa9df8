/** Write batches as log records (db/write_batch.cc, db/memtable.cc), and what replaying a log
    file of them adds to the memtable (db/db_impl.cc, `RecoverLogFile`). */
module WriteBatches {
  import opened InternalKeys
  import opened Coding
  import opened ByteKeys
  import LogFormat
  import LogReader

  const HEADER: nat := 12

  datatype Record = PutRecord(key: Bytes, value: Bytes) | DeleteRecord(key: Bytes)

  function KindOf(r: Record): Kind {
    if r.PutRecord? then Value else Deletion
  }

  function RecordBytes(r: Record): (b: Bytes)
    ensures |b| > 0
  {
    match r
    case PutRecord(key, value) => [1] + (SliceBytes(key) + SliceBytes(value))
    case DeleteRecord(key) => [0] + SliceBytes(key)
  }

  function AllBytes(records: seq<Record>): Bytes {
    if records == [] then [] else AllBytes(records[..|records| - 1]) + RecordBytes(records[|records| - 1])
  }

  /** A batch: the sequence number of its first operation, and its operations. */
  datatype BatchRecord = BatchRecord(sequence: nat, records: seq<Record>)

  function BatchBytes(b: BatchRecord): Bytes {
    EncodeFixed64(b.sequence % (WORD * WORD)) + EncodeFixed32(|b.records| % WORD) + AllBytes(b.records)
  }

  /** The widths of the fields, and sequence numbers of 56 bits. */
  predicate BatchOk(b: BatchRecord) {
    && |b.records| < WORD && b.sequence + |b.records| <= MAX_SEQUENCE + 1
    && forall r :: r in b.records ==> RecordOk(r)
  }

  predicate RecordOk(r: Record) {
    |r.key| < WORD && (r.PutRecord? ==> |r.value| < WORD)
  }

  // ---- reading records ----

  datatype Problem = TooSmall | BadPut | BadDelete | UnknownTag | WrongCount

  /** The record at `p` and where it ends, or what is wrong with it. */
  datatype Parsed = Good(record: Record, end: nat) | Bad(problem: Problem)

  function RecordAt(bytes: Bytes, p: nat): (r: Parsed)
    requires p < |bytes|
    ensures r.Good? ==> p < r.end <= |bytes|
    ensures bytes[p] > 1 ==> r == Bad(UnknownTag)
  {
    if bytes[p] == 1 then
      var key := SliceAt(bytes, p + 1);
      if key.None? then Bad(BadPut)
      else
        var value := SliceAt(bytes, key.value.1);
        if value.None? then Bad(BadPut) else Good(PutRecord(key.value.0, value.value.0), value.value.1)
    else if bytes[p] == 0 then
      var key := SliceAt(bytes, p + 1);
      if key.None? then Bad(BadDelete) else Good(DeleteRecord(key.value.0), key.value.1)
    else Bad(UnknownTag)
  }

  /** The records from `p` on, up to the end or a bad one. */
  function RecordsFrom(bytes: Bytes, p: nat): (seq<Record>, Option<Problem>)
    requires p <= |bytes|
    decreases |bytes| - p
  {
    if p == |bytes| then ([], None)
    else
      var r := RecordAt(bytes, p);
      if r.Bad? then ([], Some(r.problem))
      else
        var (records, problem) := RecordsFrom(bytes, r.end);
        ([r.record] + records, problem)
  }

  function CountOf(rep: Bytes): nat
    requires |rep| >= HEADER
  {
    DecodeFixed32(rep[8..12])
  }

  function SequenceOf(rep: Bytes): nat
    requires |rep| >= HEADER
  {
    DecodeFixed64(rep[..8])
  }

  /** What a handler is called with, and the status: the records before a bad one are handled,
      and a wrong count is noticed only after all of them. */
  function Iterated(rep: Bytes): (seq<Record>, Option<Problem>) {
    if |rep| < HEADER then ([], Some(TooSmall))
    else
      var (records, problem) := RecordsFrom(rep, HEADER);
      (records, if problem.None? && |records| != CountOf(rep) then Some(WrongCount) else problem)
  }

  class WriteBatch {
    var rep: Bytes
    ghost var batch: BatchRecord

    /** `rep` encodes the batch. */
    ghost predicate Valid()
      reads this
    {
      BatchOk(batch) && rep == BatchBytes(batch)
    }

    constructor ()
      ensures Valid() && batch == BatchRecord(0, [])
    {
      rep, batch := Zeros(HEADER), BatchRecord(0, []);
      EmptyBatch();
    }

    method SetCount(n: nat)
      requires |rep| >= HEADER && n < WORD
      modifies this`rep
      ensures rep == old(rep[..8]) + EncodeFixed32(n) + old(rep[HEADER..])
    {
      rep := rep[..8] + EncodeFixed32(n) + rep[HEADER..];
    }

    method SetSequence(sequence: nat)
      requires Valid() && sequence + |batch.records| <= MAX_SEQUENCE + 1
      modifies this
      ensures Valid() && batch == BatchRecord(sequence, old(batch.records))
    {
      hide EncodeFixed64, EncodeFixed32, AllBytes, BatchBytes, RecordOk;
      Header(batch);
      Rebuild(rep, batch, sequence);
      rep := EncodeFixed64(sequence) + rep[8..];
      batch := BatchRecord(sequence, batch.records);
    }

    method Put(key: Bytes, value: Bytes)
      requires Valid() && |key| < WORD && |value| < WORD
      requires |batch.records| + 1 < WORD && batch.sequence + |batch.records| <= MAX_SEQUENCE
      modifies this
      ensures Valid() && batch == BatchRecord(old(batch.sequence), old(batch.records) + [PutRecord(key, value)])
    {
      hide SliceBytes, EncodeFixed64, EncodeFixed32, AllBytes, BatchBytes, CountOf, SequenceOf, Iterated;
      Header(batch);
      SetCount(CountOf(rep) + 1);
      ghost var counted, r := rep, PutRecord(key, value);
      rep := rep + [1];
      rep := PutSlice(rep, key);
      rep := PutSlice(rep, value);
      assert rep == counted + RecordBytes(r);
      AddRecord(batch, r);
      batch := BatchRecord(batch.sequence, batch.records + [r]);
    }

    method Delete(key: Bytes)
      requires Valid() && |key| < WORD
      requires |batch.records| + 1 < WORD && batch.sequence + |batch.records| <= MAX_SEQUENCE
      modifies this
      ensures Valid() && batch == BatchRecord(old(batch.sequence), old(batch.records) + [DeleteRecord(key)])
    {
      hide SliceBytes, EncodeFixed64, EncodeFixed32, AllBytes, BatchBytes, CountOf, SequenceOf, Iterated;
      Header(batch);
      SetCount(CountOf(rep) + 1);
      ghost var counted, r := rep, DeleteRecord(key);
      rep := rep + [0];
      rep := PutSlice(rep, key);
      assert rep == counted + RecordBytes(r);
      AddRecord(batch, r);
      batch := BatchRecord(batch.sequence, batch.records + [r]);
    }

    /** The operations of the other batch follow those of this one. */
    method Append(source: WriteBatch)
      requires Valid() && source.Valid() && |batch.records| + |source.batch.records| < WORD
      requires batch.sequence + |batch.records| + |source.batch.records| <= MAX_SEQUENCE + 1
      modifies this
      ensures Valid() && batch == BatchRecord(old(batch.sequence), old(batch.records) + old(source.batch.records))
    {
      hide EncodeFixed64, EncodeFixed32, AllBytes, RecordOk, BatchBytes, CountOf, SequenceOf, Iterated;
      Header(batch);
      Header(source.batch);
      ghost var mine, others := batch.records, source.batch.records;
      var tail := source.rep[HEADER..];
      SetCount(CountOf(rep) + CountOf(source.rep));
      rep := rep + tail;
      AddRecords(batch, others);
      batch := BatchRecord(batch.sequence, mine + others);
    }

    /** Calls a handler for every record; here the calls are returned. */
    method Iterate() returns (calls: seq<Record>, problem: Option<Problem>)
      ensures (calls, problem) == Iterated(rep)
    {
      hide RecordAt, CountOf;
      calls, problem := [], None;
      if |rep| < HEADER {
        return [], Some(TooSmall);
      }
      var p, found := HEADER, 0;
      while p < |rep|
        invariant HEADER <= p <= |rep| && found == |calls|
        invariant RecordsFrom(rep, HEADER).0 == calls + RecordsFrom(rep, p).0
        invariant RecordsFrom(rep, HEADER).1 == RecordsFrom(rep, p).1
        decreases |rep| - p
      {
        found := found + 1;
        var r := RecordAt(rep, p);
        if r.Bad? {
          assert calls + [] == calls;
          return calls, Some(r.problem);
        }
        calls := calls + [r.record];
        p := r.end;
      }
      assert calls + [] == calls;
      if found != CountOf(rep) {
        problem := Some(WrongCount);
      }
    }

    /** Adds the records to a memtable under consecutive sequence numbers. */
    method InsertInto(mem: seq<MemEntry>) returns (mem': seq<MemEntry>, problem: Option<Problem>)
      requires |rep| >= HEADER
      ensures mem' == mem + Numbered(SequenceOf(rep), Iterated(rep).0) && problem == Iterated(rep).1
    {
      hide Iterated, SequenceOf;
      var calls;
      calls, problem := Iterate();
      var sequence := SequenceOf(rep);
      mem' := mem;
      for i := 0 to |calls|
        invariant mem' == mem + Numbered(sequence, calls)[..i]
      {
        mem' := mem' + [MemEntry(calls[i].key, sequence + i, KindOf(calls[i]), if calls[i].PutRecord?
                                 then calls[i].value else [])];
      }
    }
  }

  /** An entry added to the memtable. */
  datatype MemEntry = MemEntry(key: Bytes, sequence: nat, kind: Kind, value: Bytes)

  function Numbered(sequence: nat, records: seq<Record>): (entries: seq<MemEntry>)
    ensures |entries| == |records|
    ensures forall i :: 0 <= i < |records| ==>
      entries[i] == MemEntry(records[i].key, sequence + i, KindOf(records[i]), if records[i].PutRecord?
                             then records[i].value else [])
  {
    seq(|records|, i requires 0 <= i < |records| =>
      MemEntry(records[i].key, sequence + i, KindOf(records[i]), if records[i].PutRecord? then records[i].value
               else []))
  }

  /** `MemTable::Add`: internal key and value, each behind its length, in a buffer of the
      length computed first. */
  method EncodeEntry(e: MemEntry) returns (buf: Bytes, encodedLen: nat)
    requires e.sequence <= MAX_SEQUENCE && |e.key| + 8 < WORD && |e.value| < WORD
    ensures buf == SliceBytes(InternalBytes(e.key, e.sequence, e.kind)) + SliceBytes(e.value)
    ensures encodedLen == |buf|
  {
    hide EncodeVarint, EncodeFixed64;
    var keyLen := VarintLength(|e.key| + 8);
    var valueLen := VarintLength(|e.value|);
    encodedLen := keyLen + (|e.key| + 8) + valueLen + |e.value|;
    var keySize := EncodeVarint32(|e.key| + 8);
    var valueSize := EncodeVarint32(|e.value|);
    buf := keySize + e.key;
    buf := buf + EncodeFixed64(e.sequence * 256 + (if e.kind.Value? then 1 else 0));
    buf := buf + valueSize;
    buf := buf + e.value;
    assert buf == SliceBytes(InternalBytes(e.key, e.sequence, e.kind)) + SliceBytes(e.value);
  }

  /** Reading an encoded entry gives its user key, number, type and value back. */
  lemma EntryRoundTrip(e: MemEntry)
    requires e.sequence <= MAX_SEQUENCE && |e.key| + 8 < WORD && |e.value| < WORD
    ensures var k := InternalBytes(e.key, e.sequence, e.kind); var buf := SliceBytes(k) + SliceBytes(e.value);
      && SliceAt(buf, 0) == Some((k, |SliceBytes(k)|)) && SliceAt(buf, |SliceBytes(k)|) == Some((e.value, |buf|))
      && UserOf(k) == e.key && TrailerOf(k) / 256 == e.sequence && (TrailerOf(k) % 256 == 1 <==> e.kind.Value?)
  {
    hide SliceBytes, SliceAt, UserOf, TrailerOf, InternalBytes;
    var k := InternalBytes(e.key, e.sequence, e.kind);
    var buf := SliceBytes(k) + SliceBytes(e.value);
    assert Has(buf, 0, SliceBytes(k) + SliceBytes(e.value));
    HasSplit(buf, 0, SliceBytes(k), SliceBytes(e.value));
    SliceRoundTrip(buf, 0, k);
    SliceRoundTrip(buf, |SliceBytes(k)|, e.value);
    InternalParts(e.key, e.sequence, e.kind);
  }

  // ---- reading back what was written ----

  lemma EmptyBatch()
    ensures Zeros(HEADER) == BatchBytes(BatchRecord(0, []))
  {
    assert Zeros(4) == [0, 0, 0, 0];
    assert Zeros(8) == Zeros(4) + [0, 0, 0, 0];
    assert Zeros(12) == Zeros(8) + [0, 0, 0, 0];
  }

  lemma Header(b: BatchRecord)
    requires BatchOk(b)
    ensures var rep := BatchBytes(b);
      && |rep| >= HEADER && SequenceOf(rep) == b.sequence && CountOf(rep) == |b.records|
      && rep[HEADER..] == AllBytes(b.records)
      && rep[..8] == EncodeFixed64(b.sequence)
  {
    hide EncodeFixed64, EncodeFixed32, DecodeFixed64, DecodeFixed32, AllBytes;
    var rep := BatchBytes(b);
    assert rep[..8] == EncodeFixed64(b.sequence) && rep[8..12] == EncodeFixed32(|b.records|);
    Fixed64RoundTrip(b.sequence);
    Fixed32RoundTrip(|b.records|);
  }

  lemma Rebuild(rep: Bytes, b: BatchRecord, sequence: nat)
    requires BatchOk(b) && rep == BatchBytes(b) && sequence <= MAX_SEQUENCE + 1
    ensures |rep| >= HEADER && EncodeFixed64(sequence) + rep[8..] == BatchBytes(BatchRecord(sequence, b.records))
  {
    hide EncodeFixed64, EncodeFixed32, AllBytes, RecordOk, BatchBytes;
    Widths(b);
    Widths(BatchRecord(sequence, b.records));
    assert rep[8..] == EncodeFixed32(|b.records|) + AllBytes(b.records);
  }

  lemma Widths(b: BatchRecord)
    requires |b.records| < WORD && b.sequence <= MAX_SEQUENCE + 1
    ensures BatchBytes(b) == EncodeFixed64(b.sequence) + EncodeFixed32(|b.records|) + AllBytes(b.records)
  {
    assert b.sequence % (WORD * WORD) == b.sequence && |b.records| % WORD == |b.records|;
  }

  lemma AddRecords(b: BatchRecord, others: seq<Record>)
    requires BatchOk(b) && |b.records| + |others| < WORD
    ensures BatchBytes(BatchRecord(b.sequence, b.records + others)) ==
            EncodeFixed64(b.sequence) + EncodeFixed32(|b.records| + |others|) + AllBytes(b.records) + AllBytes(others)
  {
    hide EncodeFixed64, EncodeFixed32, AllBytes, RecordOk, BatchBytes;
    Widths(BatchRecord(b.sequence, b.records + others));
    AllBytesAppend(b.records, others);
    Associative(EncodeFixed64(b.sequence) + EncodeFixed32(|b.records| + |others|), AllBytes(b.records),
                AllBytes(others));
  }

  lemma Associative(a: Bytes, b: Bytes, c: Bytes)
    ensures a + (b + c) == a + b + c
  {
  }

  lemma AddRecord(b: BatchRecord, r: Record)
    requires BatchOk(b) && |b.records| + 1 < WORD
    ensures BatchBytes(BatchRecord(b.sequence, b.records + [r])) ==
            EncodeFixed64(b.sequence) + EncodeFixed32(|b.records| + 1) + AllBytes(b.records) + RecordBytes(r)
  {
    hide BatchBytes, EncodeFixed64, EncodeFixed32, AllBytes, RecordBytes, RecordOk;
    AddRecords(b, [r]);
    OneRecord(r);
  }

  lemma {:induction false} AllBytesAppend(a: seq<Record>, b: seq<Record>)
    ensures AllBytes(a + b) == AllBytes(a) + AllBytes(b)
  {
    hide RecordBytes;
    if b == [] {
      assert a + b == a;
    } else {
      var init, last := b[..|b| - 1], b[|b| - 1];
      assert (a + b)[..|a + b| - 1] == a + init;
      AllBytesAppend(a, init);
      Associative(AllBytes(a), AllBytes(init), RecordBytes(last));
    }
  }

  lemma RecordRoundTrip(bytes: Bytes, p: nat, r: Record)
    requires RecordOk(r) && Has(bytes, p, RecordBytes(r))
    ensures p < |bytes| && RecordAt(bytes, p) == Good(r, p + |RecordBytes(r)|)
  {
    match r
    case PutRecord(key, value) => PutRoundTrip(bytes, p, key, value);
    case DeleteRecord(key) => DeleteRoundTrip(bytes, p, key);
  }

  lemma PutRoundTrip(bytes: Bytes, p: nat, key: Bytes, value: Bytes)
    requires |key| < WORD && |value| < WORD && Has(bytes, p, [1] + (SliceBytes(key) + SliceBytes(value)))
    ensures p < |bytes|
    ensures RecordAt(bytes, p) == Good(PutRecord(key, value), p + 1 + |SliceBytes(key)| + |SliceBytes(value)|)
  {
    hide SliceBytes, SliceAt, Has, RecordAt;
    HasSplit(bytes, p, [1], SliceBytes(key) + SliceBytes(value));
    HasSplit(bytes, p + 1, SliceBytes(key), SliceBytes(value));
    HasByte(bytes, p, 1);
    SliceRoundTrip(bytes, p + 1, key);
    SliceRoundTrip(bytes, p + 1 + |SliceBytes(key)|, value);
    RecordAtIs(bytes, p);
  }

  lemma DeleteRoundTrip(bytes: Bytes, p: nat, key: Bytes)
    requires |key| < WORD && Has(bytes, p, [0] + SliceBytes(key))
    ensures p < |bytes| && RecordAt(bytes, p) == Good(DeleteRecord(key), p + 1 + |SliceBytes(key)|)
  {
    hide SliceBytes, SliceAt, Has, RecordAt;
    HasSplit(bytes, p, [0], SliceBytes(key));
    HasByte(bytes, p, 0);
    SliceRoundTrip(bytes, p + 1, key);
    RecordAtIs(bytes, p);
  }

  /** A record whose parts parse. */
  lemma RecordAtIs(bytes: Bytes, p: nat)
    ensures p < |bytes| && bytes[p] == 1 && SliceAt(bytes, p + 1).Some? ==>
      var key := SliceAt(bytes, p + 1).value;
      var value := SliceAt(bytes, key.1);
      value.Some? ==> RecordAt(bytes, p) == Good(PutRecord(key.0, value.value.0), value.value.1)
    ensures p < |bytes| && bytes[p] == 0 && SliceAt(bytes, p + 1).Some? ==>
      var key := SliceAt(bytes, p + 1).value;
      RecordAt(bytes, p) == Good(DeleteRecord(key.0), key.1)
  {
    hide SliceAt;
  }

  lemma HasByte(bytes: Bytes, p: nat, b: Byte)
    requires Has(bytes, p, [b])
    ensures p < |bytes| && bytes[p] == b
  {
    assert bytes[p..p + 1][0] == b;
  }

  lemma {:induction false} RecordsRoundTrip(bytes: Bytes, p: nat, records: seq<Record>)
    requires (forall r :: r in records ==> RecordOk(r)) && p + |AllBytes(records)| == |bytes|
    requires Has(bytes, p, AllBytes(records))
    ensures RecordsFrom(bytes, p) == (records, None)
    decreases records
  {
    hide RecordBytes, RecordAt, Has, RecordOk;
    if records != [] {
      var r, rest := records[0], records[1..];
      assert records == [r] + rest;
      AllBytesAppend([r], rest);
      OneRecord(r);
      HasSplit(bytes, p, RecordBytes(r), AllBytes(rest));
      RecordRoundTrip(bytes, p, r);
      RecordsRoundTrip(bytes, p + |RecordBytes(r)|, rest);
    }
  }

  lemma OneRecord(r: Record)
    ensures AllBytes([r]) == RecordBytes(r)
  {
    hide RecordBytes;
    assert [r][..0] == [];
    assert AllBytes([]) == [];
  }

  /** A batch is read back record by record, with its count right. */
  lemma BatchRoundTrip(b: BatchRecord)
    requires BatchOk(b)
    ensures Iterated(BatchBytes(b)) == (b.records, None)
    ensures |BatchBytes(b)| >= HEADER && SequenceOf(BatchBytes(b)) == b.sequence
    ensures CountOf(BatchBytes(b)) == |b.records|
  {
    hide BatchBytes, AllBytes, SequenceOf, CountOf, RecordsFrom, RecordOk;
    Header(b);
    var rep := BatchBytes(b);
    assert Has(rep, HEADER, AllBytes(b.records)) by {
      assert rep[HEADER..HEADER + |AllBytes(b.records)|] == rep[HEADER..];
    }
    RecordsRoundTrip(rep, HEADER, b.records);
  }

  // ---- a batch cut off ----

  /** A record that is cut off is bad. */
  lemma RecordCut(bytes: Bytes, p: nat, r: Record, cut: nat)
    requires RecordOk(r) && 0 < cut && CutOff(bytes, p, RecordBytes(r), cut)
    ensures p < |bytes| && RecordAt(bytes, p) == Bad(BadOf(r))
  {
    hide SliceBytes, SliceAt, Has, CutOff;
    var k := SliceBytes(r.key);
    TypeByte(bytes, p, r, cut);
    if r.PutRecord? {
      CutSplit(bytes, p + 1, k, SliceBytes(r.value), cut - 1);
    }
    if cut - 1 < |k| || r.DeleteRecord? {
      SliceCut(bytes, p + 1, r.key, cut - 1);
    } else {
      SliceRoundTrip(bytes, p + 1, r.key);
      SliceCut(bytes, p + 1 + |k|, r.value, cut - 1 - |k|);
    }
  }

  function BadOf(r: Record): Problem {
    if r.PutRecord? then BadPut else BadDelete
  }

  lemma TypeByte(bytes: Bytes, p: nat, r: Record, cut: nat)
    requires 0 < cut && CutOff(bytes, p, RecordBytes(r), cut)
    ensures p < |bytes| && bytes[p] == if r.PutRecord? then 1 else 0
    ensures CutOff(bytes, p + 1, if r.PutRecord? then SliceBytes(r.key) + SliceBytes(r.value) else SliceBytes(r.key),
                   cut - 1)
  {
    hide SliceBytes, CutOff;
    var t: Byte := if r.PutRecord? then 1 else 0;
    CutSplit(bytes, p, [t], if r.PutRecord? then SliceBytes(r.key) + SliceBytes(r.value) else SliceBytes(r.key), cut);
    HasByte(bytes, p, t);
  }

  /** The first `k` records lie wholly in the first `cut` bytes, and the next does not. */
  ghost predicate WholeRecords(records: seq<Record>, cut: nat, k: nat) {
    k < |records| && |AllBytes(records[..k])| <= cut < |AllBytes(records[..k + 1])|
  }

  lemma {:induction false} RecordsCut(bytes: Bytes, p: nat, records: seq<Record>, cut: nat) returns (k: nat)
    requires (forall r :: r in records ==> RecordOk(r)) && CutOff(bytes, p, AllBytes(records), cut) && p <= |bytes|
    ensures WholeRecords(records, cut, k)
    ensures RecordsFrom(bytes, p) ==
            (records[..k], if |AllBytes(records[..k])| == cut then None else Some(BadOf(records[k])))
    decreases records
  {
    hide RecordBytes, RecordAt, RecordOk, Has, CutOff, AllBytes;
    NotEmpty(bytes, p, records, cut);
    var r, rest := records[0], records[1..];
    assert records == [r] + rest;
    AllBytesAppend([r], rest);
    OneRecord(r);
    CutSplit(bytes, p, RecordBytes(r), AllBytes(rest), cut);
    if cut < |RecordBytes(r)| {
      k := 0;
      assert records[..0] == [] && records[..1] == [r];
      if cut > 0 { RecordCut(bytes, p, r, cut); }
    } else {
      RecordRoundTrip(bytes, p, r);
      var j := RecordsCut(bytes, p + |RecordBytes(r)|, rest, cut - |RecordBytes(r)|);
      k := j + 1;
      OneMore(r, rest, j);
      OneMore(r, rest, j + 1);
    }
  }

  lemma NotEmpty(bytes: Bytes, p: nat, records: seq<Record>, cut: nat)
    requires CutOff(bytes, p, AllBytes(records), cut)
    ensures records != [] && p + cut == |bytes| && AllBytes([]) == []
  {
  }

  lemma OneMore(r: Record, rest: seq<Record>, j: nat)
    requires j <= |rest|
    ensures ([r] + rest)[..j + 1] == [r] + rest[..j]
    ensures |AllBytes(([r] + rest)[..j + 1])| == |RecordBytes(r)| + |AllBytes(rest[..j])|
  {
    hide AllBytes, RecordBytes;
    assert ([r] + rest)[..j + 1] == [r] + rest[..j];
    AllBytesAppend([r], rest[..j]);
    OneRecord(r);
  }

  /** A batch that is cut off anywhere is reported: the records wholly before the cut are handled,
      and then the record with the cut in it is bad or, at a cut between records, the count is. */
  lemma CutBatchReported(b: BatchRecord, cut: nat)
    requires BatchOk(b) && cut < |BatchBytes(b)|
    ensures cut < HEADER ==> Iterated(BatchBytes(b)[..cut]) == ([], Some(TooSmall))
    ensures cut >= HEADER ==> exists k: nat ::
      WholeRecords(b.records, cut - HEADER, k) && Iterated(BatchBytes(b)[..cut]) ==
      (b.records[..k],
       Some(if |AllBytes(b.records[..k])| == cut - HEADER then WrongCount else BadOf(b.records[k])))
  {
    hide BatchBytes, AllBytes, RecordsFrom, RecordOk, SequenceOf, WholeRecords, RecordBytes;
    Header(b);
    if cut >= HEADER {
      var rep := BatchBytes(b)[..cut];
      assert rep[8..12] == BatchBytes(b)[8..12];
      assert rep[HEADER..] == BatchBytes(b)[HEADER..][..cut - HEADER];
      var k := RecordsCut(rep, HEADER, b.records, cut - HEADER);
      FewerRecords(b.records, cut - HEADER, k);
    }
  }

  lemma FewerRecords(records: seq<Record>, cut: nat, k: nat)
    requires WholeRecords(records, cut, k)
    ensures k < |records| && |records[..k]| == k
  {
  }

  // ---- replaying a log ----

  function RepsOf(batches: seq<BatchRecord>): (reps: seq<Bytes>)
    ensures |reps| == |batches| && forall i :: 0 <= i < |batches| ==> reps[i] == BatchBytes(batches[i])
  {
    seq(|batches|, i requires 0 <= i < |batches| => BatchBytes(batches[i]))
  }

  /** What the batches add to a memtable. */
  function EntriesOf(batches: seq<BatchRecord>): seq<MemEntry> {
    if batches == [] then []
    else
      var last := batches[|batches| - 1];
      EntriesOf(batches[..|batches| - 1]) + Numbered(last.sequence, last.records)
  }

  /** The largest number of an operation, of these batches or before. */
  function LastSequence(batches: seq<BatchRecord>, before: nat): nat {
    if batches == [] then before
    else Later(batches[|batches| - 1], LastSequence(batches[..|batches| - 1], before))
  }

  function Later(b: BatchRecord, before: nat): nat {
    if b.sequence + |b.records| > before + 1 then b.sequence + |b.records| - 1 else before
  }

  /** `mem` holds exactly the entries of the batches that lie wholly in the first `n` bytes of
      their log. */
  ghost predicate Replayed(extend: (nat, Bytes) -> nat, batches: seq<BatchRecord>, n: nat, mem: seq<MemEntry>) {
    exists k: nat :: k <= |batches| && LogReader.WhollyIn(extend, RepsOf(batches), n, k) &&
      mem == EntriesOf(batches[..k])
  }

  lemma LastSequenceSnoc(batches: seq<BatchRecord>, i: nat, before: nat)
    requires i < |batches|
    ensures EntriesOf(batches[..i + 1]) == EntriesOf(batches[..i]) + Numbered(batches[i].sequence, batches[i].records)
    ensures LastSequence(batches[..i + 1], before) == Later(batches[i], LastSequence(batches[..i], before))
  {
    assert batches[..i + 1][..i] == batches[..i];
  }

  lemma {:induction false} EntriesUpTo(batches: seq<BatchRecord>, before: nat)
    ensures before <= LastSequence(batches, before)
    ensures forall e :: e in EntriesOf(batches) ==> e.sequence <= LastSequence(batches, before)
  {
    if batches != [] { EntriesUpTo(batches[..|batches| - 1], before); }
  }

  /** One record of the log: its operations go to the memtable, and their numbers are noted. */
  method ReplayRecord(rep: Bytes, mem: seq<MemEntry>, maxSequence: nat, ghost b: BatchRecord)
    returns (mem': seq<MemEntry>, maxSequence': nat)
    requires |rep| >= HEADER
    ensures maxSequence' >= maxSequence
    ensures BatchOk(b) && rep == BatchBytes(b) ==>
      mem' == mem + Numbered(b.sequence, b.records) && maxSequence' == Later(b, maxSequence)
  {
    hide BatchOk, BatchBytes, Iterated, SequenceOf, CountOf;
    if BatchOk(b) && rep == BatchBytes(b) { BatchRoundTrip(b); }
    var batch := new WriteBatch();
    batch.rep := rep; // SetContents
    var problem;
    mem', problem := batch.InsertInto(mem);
    var lastSequence := SequenceOf(batch.rep) + CountOf(batch.rep) - 1;
    maxSequence' := if lastSequence > maxSequence then lastSequence else maxSequence;
  }

  /** `RecoverLogFile`: every record that is read is a batch; its records go to the memtable.
      From a log of batches cut off anywhere, exactly the batches that lie wholly in the file are
      replayed, nothing is reported, and the largest sequence number is that of their last operation
      or of those before. */
  method RecoverLogFile(extend: (nat, Bytes) -> nat, file: Bytes, maxSequence: nat, ghost batches: seq<BatchRecord>)
    returns (mem: seq<MemEntry>, maxSequence': nat, drops: seq<nat>)
    ensures maxSequence' >= maxSequence
    ensures LogFormat.CrcLaw(extend) && (forall b :: b in batches ==> BatchOk(b)) &&
            file <= LogFormat.LogOf(extend, RepsOf(batches)) ==>
      drops == [] && Replayed(extend, batches, |file|, mem) && forall e :: e in mem ==> e.sequence <= maxSequence'
    ensures LogFormat.CrcLaw(extend) && (forall b :: b in batches ==> BatchOk(b)) &&
            file <= LogFormat.LogOf(extend, RepsOf(batches)) ==>
      exists k: nat :: k <= |batches| && mem == EntriesOf(batches[..k]) &&
        maxSequence' == LastSequence(batches[..k], maxSequence)
  {
    hide LogFormat.CrcLaw, LogFormat.LogOf, LogReader.WhollyIn, LogReader.RecordsBefore, BatchOk, BatchBytes, EntriesOf,
      LastSequence, Later;
    var records;
    ghost var before;
    records, drops, before := LogReader.ReadLog(extend, file, RepsOf(batches), 0);
    assert file[0..] == file && records[0..] == records;
    ghost var good := LogFormat.CrcLaw(extend) && (forall b :: b in batches ==> BatchOk(b)) &&
      file <= LogFormat.LogOf(extend, RepsOf(batches));
    mem, maxSequence' := [], maxSequence;
    NothingReplayed(maxSequence);
    assert batches[..0] == [];
    for i := 0 to |records|
      invariant maxSequence' >= maxSequence && (good ==> drops == [])
      invariant good ==>
                  mem == EntriesOf(batches[..i]) && maxSequence' == LastSequence(batches[..i], maxSequence)
    {
      ghost var b := BatchRecord(0, []);
      if good {
        b := batches[i];
        assert records[i] == RepsOf(batches)[i] == BatchBytes(b);
        BatchRoundTrip(b);
        LastSequenceSnoc(batches, i, maxSequence);
      }
      if |records[i]| < HEADER {
        drops := drops + [|records[i]|];
      } else {
        mem, maxSequence' := ReplayRecord(records[i], mem, maxSequence', b);
      }
    }
    if good { EntriesUpTo(batches[..|records|], maxSequence); }
  }

  lemma NothingReplayed(before: nat)
    ensures EntriesOf([]) == [] && LastSequence([], before) == before
  {
  }

  /** Logging batches one after the other, losing everything from some byte on, and replaying. */
  method LogAndRecover(extend: (nat, Bytes) -> nat, batches: seq<BatchRecord>, cut: nat) returns (mem: seq<MemEntry>)
    requires LogFormat.CrcLaw(extend) && forall b :: b in batches ==> BatchOk(b)
    ensures Replayed(extend, batches, if cut < |LogFormat.LogOf(extend, RepsOf(batches))| then cut
                     else |LogFormat.LogOf(extend, RepsOf(batches))|, mem)
  {
    hide LogFormat.CrcLaw, LogFormat.LogOf, LogReader.WhollyIn, BatchOk, BatchBytes, Replayed;
    var file := LogReader.WriteLog(extend, RepsOf(batches));
    if cut < |file| {
      file := file[..cut];
    }
    var maxSequence, drops;
    mem, maxSequence, drops := RecoverLogFile(extend, file, 0, batches);
  }
}
