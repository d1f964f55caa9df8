/** Version edits as MANIFEST records (db/version_edit.cc): writing and parsing tagged fields. */
module VersionEdits {
  import opened InternalKeys
  import opened Coding

  const COMPARATOR: nat := 1
  const LOG_NUMBER: nat := 2
  const NEXT_FILE_NUMBER: nat := 3
  const LAST_SEQUENCE: nat := 4
  const COMPACT_POINTER: nat := 5
  const DELETED_FILE: nat := 6
  const NEW_FILE: nat := 7
  const PREV_LOG_NUMBER: nat := 9

  datatype FileRecord = FileRecord(level: nat, number: nat, size: nat, smallest: Bytes, largest: Bytes)

  /** What an edit says. Deleted files are in the order of the set that holds them. */
  datatype EditRecord = EditRecord(
    comparator: Option<Bytes>, logNumber: Option<nat>, prevLogNumber: Option<nat>, nextFile: Option<nat>,
    lastSequence: Option<nat>, compactPointers: seq<(nat, Bytes)>, deleted: seq<(nat, nat)>, added: seq<FileRecord>)

  // ---- fields ----

  datatype Field =
    | Comparator(name: Bytes)
    | LogNumber(n: nat)
    | PrevLogNumber(n: nat)
    | NextFile(n: nat)
    | LastSequence(n: nat)
    | CompactPointer(level: nat, key: Bytes)
    | DeletedFile(level: nat, n: nat)
    | NewFile(file: FileRecord)

  function TagOf(f: Field): nat {
    match f
    case Comparator(_) => COMPARATOR
    case LogNumber(_) => LOG_NUMBER
    case PrevLogNumber(_) => PREV_LOG_NUMBER
    case NextFile(_) => NEXT_FILE_NUMBER
    case LastSequence(_) => LAST_SEQUENCE
    case CompactPointer(_, _) => COMPACT_POINTER
    case DeletedFile(_, _) => DELETED_FILE
    case NewFile(_) => NEW_FILE
  }

  function PayloadBytes(f: Field): Bytes {
    match f
    case Comparator(name) => SliceBytes(name)
    case LogNumber(n) => EncodeVarint(n)
    case PrevLogNumber(n) => EncodeVarint(n)
    case NextFile(n) => EncodeVarint(n)
    case LastSequence(n) => EncodeVarint(n)
    case CompactPointer(level, key) => EncodeVarint(level) + SliceBytes(key)
    case DeletedFile(level, n) => EncodeVarint(level) + EncodeVarint(n)
    case NewFile(file) =>
      EncodeVarint(file.level) + (EncodeVarint(file.number) + (EncodeVarint(file.size) +
      (SliceBytes(file.smallest) + SliceBytes(file.largest))))
  }

  function FieldBytes(f: Field): (bytes: Bytes)
    ensures |bytes| > 0
  {
    EncodeVarint(TagOf(f)) + PayloadBytes(f)
  }

  /** The widths of the fields: 32-bit lengths, 64-bit numbers, seven levels. */
  predicate FieldOk(f: Field) {
    match f
    case Comparator(name) => |name| < WORD
    case LogNumber(n) => n < DOUBLE_WORD
    case PrevLogNumber(n) => n < DOUBLE_WORD
    case NextFile(n) => n < DOUBLE_WORD
    case LastSequence(n) => n < DOUBLE_WORD
    case CompactPointer(level, key) => level < NUM_LEVELS && |key| < WORD
    case DeletedFile(level, n) => level < NUM_LEVELS && n < DOUBLE_WORD
    case NewFile(file) => FileOk(file)
  }

  predicate FileOk(file: FileRecord) {
    && file.level < NUM_LEVELS && file.number < DOUBLE_WORD && file.size < DOUBLE_WORD
    && |file.smallest| < WORD && |file.largest| < WORD
  }

  // ---- reading ----

  function LevelAt(bytes: Bytes, p: nat): (r: Option<(nat, nat)>)
    ensures r.Some? ==> p < r.value.1 <= |bytes|
  {
    var v := Word32At(bytes, p);
    if v.None? || v.value.0 >= NUM_LEVELS then None else v
  }

  function FileAt(bytes: Bytes, p: nat): (r: Option<(FileRecord, nat)>)
    ensures r.Some? ==> p < r.value.1 <= |bytes|
  {
    var level := LevelAt(bytes, p);
    if level.None? then None else
    var number := Word64At(bytes, level.value.1);
    if number.None? then None else
    var size := Word64At(bytes, number.value.1);
    if size.None? then None else
    var smallest := SliceAt(bytes, size.value.1);
    if smallest.None? then None else
    var largest := SliceAt(bytes, smallest.value.1);
    if largest.None? then None else
    Some((FileRecord(level.value.0, number.value.0, size.value.0, smallest.value.0, largest.value.0), largest.value.1))
  }

  /** The field of that tag whose payload starts at `p`, and where it ends. */
  function PayloadAt(bytes: Bytes, p: nat, tag: nat): (r: Option<(Field, nat)>)
    ensures r.Some? ==> p < r.value.1 <= |bytes|
  {
    if tag == COMPARATOR then
      var name := SliceAt(bytes, p);
      if name.None? then None else Some((Comparator(name.value.0), name.value.1))
    else if tag == LOG_NUMBER || tag == PREV_LOG_NUMBER || tag == NEXT_FILE_NUMBER || tag == LAST_SEQUENCE then
      var n := Word64At(bytes, p);
      if n.None? then None else Some((NumberField(tag, n.value.0), n.value.1))
    else if tag == COMPACT_POINTER || tag == DELETED_FILE then
      var level := LevelAt(bytes, p);
      if level.None? then None
      else if tag == COMPACT_POINTER then
        var key := SliceAt(bytes, level.value.1);
        if key.None? then None else Some((CompactPointer(level.value.0, key.value.0), key.value.1))
      else
        var n := Word64At(bytes, level.value.1);
        if n.None? then None else Some((DeletedFile(level.value.0, n.value.0), n.value.1))
    else if tag == NEW_FILE then
      var file := FileAt(bytes, p);
      if file.None? then None else Some((NewFile(file.value.0), file.value.1))
    else None
  }

  function NumberField(tag: nat, n: nat): Field {
    if tag == LOG_NUMBER then LogNumber(n)
    else if tag == PREV_LOG_NUMBER then PrevLogNumber(n)
    else if tag == NEXT_FILE_NUMBER then NextFile(n)
    else LastSequence(n)
  }

  /** What a parse complains about: the field with that tag, or a tag that does not parse. */
  datatype Problem = BadField(tag: nat) | UnknownTag | InvalidTag

  function ProblemOf(tag: nat): Problem {
    if 1 <= tag <= NEW_FILE || tag == PREV_LOG_NUMBER then BadField(tag) else UnknownTag
  }

  // ---- edits as fields ----

  function InsertPair(set_: seq<(nat, nat)>, x: (nat, nat)): seq<(nat, nat)> {
    if set_ == [] || PairBefore(x, set_[0]) then [x] + set_
    else if set_[0] == x then set_
    else [set_[0]] + InsertPair(set_[1..], x)
  }

  predicate PairBefore(a: (nat, nat), b: (nat, nat)) {
    a.0 < b.0 || (a.0 == b.0 && a.1 < b.1)
  }

  ghost predicate PairsAscend(s: seq<(nat, nat)>) {
    forall i, j :: 0 <= i < j < |s| ==> PairBefore(s[i], s[j])
  }

  function ApplyField(e: EditRecord, f: Field): EditRecord {
    match f
    case Comparator(name) => e.(comparator := Some(name))
    case LogNumber(n) => e.(logNumber := Some(n))
    case PrevLogNumber(n) => e.(prevLogNumber := Some(n))
    case NextFile(n) => e.(nextFile := Some(n))
    case LastSequence(n) => e.(lastSequence := Some(n))
    case CompactPointer(level, key) => e.(compactPointers := e.compactPointers + [(level, key)])
    case DeletedFile(level, n) => e.(deleted := InsertPair(e.deleted, (level, n)))
    case NewFile(file) => e.(added := e.added + [file])
  }

  function ApplyFields(e: EditRecord, fields: seq<Field>): EditRecord
    decreases fields
  {
    if fields == [] then e else ApplyFields(ApplyField(e, fields[0]), fields[1..])
  }

  /** Parsing from `p` on, filling `e`; fields before a problem have taken effect. */
  function Parse(bytes: Bytes, p: nat, e: EditRecord): (EditRecord, Option<Problem>)
    decreases |bytes| - p
  {
    var tag := Word32At(bytes, p);
    if tag.None? then (e, if p < |bytes| then Some(InvalidTag) else None)
    else
      var field := PayloadAt(bytes, tag.value.1, tag.value.0);
      if field.None? then (e, Some(ProblemOf(tag.value.0)))
      else Parse(bytes, field.value.1, ApplyField(e, field.value.0))
  }

  /** `Clear` resets everything but the compaction pointers. */
  function Cleared(e: EditRecord): EditRecord {
    EditRecord(None, None, None, None, None, e.compactPointers, [], [])
  }

  function PointerFields(ps: seq<(nat, Bytes)>): (fields: seq<Field>)
    ensures |fields| == |ps| && forall i :: 0 <= i < |ps| ==> fields[i] == CompactPointer(ps[i].0, ps[i].1)
  {
    seq(|ps|, i requires 0 <= i < |ps| => CompactPointer(ps[i].0, ps[i].1))
  }

  function DeletedFields(ds: seq<(nat, nat)>): (fields: seq<Field>)
    ensures |fields| == |ds| && forall i :: 0 <= i < |ds| ==> fields[i] == DeletedFile(ds[i].0, ds[i].1)
  {
    seq(|ds|, i requires 0 <= i < |ds| => DeletedFile(ds[i].0, ds[i].1))
  }

  function FileFields(fs: seq<FileRecord>): (fields: seq<Field>)
    ensures |fields| == |fs| && forall i :: 0 <= i < |fs| ==> fields[i] == NewFile(fs[i])
  {
    seq(|fs|, i requires 0 <= i < |fs| => NewFile(fs[i]))
  }

  /** The single-valued fields in the order they are written. */
  function HeadFields(e: EditRecord): seq<Field> {
    (if e.comparator.Some? then [Comparator(e.comparator.value)] else []) +
    (if e.logNumber.Some? then [LogNumber(e.logNumber.value)] else []) +
    (if e.prevLogNumber.Some? then [PrevLogNumber(e.prevLogNumber.value)] else []) +
    (if e.nextFile.Some? then [NextFile(e.nextFile.value)] else []) +
    (if e.lastSequence.Some? then [LastSequence(e.lastSequence.value)] else [])
  }

  function FieldsOf(e: EditRecord): seq<Field> {
    HeadFields(e) + PointerFields(e.compactPointers) + DeletedFields(e.deleted) + FileFields(e.added)
  }

  function AllBytes(fields: seq<Field>): Bytes {
    if fields == [] then [] else AllBytes(fields[..|fields| - 1]) + FieldBytes(fields[|fields| - 1])
  }

  ghost predicate EditOk(e: EditRecord) {
    && PairsAscend(e.deleted)
    && forall f :: f in FieldsOf(e) ==> FieldOk(f)
  }

  class VersionEdit {
    var comparator: Option<Bytes>
    var logNumber: Option<nat>
    var prevLogNumber: Option<nat>
    var nextFile: Option<nat>
    var lastSequence: Option<nat>
    var compactPointers: seq<(nat, Bytes)>
    var deletedFiles: seq<(nat, nat)>
    var newFiles: seq<FileRecord>

    function Value(): EditRecord
      reads this
    {
      EditRecord(comparator, logNumber, prevLogNumber, nextFile, lastSequence, compactPointers, deletedFiles, newFiles)
    }

    constructor ()
      ensures Value() == EditRecord(None, None, None, None, None, [], [], [])
    {
      comparator, logNumber, prevLogNumber, nextFile, lastSequence := None, None, None, None, None;
      compactPointers, deletedFiles, newFiles := [], [], [];
    }

    /** Resets everything but the compaction pointers. */
    method Clear()
      modifies this
      ensures Value() == Cleared(old(Value()))
    {
      comparator, logNumber, prevLogNumber, nextFile, lastSequence := None, None, None, None, None;
      deletedFiles, newFiles := [], [];
    }

    /** Appends the record of the edit. */
    method EncodeTo(dst: Bytes) returns (dst': Bytes)
      ensures dst' == dst + AllBytes(FieldsOf(Value()))
    {
      hide FieldBytes, AllBytes, HeadFields;
      ghost var head, ps, ds, fs := HeadFields(Value()), PointerFields(compactPointers), DeletedFields(deletedFiles),
        FileFields(newFiles);
      NoBytes([]);
      dst' := EncodeHead(dst);
      assert head + ps[..0] == head;
      for i := 0 to |compactPointers|
        invariant dst' == dst + AllBytes(head + ps[..i])
      {
        dst' := PutField(dst', CompactPointer(compactPointers[i].0, compactPointers[i].1), dst, head + ps[..i]);
        assert head + ps[..i] + [ps[i]] == head + ps[..i + 1];
      }
      assert ps[..|ps|] == ps && head + ps + ds[..0] == head + ps;
      for i := 0 to |deletedFiles|
        invariant dst' == dst + AllBytes(head + ps + ds[..i])
      {
        dst' := PutField(dst', DeletedFile(deletedFiles[i].0, deletedFiles[i].1), dst, head + ps + ds[..i]);
        assert head + ps + ds[..i] + [ds[i]] == head + ps + ds[..i + 1];
      }
      assert ds[..|ds|] == ds && head + ps + ds + fs[..0] == head + ps + ds;
      for i := 0 to |newFiles|
        invariant dst' == dst + AllBytes(head + ps + ds + fs[..i])
      {
        dst' := PutField(dst', NewFile(newFiles[i]), dst, head + ps + ds + fs[..i]);
        assert head + ps + ds + fs[..i] + [fs[i]] == head + ps + ds + fs[..i + 1];
      }
      assert fs[..|fs|] == fs;
    }

    /** The fields an edit has at most once. */
    method EncodeHead(dst: Bytes) returns (dst': Bytes)
      ensures dst' == dst + AllBytes(HeadFields(Value()))
    {
      hide FieldBytes, AllBytes;
      dst' := dst;
      ghost var written: seq<Field> := [];
      NoBytes([]);
      if comparator.Some? {
        dst' := PutField(dst', Comparator(comparator.value), dst, written);
        written := written + [Comparator(comparator.value)];
      }
      if logNumber.Some? {
        dst' := PutField(dst', LogNumber(logNumber.value), dst, written);
        written := written + [LogNumber(logNumber.value)];
      }
      if prevLogNumber.Some? {
        dst' := PutField(dst', PrevLogNumber(prevLogNumber.value), dst, written);
        written := written + [PrevLogNumber(prevLogNumber.value)];
      }
      if nextFile.Some? {
        dst' := PutField(dst', NextFile(nextFile.value), dst, written);
        written := written + [NextFile(nextFile.value)];
      }
      if lastSequence.Some? {
        dst' := PutField(dst', LastSequence(lastSequence.value), dst, written);
        written := written + [LastSequence(lastSequence.value)];
      }
      assert written == HeadFields(Value());
    }

    /** Parses a record: `Clear`, then field after field until the input ends or does not parse. */
    method DecodeFrom(src: Bytes) returns (problem: Option<Problem>)
      modifies this
      ensures (Value(), problem) == Parse(src, 0, Cleared(old(Value())))
    {
      hide VarintAt, Word32At, PayloadAt, ProblemOf;
      Clear();
      ghost var start := Value();
      var p := 0;
      problem := None;
      var tag := Word32At(src, p);
      while problem.None? && tag.Some?
        invariant p <= |src|
        invariant problem.None? ==> tag == Word32At(src, p) && Parse(src, p, Value()) == Parse(src, 0, start)
        invariant problem.Some? ==> (Value(), problem) == Parse(src, 0, start)
        decreases problem.None?, |src| - p
      {
        var field := PayloadAt(src, tag.value.1, tag.value.0);
        if field.None? {
          problem := Some(ProblemOf(tag.value.0));
        } else {
          SetField(field.value.0);
          p := field.value.1;
          tag := Word32At(src, p);
        }
      }
      if problem.None? && p < |src| {
        problem := Some(InvalidTag);
      }
    }

    method SetField(f: Field)
      modifies this
      ensures Value() == ApplyField(old(Value()), f)
    {
      match f
      case Comparator(name) => comparator := Some(name);
      case LogNumber(n) => logNumber := Some(n);
      case PrevLogNumber(n) => prevLogNumber := Some(n);
      case NextFile(n) => nextFile := Some(n);
      case LastSequence(n) => lastSequence := Some(n);
      case CompactPointer(level, key) => compactPointers := compactPointers + [(level, key)];
      case DeletedFile(level, n) => deletedFiles := InsertPair(deletedFiles, (level, n));
      case NewFile(file) => newFiles := newFiles + [file];
    }
  }

  /** Writes the tag and what belongs to the field. */
  method PutField(dst: Bytes, f: Field, ghost base: Bytes, ghost written: seq<Field>) returns (dst': Bytes)
    requires dst == base + AllBytes(written)
    ensures dst' == base + AllBytes(written + [f])
  {
    hide EncodeVarint, PayloadBytes;
    assert (written + [f])[..|written|] == written;
    dst' := PutNumber(dst, TagOf(f));
    dst' := PutPayload(dst', f);
  }

  method PutPayload(dst: Bytes, f: Field) returns (dst': Bytes)
    ensures dst' == dst + PayloadBytes(f)
  {
    hide EncodeVarint, SliceBytes;
    match f
    case Comparator(name) => dst' := PutSlice(dst, name);
    case LogNumber(n) => dst' := PutNumber(dst, n);
    case PrevLogNumber(n) => dst' := PutNumber(dst, n);
    case NextFile(n) => dst' := PutNumber(dst, n);
    case LastSequence(n) => dst' := PutNumber(dst, n);
    case CompactPointer(level, key) =>
      dst' := PutNumber(dst, level);
      dst' := PutSlice(dst', key);
    case DeletedFile(level, n) =>
      dst' := PutNumber(dst, level);
      dst' := PutNumber(dst', n);
    case NewFile(file) =>
      dst' := PutNumber(dst, file.level);
      dst' := PutNumber(dst', file.number);
      dst' := PutNumber(dst', file.size);
      dst' := PutSlice(dst', file.smallest);
      dst' := PutSlice(dst', file.largest);
  }

  // ---- reading back what was written ----

  lemma FileRoundTrip(bytes: Bytes, p: nat, file: FileRecord)
    requires FileOk(file) && Has(bytes, p, PayloadBytes(NewFile(file)))
    ensures FileAt(bytes, p) == Some((file, p + |PayloadBytes(NewFile(file))|))
  {
    hide EncodeVarint, Word32At, Word64At, SliceAt, SliceBytes, Has;
    var level, number, size := EncodeVarint(file.level), EncodeVarint(file.number), EncodeVarint(file.size);
    var smallest, largest := SliceBytes(file.smallest), SliceBytes(file.largest);
    HasSplit(bytes, p, level, number + (size + (smallest + largest)));
    HasSplit(bytes, p + |level|, number, size + (smallest + largest));
    HasSplit(bytes, p + |level| + |number|, size, smallest + largest);
    HasSplit(bytes, p + |level| + |number| + |size|, smallest, largest);
    Word32RoundTrip(bytes, p, file.level);
    Word64RoundTrip(bytes, p + |level|, file.number);
    Word64RoundTrip(bytes, p + |level| + |number|, file.size);
    SliceRoundTrip(bytes, p + |level| + |number| + |size|, file.smallest);
    SliceRoundTrip(bytes, p + |level| + |number| + |size| + |smallest|, file.largest);
  }

  /** Every field is read back as it was written, whatever follows. */
  lemma FieldRoundTrip(bytes: Bytes, p: nat, f: Field)
    requires FieldOk(f) && Has(bytes, p, FieldBytes(f))
    ensures var tag := Word32At(bytes, p);
      && tag.Some? && tag.value.0 == TagOf(f)
      && PayloadAt(bytes, tag.value.1, TagOf(f)) == Some((f, p + |FieldBytes(f)|))
  {
    hide EncodeVarint, Word32At, Word64At, SliceAt, SliceBytes, Has, FileAt;
    var tag := EncodeVarint(TagOf(f));
    HasSplit(bytes, p, tag, PayloadBytes(f));
    Word32RoundTrip(bytes, p, TagOf(f));
    var q := p + |tag|;
    match f
    case Comparator(name) => SliceRoundTrip(bytes, q, name);
    case LogNumber(n) => Word64RoundTrip(bytes, q, n);
    case PrevLogNumber(n) => Word64RoundTrip(bytes, q, n);
    case NextFile(n) => Word64RoundTrip(bytes, q, n);
    case LastSequence(n) => Word64RoundTrip(bytes, q, n);
    case CompactPointer(level, key) =>
      HasSplit(bytes, q, EncodeVarint(level), SliceBytes(key));
      Word32RoundTrip(bytes, q, level);
      SliceRoundTrip(bytes, q + |EncodeVarint(level)|, key);
    case DeletedFile(level, n) =>
      HasSplit(bytes, q, EncodeVarint(level), EncodeVarint(n));
      Word32RoundTrip(bytes, q, level);
      Word64RoundTrip(bytes, q + |EncodeVarint(level)|, n);
    case NewFile(file) => FileRoundTrip(bytes, q, file);
  }

  lemma {:induction false} BytesOfSplit(fields: seq<Field>, i: nat)
    requires i <= |fields|
    ensures |AllBytes(fields[..i])| <= |AllBytes(fields)|
    ensures Has(AllBytes(fields), 0, AllBytes(fields[..i]))
    ensures i < |fields| ==> Has(AllBytes(fields), |AllBytes(fields[..i])|, FieldBytes(fields[i]))
    decreases |fields|
  {
    hide FieldBytes;
    if i == |fields| {
      assert fields[..i] == fields;
    } else {
      var n := |fields| - 1;
      var init := fields[..n];
      assert init[..i] == fields[..i];
      BytesOfSplit(init, i);
      if i < n {
        assert init[i] == fields[i];
      }
    }
  }

  /** Parsing the bytes of any fields applies them in order. */
  lemma {:induction false} ParseFields(fields: seq<Field>, i: nat, e: EditRecord)
    requires i <= |fields| && forall f :: f in fields ==> FieldOk(f)
    ensures Parse(AllBytes(fields), |AllBytes(fields[..i])|, e) == (ApplyFields(e, fields[i..]), None)
    decreases |fields| - i
  {
    hide FieldBytes, AllBytes, PayloadAt, Word32At, ApplyField, FieldOk, Has;
    var bytes, p := AllBytes(fields), |AllBytes(fields[..i])|;
    if i == |fields| {
      assert fields[..i] == fields && fields[i..] == [];
      NoTagAtEnd(bytes, p);
    } else {
      BytesOfSplit(fields, i);
      assert fields[i] in fields;
      FieldRoundTrip(bytes, p, fields[i]);
      BytesOfNext(fields, i);
      ParseFields(fields, i + 1, ApplyField(e, fields[i]));
      assert fields[i..][1..] == fields[i + 1..] && fields[i..][0] == fields[i];
    }
  }

  lemma NoTagAtEnd(bytes: Bytes, p: nat)
    requires p >= |bytes|
    ensures Word32At(bytes, p).None?
  {
  }

  lemma BytesOfNext(fields: seq<Field>, i: nat)
    requires i < |fields|
    ensures |AllBytes(fields[..i + 1])| == |AllBytes(fields[..i])| + |FieldBytes(fields[i])|
  {
    assert fields[..i + 1][..i] == fields[..i];
  }

  lemma {:induction false} ApplyAppend(e: EditRecord, a: seq<Field>, b: seq<Field>)
    ensures ApplyFields(e, a + b) == ApplyFields(ApplyFields(e, a), b)
    decreases a
  {
    hide ApplyField;
    if a == [] {
      assert a + b == b;
    } else {
      assert (a + b)[1..] == a[1..] + b;
      ApplyAppend(ApplyField(e, a[0]), a[1..], b);
    }
  }

  lemma {:induction false} ApplyPointers(e: EditRecord, ps: seq<(nat, Bytes)>)
    ensures ApplyFields(e, PointerFields(ps)) == e.(compactPointers := e.compactPointers + ps)
    decreases ps
  {
    if ps == [] {
      assert e.compactPointers + ps == e.compactPointers;
    } else {
      assert PointerFields(ps)[1..] == PointerFields(ps[1..]);
      ApplyPointers(e.(compactPointers := e.compactPointers + [ps[0]]), ps[1..]);
      assert e.compactPointers + [ps[0]] + ps[1..] == e.compactPointers + ps;
    }
  }

  lemma {:induction false} ApplyFiles(e: EditRecord, fs: seq<FileRecord>)
    ensures ApplyFields(e, FileFields(fs)) == e.(added := e.added + fs)
    decreases fs
  {
    if fs == [] {
      assert e.added + fs == e.added;
    } else {
      assert FileFields(fs)[1..] == FileFields(fs[1..]);
      ApplyFiles(e.(added := e.added + [fs[0]]), fs[1..]);
      assert e.added + [fs[0]] + fs[1..] == e.added + fs;
    }
  }

  lemma {:induction false} InsertLast(s: seq<(nat, nat)>, x: (nat, nat))
    requires forall i :: 0 <= i < |s| ==> PairBefore(s[i], x)
    ensures InsertPair(s, x) == s + [x]
  {
    if s != [] {
      InsertLast(s[1..], x);
      assert s == [s[0]] + s[1..];
    }
  }

  lemma {:induction false} ApplyDeleted(e: EditRecord, ds: seq<(nat, nat)>)
    requires PairsAscend(e.deleted + ds)
    ensures ApplyFields(e, DeletedFields(ds)) == e.(deleted := e.deleted + ds)
    decreases ds
  {
    if ds == [] {
      assert e.deleted + ds == e.deleted;
    } else {
      assert DeletedFields(ds)[1..] == DeletedFields(ds[1..]);
      assert forall i :: 0 <= i < |e.deleted| ==>
        e.deleted[i] == (e.deleted + ds)[i] && (e.deleted + ds)[|e.deleted|] == ds[0];
      InsertLast(e.deleted, ds[0]);
      assert e.deleted + [ds[0]] + ds[1..] == e.deleted + ds;
      ApplyDeleted(e.(deleted := e.deleted + [ds[0]]), ds[1..]);
    }
  }

  lemma ApplyFew(e: EditRecord, fields: seq<Field>)
    requires |fields| <= 1
    ensures ApplyFields(e, fields) == if fields == [] then e else ApplyField(e, fields[0])
  {
  }

  lemma ApplyHead(e: EditRecord, into: EditRecord)
    requires into == Cleared(into)
    ensures ApplyFields(into, HeadFields(e)) ==
            EditRecord(e.comparator, e.logNumber, e.prevLogNumber, e.nextFile, e.lastSequence, into.compactPointers, [],
                       [])
  {
    hide ApplyFields;
    var a := if e.comparator.Some? then [Comparator(e.comparator.value)] else [];
    var b := if e.logNumber.Some? then [LogNumber(e.logNumber.value)] else [];
    var c := if e.prevLogNumber.Some? then [PrevLogNumber(e.prevLogNumber.value)] else [];
    var d := if e.nextFile.Some? then [NextFile(e.nextFile.value)] else [];
    var f := if e.lastSequence.Some? then [LastSequence(e.lastSequence.value)] else [];
    ApplyAppend(into, a + b + c + d, f);
    ApplyAppend(into, a + b + c, d);
    ApplyAppend(into, a + b, c);
    ApplyAppend(into, a, b);
    var e1 := into.(comparator := e.comparator);
    var e2 := e1.(logNumber := e.logNumber);
    var e3 := e2.(prevLogNumber := e.prevLogNumber);
    var e4 := e3.(nextFile := e.nextFile);
    assert ApplyFields(into, a) == e1 by { ApplyFew(into, a); }
    assert ApplyFields(e1, b) == e2 by { ApplyFew(e1, b); }
    assert ApplyFields(e2, c) == e3 by { ApplyFew(e2, c); }
    assert ApplyFields(e3, d) == e4 by { ApplyFew(e3, d); }
    ApplyFew(e4, f);
  }

  /** An edit survives being written and parsed, except that the compaction pointers the object
      held before stay in front of those read. */
  lemma EditRoundTrip(e: EditRecord, before: EditRecord)
    requires EditOk(e)
    ensures Parse(AllBytes(FieldsOf(e)), 0, Cleared(before)) ==
            (e.(compactPointers := before.compactPointers + e.compactPointers), None)
  {
    hide Parse, AllBytes, ApplyFields, HeadFields, PointerFields, DeletedFields, FileFields;
    var into, fields := Cleared(before), FieldsOf(e);
    NoBytes(fields);
    ParseFields(fields, 0, into);
    assert fields[0..] == fields;
    var head, ps, ds, fs := HeadFields(e), PointerFields(e.compactPointers), DeletedFields(e.deleted),
      FileFields(e.added);
    ApplyAppend(into, head + ps + ds, fs);
    ApplyAppend(into, head + ps, ds);
    ApplyAppend(into, head, ps);
    ApplyHead(e, into);
    var e1 := ApplyFields(into, head);
    ApplyPointers(e1, e.compactPointers);
    var e2 := ApplyFields(e1, ps);
    assert e2.deleted + e.deleted == e.deleted;
    ApplyDeleted(e2, e.deleted);
    var e3 := ApplyFields(e2, ds);
    ApplyFiles(e3, e.added);
    assert e3.added + e.added == e.added;
  }

  lemma NoBytes(fields: seq<Field>)
    ensures AllBytes(fields[..0]) == []
  {
  }

  /** The edit read is the edit written exactly if the object held no compaction pointers. */
  lemma SurvivesIff(e: EditRecord, before: EditRecord)
    requires EditOk(e)
    ensures Parse(AllBytes(FieldsOf(e)), 0, Cleared(before)) == (e, None) <==> before.compactPointers == []
  {
    hide Parse, AllBytes, FieldsOf;
    EditRoundTrip(e, before);
    if before.compactPointers != [] {
      assert |before.compactPointers + e.compactPointers| > |e.compactPointers|;
    } else {
      assert before.compactPointers + e.compactPointers == e.compactPointers;
    }
  }

  /** The deleted files are a set: in order, none twice. */
  lemma {:induction false} InsertPairIs(s: seq<(nat, nat)>, x: (nat, nat))
    requires PairsAscend(s)
    ensures PairsAscend(InsertPair(s, x))
    ensures forall y :: y in InsertPair(s, x) <==> y == x || y in s
  {
    if s != [] {
      var r, rest := InsertPair(s, x), s[1..];
      assert PairsAscend(rest) && s == [s[0]] + rest;
      if !PairBefore(x, s[0]) && s[0] != x {
        InsertPairIs(rest, x);
        forall j | 1 <= j < |r| ensures PairBefore(s[0], r[j]) {
          assert r[j] == InsertPair(rest, x)[j - 1] && r[j] in InsertPair(rest, x);
        }
      }
    }
  }

  /** Whatever is parsed, the deleted files stay a set. */
  lemma {:induction false} ParseAscends(bytes: Bytes, p: nat, e: EditRecord)
    requires PairsAscend(e.deleted)
    ensures PairsAscend(Parse(bytes, p, e).0.deleted)
    decreases |bytes| - p
  {
    hide PairsAscend, InsertPair, Word32At, PayloadAt;
    var tag := Word32At(bytes, p);
    if tag.Some? {
      var field := PayloadAt(bytes, tag.value.1, tag.value.0);
      if field.Some? {
        var f := field.value.0;
        if f.DeletedFile? { InsertPairIs(e.deleted, (f.level, f.n)); }
        ParseAscends(bytes, field.value.1, ApplyField(e, f));
      }
    }
  }

  // ---- what is refused ----

  lemma UnknownTagRefused(bytes: Bytes, p: nat, tag: nat, e: EditRecord)
    requires tag < WORD && Has(bytes, p, EncodeVarint(tag)) && (tag == 0 || tag == 8 || tag > 9)
    ensures Parse(bytes, p, e) == (e, Some(UnknownTag))
  {
    hide EncodeVarint, Word32At;
    Word32RoundTrip(bytes, p, tag);
  }

  /** A level there is not makes its field a bad one. */
  lemma LevelRefused(bytes: Bytes, p: nat, tag: nat, level: nat, e: EditRecord)
    requires NUM_LEVELS <= level < WORD && tag in {COMPACT_POINTER, DELETED_FILE, NEW_FILE}
    requires Has(bytes, p, EncodeVarint(tag) + EncodeVarint(level))
    ensures Parse(bytes, p, e) == (e, Some(BadField(tag)))
  {
    hide EncodeVarint, Word32At, Has;
    HasSplit(bytes, p, EncodeVarint(tag), EncodeVarint(level));
    Word32RoundTrip(bytes, p, tag);
    Word32RoundTrip(bytes, p + |EncodeVarint(tag)|, level);
  }

  // ---- an edit cut off ----

  lemma Word32Cut(bytes: Bytes, p: nat, n: nat, cut: nat)
    requires CutOff(bytes, p, EncodeVarint(n), cut)
    ensures Word32At(bytes, p) == None
  {
    hide EncodeVarint, VarintAt;
    VarintUnended(bytes, p, n, cut);
    UnendedVarint(bytes, p, 5);
  }

  lemma Word64Cut(bytes: Bytes, p: nat, n: nat, cut: nat)
    requires CutOff(bytes, p, EncodeVarint(n), cut)
    ensures Word64At(bytes, p) == None
  {
    hide EncodeVarint, VarintAt;
    VarintUnended(bytes, p, n, cut);
    UnendedVarint(bytes, p, 10);
  }

  lemma FileCut(bytes: Bytes, p: nat, file: FileRecord, cut: nat)
    requires FileOk(file) && CutOff(bytes, p, PayloadBytes(NewFile(file)), cut)
    ensures FileAt(bytes, p) == None
  {
    hide EncodeVarint, Word32At, Word64At, SliceAt, SliceBytes, Has, CutOff;
    var level, number, size := EncodeVarint(file.level), EncodeVarint(file.number), EncodeVarint(file.size);
    var smallest, largest := SliceBytes(file.smallest), SliceBytes(file.largest);
    CutSplit(bytes, p, level, number + (size + (smallest + largest)), cut);
    if cut < |level| { Word32Cut(bytes, p, file.level, cut); return; }
    Word32RoundTrip(bytes, p, file.level);
    var q, left := p + |level|, cut - |level|;
    CutSplit(bytes, q, number, size + (smallest + largest), left);
    if left < |number| { Word64Cut(bytes, q, file.number, left); return; }
    Word64RoundTrip(bytes, q, file.number);
    q, left := q + |number|, left - |number|;
    CutSplit(bytes, q, size, smallest + largest, left);
    if left < |size| { Word64Cut(bytes, q, file.size, left); return; }
    Word64RoundTrip(bytes, q, file.size);
    q, left := q + |size|, left - |size|;
    CutSplit(bytes, q, smallest, largest, left);
    if left < |smallest| { SliceCut(bytes, q, file.smallest, left); return; }
    SliceRoundTrip(bytes, q, file.smallest);
    SliceCut(bytes, q + |smallest|, file.largest, left - |smallest|);
  }

  lemma PayloadCut(bytes: Bytes, p: nat, f: Field, cut: nat)
    requires FieldOk(f) && CutOff(bytes, p, PayloadBytes(f), cut)
    ensures PayloadAt(bytes, p, TagOf(f)) == None
  {
    hide EncodeVarint, Word32At, Word64At, SliceAt, SliceBytes, Has, FileAt, CutOff;
    match f
    case Comparator(name) => SliceCut(bytes, p, name, cut);
    case LogNumber(n) => Word64Cut(bytes, p, n, cut);
    case PrevLogNumber(n) => Word64Cut(bytes, p, n, cut);
    case NextFile(n) => Word64Cut(bytes, p, n, cut);
    case LastSequence(n) => Word64Cut(bytes, p, n, cut);
    case CompactPointer(level, key) =>
      var e := EncodeVarint(level);
      CutSplit(bytes, p, e, SliceBytes(key), cut);
      if cut < |e| {
        Word32Cut(bytes, p, level, cut);
      } else {
        Word32RoundTrip(bytes, p, level);
        SliceCut(bytes, p + |e|, key, cut - |e|);
      }
    case DeletedFile(level, n) =>
      var e := EncodeVarint(level);
      CutSplit(bytes, p, e, EncodeVarint(n), cut);
      if cut < |e| {
        Word32Cut(bytes, p, level, cut);
      } else {
        Word32RoundTrip(bytes, p, level);
        Word64Cut(bytes, p + |e|, n, cut - |e|);
      }
    case NewFile(file) => FileCut(bytes, p, file, cut);
  }

  /** A field that is cut off is reported by its tag. */
  lemma FieldCut(bytes: Bytes, p: nat, f: Field, cut: nat, e: EditRecord)
    requires FieldOk(f) && 0 < cut && CutOff(bytes, p, FieldBytes(f), cut)
    ensures Parse(bytes, p, e) == (e, Some(BadField(TagOf(f))))
  {
    hide EncodeVarint, Word32At, PayloadAt, PayloadBytes, Has, CutOff, ApplyField;
    var tag := EncodeVarint(TagOf(f));
    assert |tag| == 1 by { Step(TagOf(f)); }
    CutSplit(bytes, p, tag, PayloadBytes(f), cut);
    Word32RoundTrip(bytes, p, TagOf(f));
    PayloadCut(bytes, p + 1, f, cut - 1);
  }

  /** The first `k` fields lie wholly in the first `cut` bytes, and the next does not. */
  ghost predicate WholeFields(fields: seq<Field>, cut: nat, k: nat) {
    k < |fields| && |AllBytes(fields[..k])| <= cut < |AllBytes(fields[..k + 1])|
  }

  lemma {:induction false} ParseCut(fields: seq<Field>, i: nat, e: EditRecord, cut: nat) returns (k: nat)
    requires i < |fields| && (forall f :: f in fields ==> FieldOk(f))
    requires |AllBytes(fields[..i])| <= cut < |AllBytes(fields)|
    ensures i <= k && WholeFields(fields, cut, k)
    ensures Parse(AllBytes(fields)[..cut], |AllBytes(fields[..i])|, e) ==
            (ApplyFields(e, fields[i..k]),
             if |AllBytes(fields[..k])| == cut then None else Some(BadField(TagOf(fields[k]))))
    decreases |fields| - i
  {
    hide FieldBytes, AllBytes, PayloadAt, Word32At, ApplyField, FieldOk, Has, CutOff;
    var all, p := AllBytes(fields), |AllBytes(fields[..i])|;
    var bytes, f := all[..cut], fields[i];
    BytesOfSplit(fields, i);
    BytesOfNext(fields, i);
    assert f in fields;
    if cut < p + |FieldBytes(f)| {
      k := i;
      if p < cut {
        CutField(all, p, FieldBytes(f), cut);
        FieldCut(bytes, p, f, cut - p, e);
      } else {
        NoTagAtEnd(bytes, p);
      }
    } else {
      WholeField(all, p, FieldBytes(f), cut);
      FieldRoundTrip(bytes, p, f);
      assert fields[..|fields|] == fields;
      k := ParseCut(fields, i + 1, ApplyField(e, f), cut);
      assert fields[i..k][0] == f && fields[i..k][1..] == fields[i + 1..k];
    }
  }

  lemma CutField(all: Bytes, p: nat, field: Bytes, cut: nat)
    requires Has(all, p, field) && p <= cut < p + |field|
    ensures CutOff(all[..cut], p, field, cut - p)
  {
    assert all[..cut][p..] == all[p..p + |field|][..cut - p];
  }

  lemma WholeField(all: Bytes, p: nat, field: Bytes, cut: nat)
    requires Has(all, p, field) && p + |field| <= cut <= |all|
    ensures Has(all[..cut], p, field)
  {
    assert all[..cut][p..p + |field|] == all[p..p + |field|];
  }

  /** An edit whose record is cut off inside a field is refused with the tag of that field, and
      the fields before it have taken effect; a cut between two fields goes unnoticed. */
  lemma CutEditReported(e: EditRecord, before: EditRecord, cut: nat)
    requires EditOk(e) && cut < |AllBytes(FieldsOf(e))|
    ensures exists k: nat ::
      WholeFields(FieldsOf(e), cut, k) && Parse(AllBytes(FieldsOf(e))[..cut], 0, Cleared(before)) ==
      (ApplyFields(Cleared(before), FieldsOf(e)[..k]),
       if |AllBytes(FieldsOf(e)[..k])| == cut then None else Some(BadField(TagOf(FieldsOf(e)[k]))))
  {
    hide Parse, AllBytes, ApplyFields, FieldsOf, WholeFields;
    var fields := FieldsOf(e);
    NoBytes(fields);
    SomeField(fields, cut);
    var k := ParseCut(fields, 0, Cleared(before), cut);
    FewerFields(fields, cut, k);
    assert fields[0..k] == fields[..k];
  }

  lemma SomeField(fields: seq<Field>, cut: nat)
    requires cut < |AllBytes(fields)|
    ensures fields != []
  {
  }

  lemma FewerFields(fields: seq<Field>, cut: nat, k: nat)
    requires WholeFields(fields, cut, k)
    ensures k < |fields|
  {
  }

  /** Writing an edit and parsing it into a fresh object. */
  method WriteAndRead(edit: VersionEdit) returns (copy: VersionEdit)
    requires EditOk(edit.Value())
    ensures fresh(copy) && copy.Value() == edit.Value()
  {
    hide Parse, AllBytes, FieldsOf, EditOk;
    var bytes := edit.EncodeTo([]);
    copy := new VersionEdit();
    assert [] + AllBytes(FieldsOf(edit.Value())) == AllBytes(FieldsOf(edit.Value()));
    SurvivesIff(edit.Value(), copy.Value());
    var problem := copy.DecodeFrom(bytes);
  }
}
