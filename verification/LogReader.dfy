/** Reading a log back (db/log_reader.cc), from its beginning and with checksums on. */
module LogReader {
  import opened Coding
  import opened LogFormat

  const EOF: nat := 5
  const BAD_RECORD: nat := 6

  /** As far as the file goes, from position `p` on it holds `bytes`. */
  ghost predicate Agrees(file: seq<Byte>, p: nat, bytes: seq<Byte>) {
    forall j :: 0 <= j < |bytes| && p + j < |file| ==> file[p + j] == bytes[j]
  }

  lemma AgreesParts(file: seq<Byte>, p: nat, a: seq<Byte>, b: seq<Byte>)
    ensures Agrees(file, p, a + b) <==> Agrees(file, p, a) && Agrees(file, p + |a|, b)
  {
    var c := a + b;
    assert forall j :: 0 <= j < |a| ==> c[j] == a[j];
    assert forall j :: 0 <= j < |b| ==> c[|a| + j] == b[j];
    if Agrees(file, p, c) {
      forall j | 0 <= j < |a| && p + j < |file| ensures file[p + j] == a[j] { assert c[j] == a[j]; }
      forall j | 0 <= j < |b| && p + |a| + j < |file| ensures file[p + |a| + j] == b[j] {
        assert file[p + (|a| + j)] == c[|a| + j];
      }
    }
    if Agrees(file, p, a) && Agrees(file, p + |a|, b) {
      forall j | 0 <= j < |c| && p + j < |file| ensures file[p + j] == c[j] {
        if j >= |a| { assert file[p + |a| + (j - |a|)] == b[j - |a|]; }
      }
    }
  }

  lemma AgreesSlice(file: seq<Byte>, p: nat, bytes: seq<Byte>)
    requires Agrees(file, p, bytes) && p + |bytes| <= |file|
    ensures file[p..p + |bytes|] == bytes
  {
    forall j | 0 <= j < |bytes| ensures file[p..p + |bytes|][j] == bytes[j] { assert file[p + j] == bytes[j]; }
  }

  // ---- what may be returned, whatever the file holds ----

  /** The length in a header: the lower byte first. */
  function LengthField(low: nat, high: nat): nat {
    low + 0x100 * high
  }

  lemma LengthIs(low: nat, high: nat)
    ensures LittleEndian(low, high, 0, 0) == LengthField(low, high)
  {
  }

  /** A whole physical record of this type and payload lies at `p`, and its checksum fits. */
  ghost predicate RecordAt(extend: (nat, seq<Byte>) -> nat, file: seq<Byte>, p: nat, t: nat, payload: seq<Byte>) {
    && p + HEADER_SIZE + |payload| <= |file|
    && LengthField(file[p + 4], file[p + 5]) == |payload| && file[p + 6] == t
    && file[p + HEADER_SIZE..p + HEADER_SIZE + |payload|] == payload
    && Unmask(DecodeFixed32(file[p..p + 4])) == extend(0, file[p + 6..p + HEADER_SIZE + |payload|])
  }

  /** It is exactly what a writer would have put there. */
  lemma RecordAtIff(extend: (nat, seq<Byte>) -> nat, file: seq<Byte>, p: nat, t: Byte, payload: seq<Byte>)
    requires CrcLaw(extend) && |payload| < 65536
    ensures RecordAt(extend, file, p, t, payload) <==> Has(file, p, Physical(extend, t, payload))
  {
    hide CrcLaw, Mask, Unmask, EncodeFixed32, DecodeFixed32;
    var n := HEADER_SIZE + |payload|;
    var crc := extend(0, [t] + payload);
    assert crc == extend(extend(0, [t]), payload) < WORD by { CrcParts(extend, [t], payload); }
    if p + n <= |file| {
      var bytes := file[p..p + n];
      assert file[p..p + 4] == bytes[..4] && file[p + 4] == bytes[4] && file[p + 5] == bytes[5] &&
        file[p + 6] == bytes[6];
      assert file[p + HEADER_SIZE..p + n] == bytes[HEADER_SIZE..];
      if RecordAt(extend, file, p, t, payload) {
        assert file[p + 6..p + n] == [t] + payload;
        MaskUnmask(DecodeFixed32(bytes[..4]));
        Fixed32Back(bytes[..4]);
        assert bytes == bytes[..4] + [bytes[4], bytes[5], bytes[6]] + payload;
      }
      if bytes == Physical(extend, t, payload) {
        assert bytes[..4] == EncodeFixed32(Mask(crc)) && bytes[HEADER_SIZE..] == payload;
        Fixed32RoundTrip(Mask(crc));
        UnmaskMask(crc);
        assert file[p + 6..p + n] == [t] + payload;
      }
    }
  }

  lemma CrcParts(extend: (nat, seq<Byte>) -> nat, a: seq<Byte>, b: seq<Byte>)
    requires CrcLaw(extend)
    ensures extend(extend(0, a), b) == extend(0, a + b) < WORD
  {
  }

  /** A record whose type byte is the number the reader itself returns at the end of the file. */
  ghost predicate EndMarked(extend: (nat, seq<Byte>) -> nat, file: seq<Byte>) {
    exists p: nat, data: seq<Byte> :: RecordAt(extend, file, p, EOF, data)
  }

  /** Past any trailer the fragment of this type lies behind `p`, and it ends at `q`. */
  ghost predicate Fragment(extend: (nat, seq<Byte>) -> nat, file: seq<Byte>, p: nat, q: nat, t: nat, data: seq<Byte>) {
    RecordAt(extend, file, HeaderPos(p), t, data) && q == HeaderPos(p) + HEADER_SIZE + |data|
  }

  /** A first fragment and any number of middle ones lie from `p` to `q`, each right behind the
      one before; their payloads make up `data`. */
  ghost predicate Started(extend: (nat, seq<Byte>) -> nat, file: seq<Byte>, p: nat, q: nat, data: seq<Byte>)
    decreases q
  {
    || Fragment(extend, file, p, q, FIRST_TYPE, data)
    || exists m: nat, n: nat :: p <= m < q && n <= |data| &&
         Started(extend, file, p, m, data[..n]) && Fragment(extend, file, m, q, MIDDLE_TYPE, data[n..])
  }

  /** A record lies from `p` to `q`: one full fragment, or a first, middle ones and a last. */
  ghost predicate RecordFrom(extend: (nat, seq<Byte>) -> nat, file: seq<Byte>, p: nat, q: nat, data: seq<Byte>) {
    || Fragment(extend, file, p, q, FULL_TYPE, data)
    || exists m: nat, n: nat :: p <= m < q && n <= |data| &&
         Started(extend, file, p, m, data[..n]) && Fragment(extend, file, m, q, LAST_TYPE, data[n..])
  }

  /** The records lie one after the other before `q`. */
  ghost predicate RecordsBefore(extend: (nat, seq<Byte>) -> nat, file: seq<Byte>, q: nat, records: seq<seq<Byte>>)
    decreases |records|
  {
    records == [] ||
    var n := |records| - 1;
    var before, record := records[..n], records[n];
    exists p: nat, r: nat ::
      p <= r <= q && RecordsBefore(extend, file, p, before) && RecordFrom(extend, file, p, r, record)
  }

  lemma StartedGrows(extend: (nat, seq<Byte>) -> nat, file: seq<Byte>, p: nat, m: nat, q: nat,
                     data: seq<Byte>, fragment: seq<Byte>, t: nat)
    requires p <= m < q && Started(extend, file, p, m, data) && Fragment(extend, file, m, q, t, fragment)
    ensures t == MIDDLE_TYPE ==> Started(extend, file, p, q, data + fragment)
    ensures t == LAST_TYPE ==> RecordFrom(extend, file, p, q, data + fragment)
  {
    hide Fragment;
    var n, all := |data|, data + fragment;
    assert all[..n] == data && all[n..] == fragment;
  }

  lemma RecordsGrow(extend: (nat, seq<Byte>) -> nat, file: seq<Byte>, q: nat, p: nat, r: nat, records: seq<seq<Byte>>,
                    record: seq<Byte>)
    requires RecordsBefore(extend, file, q, records) && q <= p <= r && RecordFrom(extend, file, p, r, record)
    ensures RecordsBefore(extend, file, r, records + [record])
  {
    hide RecordFrom;
    var all := records + [record];
    assert all[..|all| - 1] == records && all[|all| - 1] == record;
    RecordsEarlier(extend, file, q, p, records);
  }

  lemma RecordsEarlier(extend: (nat, seq<Byte>) -> nat, file: seq<Byte>, q: nat, p: nat, records: seq<seq<Byte>>)
    requires RecordsBefore(extend, file, q, records) && q <= p
    ensures RecordsBefore(extend, file, p, records)
  {
    hide RecordFrom;
  }

  class Reader {
    const extend: (nat, seq<Byte>) -> nat
    const file: seq<Byte>
    var filePos: nat // bytes read from the file so far
    var buffer: seq<Byte> // the rest of the block read last
    var eof: bool
    var drops: seq<nat> // byte counts reported as corrupt

    ghost predicate Valid()
      reads this`filePos, this`buffer, this`eof
    {
      && filePos <= |file| && |buffer| <= filePos && |buffer| <= BLOCK_SIZE
      && buffer == file[filePos - |buffer|..filePos]
      && (eof ==> filePos == |file| && |buffer| <= filePos % BLOCK_SIZE)
      && (!eof ==> filePos % BLOCK_SIZE == 0)
    }

    /** Position in the file of the first byte not yet consumed. */
    ghost function Pos(): nat
      requires |buffer| <= filePos
      reads this`filePos, this`buffer, this`eof
    {
      filePos - |buffer|
    }

    constructor (extend: (nat, seq<Byte>) -> nat, file: seq<Byte>)
      ensures Valid() && Pos() == 0 && drops == [] && this.file == file && this.extend == extend && !eof
    {
      this.extend, this.file, filePos, buffer, eof, drops := extend, file, 0, [], false, [];
    }

    /** What is reported when a record that was started is given up for a new one. */
    ghost function GivenUp(scratch: seq<Byte>, inFragmentedRecord: bool): seq<nat> {
      if inFragmentedRecord && scratch != [] then [|scratch|] else []
    }

    method ReportCorruption(bytes: nat)
      modifies this`drops
      ensures drops == old(drops) + [bytes] && (old(Valid()) ==> Valid())
    {
      drops := drops + [bytes];
    }

    /** Reads the next block, or what is left of the file. */
    method ReadBlock()
      requires Valid() && !eof
      modifies this`buffer, this`filePos, this`eof
      ensures Valid() && Pos() == old(filePos) && (eof <==> |file| - old(filePos) < BLOCK_SIZE)
      ensures filePos == (if eof then |file| else old(filePos) + BLOCK_SIZE)
    {
      var n := if |file| - filePos < BLOCK_SIZE then |file| - filePos else BLOCK_SIZE;
      buffer := file[filePos..filePos + n];
      filePos := filePos + n;
      if |buffer| < BLOCK_SIZE {
        eof := true;
      }
    }

    /** Makes sure a whole header is in the buffer, past any trailer too short for one; fails
        at the end of the file. */
    method FillBuffer() returns (ready: bool)
      requires Valid()
      modifies this`buffer, this`filePos, this`eof
      ensures Valid() && old(Pos()) <= Pos()
      ensures ready ==> |buffer| >= HEADER_SIZE && Pos() == HeaderPos(old(Pos()))
      ensures !ready ==> eof && buffer == [] && HeaderPos(old(Pos())) + HEADER_SIZE > |file|
    {
      hide HeaderPos;
      ghost var p0 := Pos();
      while |buffer| < HEADER_SIZE
        invariant Valid() && old(Pos()) == p0 && (Pos() == p0 || Pos() == HeaderPos(p0))
        invariant Pos() == p0 || eof || |buffer| >= HEADER_SIZE
        decreases !eof, if |buffer| < HEADER_SIZE then 1 else 0
      {
        if !eof {
          TrailerEnds(filePos, |buffer|);
          ReadBlock();
        } else {
          HeaderAfter(p0);
          buffer := [];
          return false;
        }
      }
      BufferInBlock();
      HeaderStart(p0, Pos(), |buffer|);
      HeaderAfter(p0);
      return true;
    }

    /** Skips what is left in the buffer; returns how much that was. */
    method DropBuffer() returns (dropSize: nat)
      requires Valid()
      modifies this`buffer
      ensures Valid() && buffer == [] && dropSize == |old(buffer)| && |buffer| <= filePos && Pos() == filePos
    {
      dropSize := |buffer|;
      buffer := [];
    }

    method Consume(n: nat)
      requires Valid() && n <= |buffer| && |buffer| <= filePos
      modifies this`buffer
      ensures Valid() && |buffer| <= filePos && Pos() == old(Pos()) + n
    {
      buffer := buffer[n..];
    }

    /** Parses the record at the start of the buffer. */
    method ParseRecord(ghost t0: Byte, ghost payload: seq<Byte>) returns (t: nat, fragment: seq<Byte>)
      requires Valid() && |buffer| >= HEADER_SIZE
      modifies this`buffer, this`drops
      ensures Valid() && (t != EOF ==> old(Pos()) < Pos()) && old(Pos()) <= Pos()
      ensures old(RecordHere(t0, payload)) && old(Pos()) + HEADER_SIZE + |payload| <= |file| ==>
        t == t0 && fragment == payload && drops == old(drops) && Pos() == old(Pos()) + HEADER_SIZE + |payload|
      ensures old(RecordHere(t0, payload)) && old(Pos()) + HEADER_SIZE + |payload| > |file| ==>
              t == EOF && drops == old(drops)
      ensures (t != EOF && t != BAD_RECORD) || fragment != [] ==>
        RecordAt(extend, file, old(Pos()), t, fragment) && Pos() == old(Pos()) + HEADER_SIZE + |fragment|
      ensures t != BAD_RECORD ==> drops == old(drops)
      ensures t == EOF ==> (Pos() == |file| && eof) || RecordAt(extend, file, old(Pos()), t, fragment)
      ensures |buffer| <= filePos && filePos == old(filePos)
      ensures t == BAD_RECORD && fragment == [] && old(LengthField(buffer[4], buffer[5])) > 0 ==>
        buffer == [] && drops == old(drops) + [old(|buffer|)]
    {
      hide Unmask, DecodeFixed32, LittleEndian, RecordHere, RecordAt, Valid;
      fragment := [];
      BufferEnd();
      ghost var here := RecordHere(t0, payload);
      if here { HeaderHere(t0, payload); }
      var header := buffer[..HEADER_SIZE];
      assert header[..4] == buffer[..4];
      var length := LittleEndian(header[4], header[5], 0, 0);
      LengthIs(header[4], header[5]);
      t := header[6];
      assert here ==> length == |payload| && t == t0;
      assert here && HEADER_SIZE + length <= |buffer| ==>
        Unmask(DecodeFixed32(header[..4])) == extend(0, buffer[6..HEADER_SIZE + length]);
      if HEADER_SIZE + length > |buffer| {
        var dropSize := DropBuffer();
        if !eof {
          ReportCorruption(dropSize);
          return BAD_RECORD, fragment;
        }
        return EOF, fragment;
      }
      if t == ZERO_TYPE && length == 0 {
        var dropSize := DropBuffer();
        return BAD_RECORD, fragment;
      }
      if Unmask(DecodeFixed32(header[..4])) != extend(0, buffer[6..HEADER_SIZE + length]) {
        var dropSize := DropBuffer();
        ReportCorruption(dropSize);
        return BAD_RECORD, fragment;
      }
      Accepted(length);
      fragment := buffer[HEADER_SIZE..HEADER_SIZE + length];
      Consume(HEADER_SIZE + length);
    }

    /** A record of this type with this payload was written here, within one block. */
    ghost predicate RecordHere(t: Byte, payload: seq<Byte>)
      requires |buffer| <= filePos
      reads this`filePos, this`buffer, this`eof
    {
      && CrcLaw(extend) && |payload| < 65536 && FULL_TYPE <= t <= LAST_TYPE
      && Pos() % BLOCK_SIZE + HEADER_SIZE + |payload| <= BLOCK_SIZE
      && Agrees(file, Pos(), Physical(extend, t, payload))
    }

    lemma BufferEnd()
      requires Valid()
      ensures |buffer| <= filePos <= |file| && Pos() + |buffer| == filePos && (eof ==> filePos == |file|)
    {
    }

    /** What passes the reader's checks is a record of the file. */
    lemma Accepted(n: nat)
      requires Valid() && HEADER_SIZE + n <= |buffer| && n == LittleEndian(buffer[4], buffer[5], 0, 0)
      requires Unmask(DecodeFixed32(buffer[..4])) == extend(0, buffer[6..HEADER_SIZE + n])
      ensures |buffer| <= filePos
      ensures RecordAt(extend, file, Pos(), buffer[6], buffer[HEADER_SIZE..HEADER_SIZE + n])
    {
      hide Unmask, DecodeFixed32, Valid;
      BufferEnd();
      SliceOfBuffer(0, 4);
      SliceOfBuffer(4, 7);
      SliceOfBuffer(6, HEADER_SIZE + n);
      SliceOfBuffer(HEADER_SIZE, HEADER_SIZE + n);
      var p := Pos();
      assert buffer[4] == buffer[4..7][0] == file[p + 4] && buffer[5] == buffer[4..7][1] == file[p + 5]
        && buffer[6] == buffer[4..7][2] == file[p + 6];
    }

    lemma SliceOfBuffer(from: nat, to: nat)
      requires Valid() && from <= to <= |buffer|
      ensures Pos() + to <= |file|
      ensures buffer[from..to] == file[Pos() + from..Pos() + to]
    {
      forall k | 0 <= k < to - from ensures buffer[from..to][k] == file[Pos() + from..Pos() + to][k] {
        assert buffer[from + k] == file[filePos - |buffer|..filePos][from + k];
      }
    }

    /** A record that was written here is read as it was written. */
    lemma HeaderHere(t: Byte, payload: seq<Byte>)
      requires Valid() && |buffer| >= HEADER_SIZE && |buffer| <= filePos && RecordHere(t, payload)
      ensures LittleEndian(buffer[4], buffer[5], 0, 0) == |payload| && buffer[6] == t != ZERO_TYPE
      ensures HEADER_SIZE + |payload| > |buffer| <==> Pos() + HEADER_SIZE + |payload| > |file|
      ensures HEADER_SIZE + |payload| > |buffer| ==> eof
      ensures HEADER_SIZE + |payload| <= |buffer| ==>
        && buffer[HEADER_SIZE..HEADER_SIZE + |payload|] == payload
        && Unmask(DecodeFixed32(buffer[..4])) == extend(0, buffer[6..HEADER_SIZE + |payload|])
    {
      hide Header, CrcLaw, Agrees, Unmask, DecodeFixed32, LittleEndian, Valid;
      var header, n := Header(extend, t, payload), |payload|;
      BufferEnd();
      assert buffer[..HEADER_SIZE] == header by {
        AgreesParts(file, Pos(), header, payload);
        AgreesSlice(file, Pos(), header);
        SliceOfBuffer(0, HEADER_SIZE);
      }
      HeaderRoundTrip(extend, t, payload);
      assert buffer[..4] == header[..4] && buffer[4] == header[4] && buffer[5] == header[5] && buffer[6] == header[6];
      BufferInBlock();
      if HEADER_SIZE + n <= |buffer| {
        assert buffer[HEADER_SIZE..HEADER_SIZE + n] == payload by {
          AgreesParts(file, Pos(), header, payload);
          AgreesSlice(file, Pos() + HEADER_SIZE, payload);
          SliceOfBuffer(HEADER_SIZE, HEADER_SIZE + n);
        }
        assert buffer[6..HEADER_SIZE + n] == [t] + payload;
      }
    }

    /** The next physical record.  Where a well-written fragment lies, it is returned if the
        file holds all of it; if the file ends inside it, the end of the file is reported and
        nothing else. */
    method ReadPhysicalRecord(ghost data: seq<Byte>, ghost begin: bool) returns (t: nat, fragment: seq<Byte>)
      requires Valid()
      modifies this
      ensures Valid() && old(Pos()) <= Pos() && (t != EOF ==> old(Pos()) < Pos())
      ensures old(Written(data, begin)) && old(Whole(data)) ==>
        var at := HeaderPos(old(Pos())); var n := FragmentLength(at % BLOCK_SIZE, data);
        && t == FragmentType(begin, n == |data|) && fragment == data[..n] && drops == old(drops)
        && Pos() == at + HEADER_SIZE + n
      ensures (old(Written(data, begin)) && !old(Whole(data))) || old(Pos() == |file|) ==>
              t == EOF && drops == old(drops)
      ensures t <= LAST_TYPE ==> Fragment(extend, file, old(Pos()), Pos(), t, fragment)
      ensures t != BAD_RECORD ==> drops == old(drops)
      ensures t == EOF ==> AtEnd(HeaderPos(old(Pos()))) || EndMarked(extend, file)
      ensures t != EOF ==> Pos() <= BlockAfter(HeaderPos(old(Pos())))
    {
      hide RecordHere, CrcLaw, Agrees, BlockAfter, FragmentLength;
      ghost var p0 := Pos();
      ghost var written := Written(data, begin);
      HeaderFits(p0);
      BlockRoom(HeaderPos(p0));
      var ready := FillBuffer();
      if !ready {
        return EOF, [];
      }
      ghost var n := FragmentLength(HeaderPos(p0) % BLOCK_SIZE, data);
      if written { WrittenHere(data, begin, p0); }
      BufferEndsBlock();
      t, fragment := ParseRecord(FragmentType(begin, n == |data|), data[..n]);
    }

    /** All bytes have been read, and the last of them lie in the block of `at`. */
    ghost predicate AtEnd(at: nat)
      requires |buffer| <= filePos
      reads this`filePos, this`buffer, this`eof
    {
      Pos() == |file| <= BlockAfter(at)
    }

    /** Past the padding lies the physical record of the fragment. */
    lemma WrittenHere(data: seq<Byte>, begin: bool, p0: nat)
      requires Valid() && CrcLaw(extend) && Pos() == HeaderPos(p0)
      requires var n := FragmentLength(Pos() % BLOCK_SIZE, data);
        Agrees(file, Pos(), Physical(extend, FragmentType(begin, n == |data|), data[..n]))
      ensures var n := FragmentLength(Pos() % BLOCK_SIZE, data);
        n < 65536 && RecordHere(FragmentType(begin, n == |data|), data[..n])
    {
      hide Physical, Agrees, CrcLaw;
      HeaderFits(p0);
    }

    lemma BufferEndsBlock()
      requires Valid()
      ensures filePos <= |file| && |buffer| <= filePos && (|buffer| > 0 ==> filePos <= BlockAfter(Pos()))
      ensures eof ==> filePos == |file|
    {
      BufferInBlock();
      BufferEnd();
    }

    /** The buffer lies within one block, up to its end unless the file ends first. */
    lemma BufferInBlock()
      requires Valid()
      ensures |buffer| > 0 ==> Pos() % BLOCK_SIZE + |buffer| <= BLOCK_SIZE
      ensures |buffer| > 0 && !eof ==> Pos() % BLOCK_SIZE + |buffer| == BLOCK_SIZE
    {
      var q, r := filePos / BLOCK_SIZE, filePos % BLOCK_SIZE;
      if !eof && |buffer| > 0 {
        assert Pos() == (q - 1) * BLOCK_SIZE + (BLOCK_SIZE - |buffer|);
      } else if eof {
        assert Pos() == q * BLOCK_SIZE + (r - |buffer|);
      }
    }

    /** The fragment written for `data` lies where the next header is. */
    ghost predicate Written(data: seq<Byte>, begin: bool)
      requires |buffer| <= filePos
      reads this`filePos, this`buffer, this`eof
    {
      var at := HeaderPos(Pos());
      var n := FragmentLength(at % BLOCK_SIZE, data);
      CrcLaw(extend) && Agrees(file, at, Physical(extend, FragmentType(begin, n == |data|), data[..n]))
    }

    /** The bytes written for the rest `data` of a record lie from the next header on. */
    ghost predicate RestWritten(data: seq<Byte>, begin: bool)
      requires |buffer| <= filePos
      reads this`filePos, this`buffer, this`eof
    {
      var at := HeaderPos(Pos());
      CrcLaw(extend) && Agrees(file, at, RecordBytes(extend, at % BLOCK_SIZE, data, begin))
    }

    /** Where the rest of the record ends. */
    ghost function RestEnd(data: seq<Byte>, begin: bool): nat
      requires |buffer| <= filePos
      reads this`filePos, this`buffer, this`eof
    {
      var at := HeaderPos(Pos());
      at + |RecordBytes(extend, at % BLOCK_SIZE, data, begin)|
    }

    /** The next fragment of a record whose rest was written here and ends at `end`: it is read,
        and the rest that remains starts behind it, unless the file ends before the record. */
    method ReadFragment(ghost rest: seq<Byte>, ghost begin: bool, ghost end: nat) returns (t: nat, fragment: seq<Byte>)
      requires Valid()
      modifies this
      ensures Valid() && old(Pos()) <= Pos() <= |file| && (t != EOF ==> old(Pos()) < Pos())
      ensures old(Pos()) == |file| ==> t == EOF && drops == old(drops)
      ensures old(RestWritten(rest, begin)) && end == old(RestEnd(rest, begin)) ==>
        && drops == old(drops)
        && (t == EOF ==> end > |file|)
        && (t != EOF ==>
              && fragment <= rest && t == FragmentType(begin, |fragment| == |rest|)
              && (fragment == rest ==> Pos() == end)
              && (fragment != rest ==>
                  RestWritten(rest[|fragment|..], false) && RestEnd(rest[|fragment|..], false) == end))
      ensures t <= LAST_TYPE ==> Fragment(extend, file, old(Pos()), Pos(), t, fragment)
      ensures t == EOF ==> AtEnd(HeaderPos(old(Pos()))) || EndMarked(extend, file)
      ensures t != EOF ==> Pos() <= BlockAfter(HeaderPos(old(Pos())))
    {
      hide Written, Whole, RestWritten, RestEnd, CrcLaw, Agrees, RecordBytes, StartOffset, Padding, HeaderPos, AtEnd,
        BlockAfter;
      ghost var p0 := HeaderPos(Pos());
      HeaderFits(Pos());
      ghost var written := RestWritten(rest, begin) && end == RestEnd(rest, begin);
      if written { NextFragment(rest, begin); }
      ghost var whole := Whole(rest);
      t, fragment := ReadPhysicalRecord(rest, begin);
      ReadingDone();
      if written && whole { AfterFragment(p0, rest, begin, end); }
    }

    /** A record was written at `at`, which is where the next header is or a block boundary ahead. */
    ghost predicate Upcoming(data: seq<Byte>, at: nat)
      requires |buffer| <= filePos
      reads this`filePos, this`buffer, this`eof
    {
      && CrcLaw(extend) && Agrees(file, at, RecordBytes(extend, at % BLOCK_SIZE, data, true))
      && (HeaderPos(Pos()) == at || (at % BLOCK_SIZE == 0 && HeaderPos(Pos()) < at))
    }

    ghost function RecordEnd(data: seq<Byte>, at: nat): (end: nat)
      ensures end > at
    {
      FirstOfRecord(extend, at % BLOCK_SIZE, data, true);
      at + |RecordBytes(extend, at % BLOCK_SIZE, data, true)|
    }

    /** Once its header is the next one, the record is the rest of itself. */
    lemma Arrived(data: seq<Byte>, at: nat)
      requires Valid() && |buffer| <= filePos && HeaderPos(Pos()) == at && CrcLaw(extend)
      requires Agrees(file, at, RecordBytes(extend, at % BLOCK_SIZE, data, true))
      ensures RestWritten(data, true) && RestEnd(data, true) == RecordEnd(data, at)
    {
    }

    /** Short of a block boundary, one fragment goes no further than it. */
    lemma OnTheWay(p: nat, at: nat)
      requires at % BLOCK_SIZE == 0 && HeaderPos(p) < at && |buffer| <= filePos
      ensures AtEnd(HeaderPos(p)) ==> |file| <= at
      ensures Pos() <= BlockAfter(HeaderPos(p)) ==> Pos() <= at && HeaderPos(Pos()) <= at
    {
      BlockReached(HeaderPos(p), at);
      BlockReached(Pos(), at);
    }

    /** The next record, put together from its fragments.  Where the next header is that of a record
        that was written, the record is returned if the file holds all of it; if the file ends
        inside it, reading ends.  In neither case is anything reported.  Where the record lies at a
        block boundary further on, whatever comes before it, either something else is returned
        that ends before it, or the record is. */
    method ReadRecord(ghost data: seq<Byte>, ghost at: nat) returns (ok: bool, record: seq<Byte>)
      requires Valid()
      modifies this
      ensures Valid() && old(Pos()) <= Pos() && (ok ==> old(Pos()) < Pos())
      ensures old(Upcoming(data, at)) && old(HeaderPos(Pos())) == at ==>
        drops == old(drops) &&
        if RecordEnd(data, at) <= |file| then ok && record == data && Pos() == RecordEnd(data, at) else !ok
      ensures old(Upcoming(data, at)) && old(HeaderPos(Pos())) < at ==>
        || (ok && (Pos() <= at || (record == data && Pos() == RecordEnd(data, at) <= |file|)))
        || (!ok && (RecordEnd(data, at) > |file| || EndMarked(extend, file)))
      ensures old(Pos()) == |file| ==> !ok && drops == old(drops)
      ensures ok ==> exists p: nat :: old(Pos()) <= p <= Pos() && RecordFrom(extend, file, p, Pos(), record)
      ensures !ok ==> Pos() == |file| || EndMarked(extend, file)
    {
      hide EndMarked, AtEnd, BlockAfter, HeaderPos, RecordEnd;
      hide Valid, RestWritten, RestEnd, CrcLaw, Agrees, RecordBytes, RecordFrom, Started, Fragment;
      var scratch: seq<Byte> := [];
      var inFragmentedRecord := false;
      ghost var rest, begin, end := data, true, RecordEnd(data, at);
      ReadingDone();
      ghost var upcoming, direct := Upcoming(data, at), HeaderPos(Pos()) == at;
      ghost var from := Pos(); // where the record being put together starts
      while true
        invariant Valid() && |buffer| <= filePos && old(Pos()) <= Pos() <= |file|
        invariant upcoming && begin ==> rest == data && HeaderPos(Pos()) <= at && (direct ==> HeaderPos(Pos()) == at)
        invariant upcoming && !begin ==>
                    RestWritten(rest, false) && RestEnd(rest, false) == end && scratch + rest == data &&
                    inFragmentedRecord
        invariant upcoming && direct ==> drops == old(drops) && (begin ==> scratch == [] && !inFragmentedRecord)
        invariant old(Pos()) == |file| ==> Pos() == |file| && drops == old(drops)
        invariant inFragmentedRecord ==> old(Pos()) <= from < Pos() && Started(extend, file, from, Pos(), scratch)
        decreases |file| - Pos()
      {
        ghost var p := Pos();
        ghost var here := upcoming && (begin ==> HeaderPos(p) == at);
        if here && begin { Arrived(data, at); }
        var t, fragment := ReadFragment(rest, begin, end);
        ReadingDone();
        FragmentJoins(from, p, scratch, fragment, t, inFragmentedRecord);
        if t == FIRST_TYPE || t == FULL_TYPE { from := p; }
        if upcoming && !here { OnTheWay(p, at); }
        if here && t != EOF {
          FragmentTaken(data, rest, begin, scratch, fragment);
          if fragment != rest { begin, rest := false, rest[|fragment|..]; }
        }
        var done;
        done, ok, record, scratch, inFragmentedRecord := Assemble(t, fragment, scratch, inFragmentedRecord);
        if done {
          EndSeen(HeaderPos(p));
          return;
        }
      }
    }

    lemma EndSeen(p: nat)
      requires |buffer| <= filePos
      ensures AtEnd(p) ==> Pos() == |file|
    {
    }

    /** A fragment moves from the rest of the record to what has been put together. */
    lemma FragmentTaken(data: seq<Byte>, rest: seq<Byte>, begin: bool, scratch: seq<Byte>, fragment: seq<Byte>)
      requires fragment <= rest && if begin then rest == data else scratch + rest == data
      ensures begin ==> fragment + rest[|fragment|..] == data
      ensures !begin ==> (scratch + fragment) + rest[|fragment|..] == data
      ensures fragment == rest ==> if begin then fragment == data else scratch + fragment == data
    {
      assert rest == fragment + rest[|fragment|..];
    }

    /** What the fragment read makes of the record being put together. */
    lemma FragmentJoins(from: int, p: nat, scratch: seq<Byte>, fragment: seq<Byte>, t: nat, inFragmentedRecord: bool)
      requires |buffer| <= filePos && (t != EOF ==> p < Pos())
      requires t <= LAST_TYPE ==> Fragment(extend, file, p, Pos(), t, fragment)
      requires inFragmentedRecord ==> 0 <= from < p && Started(extend, file, from, p, scratch)
      ensures t == FULL_TYPE ==> RecordFrom(extend, file, p, Pos(), fragment)
      ensures t == FIRST_TYPE ==> Started(extend, file, p, Pos(), fragment)
      ensures t == MIDDLE_TYPE && inFragmentedRecord ==> Started(extend, file, from, Pos(), scratch + fragment)
      ensures t == LAST_TYPE && inFragmentedRecord ==> RecordFrom(extend, file, from, Pos(), scratch + fragment)
    {
      hide Fragment;
      if inFragmentedRecord && (t == MIDDLE_TYPE || t == LAST_TYPE) {
        StartedGrows(extend, file, from, p, Pos(), scratch, fragment, t);
      }
    }

    /** What a physical record adds to the record being put together; what is given up is reported. */
    method Assemble(t: nat, fragment: seq<Byte>, scratch: seq<Byte>, inFragmentedRecord: bool)
      returns (done: bool, ok: bool, record: seq<Byte>, scratch': seq<Byte>, inFragmentedRecord': bool)
      modifies this`drops
      ensures t == FULL_TYPE ==>
              done && ok && record == fragment && drops == old(drops) + GivenUp(scratch, inFragmentedRecord)
      ensures t == FIRST_TYPE ==>
              !done && scratch' == fragment && inFragmentedRecord' &&
              drops == old(drops) + GivenUp(scratch, inFragmentedRecord)
      ensures t == MIDDLE_TYPE && inFragmentedRecord ==>
              !done && scratch' == scratch + fragment && inFragmentedRecord' && drops == old(drops)
      ensures t == LAST_TYPE && inFragmentedRecord ==> done && ok && record == scratch + fragment && drops == old(drops)
      ensures (t == MIDDLE_TYPE || t == LAST_TYPE) && !inFragmentedRecord ==>
              !done && !inFragmentedRecord' && drops == old(drops) + [|fragment|]
      ensures done && !ok <==> t == EOF
      ensures t == EOF ==> drops == old(drops)
      ensures t == BAD_RECORD ==>
        !done && !inFragmentedRecord' && drops == old(drops) + if inFragmentedRecord then [|scratch|] else []
      ensures t == ZERO_TYPE || t > BAD_RECORD ==>
        !done && !inFragmentedRecord' &&
        drops == old(drops) + [|fragment| + if inFragmentedRecord then |scratch| else 0]
    {
      done, ok, record, scratch', inFragmentedRecord' := false, false, [], scratch, inFragmentedRecord;
      if t == FULL_TYPE {
        if inFragmentedRecord && |scratch| > 0 {
          ReportCorruption(|scratch|);
        }
        done, ok, record := true, true, fragment;
      } else if t == FIRST_TYPE {
        if inFragmentedRecord && |scratch| > 0 {
          ReportCorruption(|scratch|);
        }
        scratch', inFragmentedRecord' := fragment, true;
      } else if t == MIDDLE_TYPE {
        if !inFragmentedRecord {
          ReportCorruption(|fragment|);
        } else {
          scratch' := scratch + fragment;
        }
      } else if t == LAST_TYPE {
        if !inFragmentedRecord {
          ReportCorruption(|fragment|);
        } else {
          done, ok, record := true, true, scratch + fragment;
        }
      } else if t == EOF {
        done := true;
      } else if t == BAD_RECORD {
        if inFragmentedRecord {
          ReportCorruption(|scratch|);
          scratch', inFragmentedRecord' := [], false;
        }
      } else {
        ReportCorruption(|fragment| + if inFragmentedRecord then |scratch| else 0);
        scratch', inFragmentedRecord' := [], false;
      }
    }

    lemma ReadingDone()
      requires Valid()
      ensures |buffer| <= filePos && Pos() <= |file|
    {
    }

    /** The rest of a record starts with its next fragment. */
    lemma NextFragment(data: seq<Byte>, begin: bool)
      requires Valid() && RestWritten(data, begin)
      ensures Written(data, begin) && CrcLaw(extend)
      ensures var at := HeaderPos(Pos());
        && Agrees(file, at, RecordBytes(extend, at % BLOCK_SIZE, data, begin))
        && RestEnd(data, begin) == at + |RecordBytes(extend, at % BLOCK_SIZE, data, begin)|
      ensures !Whole(data) ==> RestEnd(data, begin) > |file|
    {
      hide Agrees, CrcLaw, RecordBytes, Physical, FragmentLength;
      var at := HeaderPos(Pos());
      HeaderFits(Pos());
      FirstOfRecord(extend, at % BLOCK_SIZE, data, begin);
      UnpaddedFirst(extend, at % BLOCK_SIZE, data, begin);
      var n := FragmentLength(at % BLOCK_SIZE, data);
      AgreesParts(file, at, Physical(extend, FragmentType(begin, n == |data|), data[..n]),
                  if n == |data| then []
                  else RecordBytes(extend, StartOffset(at % BLOCK_SIZE) + HEADER_SIZE + n, data[n..], false));
    }

    /** After a fragment the rest of the record starts, or the record ends. */
    lemma AfterFragment(at: nat, data: seq<Byte>, begin: bool, end: nat)
      requires Valid() && CrcLaw(extend) && Agrees(file, at, RecordBytes(extend, at % BLOCK_SIZE, data, begin))
      requires at % BLOCK_SIZE + HEADER_SIZE <= BLOCK_SIZE
      requires Pos() == at + HEADER_SIZE + FragmentLength(at % BLOCK_SIZE, data)
      requires end == at + |RecordBytes(extend, at % BLOCK_SIZE, data, begin)|
      ensures var n := FragmentLength(at % BLOCK_SIZE, data);
        if n == |data| then Pos() == end else RestWritten(data[n..], false) && RestEnd(data[n..], false) == end
    {
      hide Agrees, CrcLaw, RecordBytes;
      FirstOfRecord(extend, at % BLOCK_SIZE, data, begin);
      var n := FragmentLength(at % BLOCK_SIZE, data);
      if n < |data| {
        AgreesParts(file, at, FirstFragment(extend, at % BLOCK_SIZE, data, begin),
                    RecordBytes(extend, BLOCK_SIZE, data[n..], false));
        BlockFull(at, n);
        BlockEnd(extend, data[n..], false);
      }
    }

    /** The file holds all of the fragment that starts here. */
    ghost predicate Whole(data: seq<Byte>)
      requires |buffer| <= filePos
      reads this`filePos, this`buffer, this`eof
    {
      var at := HeaderPos(Pos());
      at + HEADER_SIZE + FragmentLength(at % BLOCK_SIZE, data) <= |file|
    }
  }

  /** The first block boundary past `p`. */
  function BlockAfter(p: nat): nat {
    (p / BLOCK_SIZE + 1) * BLOCK_SIZE
  }

  lemma BlockRoom(p: nat)
    requires p % BLOCK_SIZE + HEADER_SIZE <= BLOCK_SIZE
    ensures p + HEADER_SIZE <= BlockAfter(p)
  {
  }

  /** A position before a block boundary reaches at most that boundary, padding included. */
  lemma BlockReached(p: nat, at: nat)
    requires at % BLOCK_SIZE == 0
    ensures p < at ==> BlockAfter(p) <= at
    ensures p <= at ==> HeaderPos(p) <= at
    ensures HeaderPos(at) == at
  {
    assert HeaderPos(p) <= BlockAfter(p);
  }

  /** There is room for a header where one is looked for, and no padding before it. */
  lemma HeaderFits(p: nat)
    ensures var o := HeaderPos(p) % BLOCK_SIZE; o + HEADER_SIZE <= BLOCK_SIZE && StartOffset(o) == o && Padding(o) == 0
    ensures p <= HeaderPos(p) == HeaderPos(HeaderPos(p))
  {
    HeaderOffset(p);
  }

  lemma UnpaddedFirst(extend: (nat, seq<Byte>) -> nat, offset: nat, data: seq<Byte>, begin: bool)
    requires offset + HEADER_SIZE <= BLOCK_SIZE
    ensures var n := FragmentLength(offset, data);
      FirstFragment(extend, offset, data, begin) == Physical(extend, FragmentType(begin, n == |data|), data[..n])
  {
    hide Physical;
    assert Zeros(Padding(offset)) == [];
  }

  /** A fragment that is not the last of its record ends with the block. */
  lemma BlockFull(at: nat, n: nat)
    requires at % BLOCK_SIZE + HEADER_SIZE + n == BLOCK_SIZE
    ensures var q := at + HEADER_SIZE + n; q % BLOCK_SIZE == 0 && HeaderPos(q) == q
  {
    assert at + HEADER_SIZE + n == (at / BLOCK_SIZE + 1) * BLOCK_SIZE;
  }

  lemma TrailerEnds(filePos: nat, left: nat)
    requires filePos % BLOCK_SIZE == 0 && left <= filePos && left < HEADER_SIZE
    ensures filePos == HeaderPos(filePos - left)
  {
    var q := filePos / BLOCK_SIZE;
    if left > 0 { assert filePos - left == (q - 1) * BLOCK_SIZE + (BLOCK_SIZE - left); }
  }

  /** Where the header of a record written at `p` lies. */
  function HeaderPos(p: nat): nat {
    p + Padding(p % BLOCK_SIZE)
  }

  lemma HeaderAfter(p: nat)
    ensures p <= HeaderPos(p)
  {
  }

  lemma HeaderOffset(p: nat)
    ensures HeaderPos(p) % BLOCK_SIZE == StartOffset(p % BLOCK_SIZE)
  {
  }

  /** With room for a header in the buffer, the padding is behind. */
  lemma HeaderStart(p0: nat, p: nat, left: nat)
    requires p == p0 || p == HeaderPos(p0)
    requires left >= HEADER_SIZE && p % BLOCK_SIZE + left <= BLOCK_SIZE
    ensures p == HeaderPos(p0)
  {
  }

  // ---- whole logs ----

  lemma {:induction false} LogPrefix(extend: (nat, seq<Byte>) -> nat, records: seq<seq<Byte>>, i: nat)
    requires i <= |records|
    ensures LogOf(extend, records[..i]) <= LogOf(extend, records)
  {
    if i < |records| {
      var init := records[..|records| - 1];
      LogPrefix(extend, init, i);
      assert init[..i] == records[..i];
    } else {
      assert records[..i] == records;
    }
  }

  lemma LogStep(extend: (nat, seq<Byte>) -> nat, records: seq<seq<Byte>>, i: nat)
    requires i < |records|
    ensures var before := LogOf(extend, records[..i]);
      LogOf(extend, records[..i + 1]) == before + RecordBytes(extend, |before| % BLOCK_SIZE, records[i], true)
  {
    assert records[..i + 1][..i] == records[..i];
  }

  /** In a prefix of a log, the bytes of record `i` lie where its log position says. */
  lemma RecordInLog(extend: (nat, seq<Byte>) -> nat, records: seq<seq<Byte>>, i: nat, file: seq<Byte>)
    requires i < |records| && file <= LogOf(extend, records)
    ensures var p := |LogOf(extend, records[..i])|;
      Agrees(file, p, RecordBytes(extend, p % BLOCK_SIZE, records[i], true))
  {
    hide LogOf, RecordBytes;
    LogPrefix(extend, records, i + 1);
    LogStep(extend, records, i);
    var before := LogOf(extend, records[..i]);
    var bytes := RecordBytes(extend, |before| % BLOCK_SIZE, records[i], true);
    var all := LogOf(extend, records);
    forall j | 0 <= j < |bytes| && |before| + j < |file| ensures file[|before| + j] == bytes[j] {
      assert all[|before| + j] == (before + bytes)[|before| + j];
    }
  }

  /** The first `k` records are exactly those that lie wholly in the first `n` bytes. */
  ghost predicate WhollyIn(extend: (nat, seq<Byte>) -> nat, records: seq<seq<Byte>>, n: nat, k: nat) {
    && k <= |records| && |LogOf(extend, records[..k])| <= n
    && (k < |records| ==> |LogOf(extend, records[..k + 1])| > n)
  }

  /** Where the reader stands between two records of a log that starts at a block boundary, the next
      one was written. */
  lemma NextIsWritten(reader: Reader, records: seq<seq<Byte>>, from: nat, i: nat)
    requires |reader.buffer| <= reader.filePos && Lawful(reader.extend, reader.file, records, from)
    requires i < |records| && reader.Pos() == from + |LogOf(reader.extend, records[..i])|
    ensures var at := HeaderPos(reader.Pos());
      reader.Upcoming(records[i], at) &&
      reader.RecordEnd(records[i], at) == from + |LogOf(reader.extend, records[..i + 1])|
  {
    hide LogOf, RecordBytes, CrcLaw, Agrees;
    var extend, file, q := reader.extend, reader.file, |LogOf(reader.extend, records[..i])|;
    var p := from + q;
    RecordInLog(extend, records, i, file[from..]);
    LogStep(extend, records, i);
    assert p % BLOCK_SIZE == q % BLOCK_SIZE;
    AgreesSuffix(file, from, q, RecordBytes(extend, q % BLOCK_SIZE, records[i], true));
    PaddingFirst(extend, p % BLOCK_SIZE, records[i], true);
    HeaderOffset(p);
    AgreesParts(file, p, Zeros(Padding(p % BLOCK_SIZE)),
                RecordBytes(extend, StartOffset(p % BLOCK_SIZE), records[i], true));
  }

  /** From a block boundary on the file is the log of these records, cut off anywhere. */
  ghost predicate Lawful(extend: (nat, seq<Byte>) -> nat, file: seq<Byte>, records: seq<seq<Byte>>, from: nat) {
    CrcLaw(extend) && from % BLOCK_SIZE == 0 && from <= |file| && file[from..] <= LogOf(extend, records)
  }

  /** Without the first `before`, these are the first of the records. */
  ghost predicate EndsIn(result: seq<seq<Byte>>, before: nat, records: seq<seq<Byte>>) {
    && before <= |result| && |result| - before <= |records|
    && result[before..] == records[..|result| - before]
  }

  /** Without the first `before`, these are exactly the records that lie wholly in `n` bytes of their log. */
  ghost predicate EndsExactly(extend: (nat, seq<Byte>) -> nat, records: seq<seq<Byte>>, n: nat, result: seq<seq<Byte>>,
                              before: nat) {
    EndsIn(result, before, records) && WhollyIn(extend, records, n, |result| - before)
  }

  lemma EndsGrow(result: seq<seq<Byte>>, before: nat, records: seq<seq<Byte>>, record: seq<Byte>)
    requires EndsIn(result, before, records)
    ensures before == |result| ==> EndsIn(result + [record], before + 1, records)
    ensures var k := |result| - before;
      k < |records| && records[k] == record ==> EndsIn(result + [record], before, records)
  {
    var k := |result| - before;
    assert (result + [record])[before..] == result[before..] + [record];
    if k < |records| { assert records[..k + 1] == records[..k] + [records[k]]; }
  }

  lemma LawfulSize(extend: (nat, seq<Byte>) -> nat, file: seq<Byte>, records: seq<seq<Byte>>, from: nat)
    requires Lawful(extend, file, records, from)
    ensures from <= |file| <= from + |LogOf(extend, records)| && from % BLOCK_SIZE == 0 && LogOf(extend, []) == []
    ensures CrcLaw(extend)
  {
  }

  lemma AgreesSuffix(file: seq<Byte>, from: nat, q: nat, bytes: seq<Byte>)
    requires from <= |file| && Agrees(file[from..], q, bytes)
    ensures Agrees(file, from + q, bytes)
  {
    forall j | 0 <= j < |bytes| && from + q + j < |file| ensures file[from + q + j] == bytes[j] {
      assert file[from..][q + j] == bytes[j];
    }
  }

  /** The bytes of a record are its padding and what is written past it. */
  lemma PaddingFirst(extend: (nat, seq<Byte>) -> nat, offset: nat, data: seq<Byte>, begin: bool)
    requires offset <= BLOCK_SIZE
    ensures RecordBytes(extend, offset, data, begin) ==
            Zeros(Padding(offset)) + RecordBytes(extend, StartOffset(offset), data, begin)
  {
    hide RecordBytes, Physical;
    var o := StartOffset(offset);
    var n := FragmentLength(offset, data);
    FirstOfRecord(extend, offset, data, begin);
    FirstOfRecord(extend, o, data, begin);
    UnpaddedFirst(extend, o, data, begin);
    assert StartOffset(o) == o && FragmentLength(o, data) == n;
  }

  /** The record at the block boundary is still to come, or is the next. */
  lemma FirstIsUpcoming(reader: Reader, records: seq<seq<Byte>>, from: nat)
    requires |reader.buffer| <= reader.filePos && Lawful(reader.extend, reader.file, records, from)
    requires records != [] && HeaderPos(reader.Pos()) <= from
    ensures reader.Upcoming(records[0], from)
    ensures reader.RecordEnd(records[0], from) == from + |LogOf(reader.extend, records[..1])|
  {
    hide RecordBytes, CrcLaw, Agrees, LogOf;
    EmptyLog(reader.extend);
    assert records[..0] == [];
    RecordInLog(reader.extend, records, 0, reader.file[from..]);
    LogStep(reader.extend, records, 0);
    AgreesSuffix(reader.file, from, 0, RecordBytes(reader.extend, 0, records[0], true));
  }

  /** Where the reader is: short of the block boundary, or behind the records returned since. */
  ghost predicate Stands(extend: (nat, seq<Byte>) -> nat, records: seq<seq<Byte>>, from: nat, result: seq<seq<Byte>>,
                         before: nat, arrived: bool, pos: nat) {
    && EndsIn(result, before, records)
    && if arrived then pos == from + |LogOf(extend, records[..|result| - before])|
       else before == |result| && HeaderPos(pos) <= from
  }

  /** The record to be read next, and where its header is. */
  lemma Expected(reader: Reader, records: seq<seq<Byte>>, from: nat, result: seq<seq<Byte>>, before: nat,
                 arrived: bool) returns (data: seq<Byte>, at: nat)
    requires reader.Valid() && |reader.buffer| <= reader.filePos && Lawful(reader.extend, reader.file, records, from)
    requires Stands(reader.extend, records, from, result, before, arrived, reader.Pos())
    ensures before <= |result| && |result| - before <= |records|
    ensures at == if arrived then HeaderPos(reader.Pos()) else from
    ensures HeaderPos(reader.Pos()) <= at
    ensures var k := |result| - before;
      if k < |records| then
        && data == records[k] && reader.Upcoming(data, at)
        && reader.RecordEnd(data, at) == from + |LogOf(reader.extend, records[..k + 1])|
      else if arrived then reader.Pos() == |reader.file| else |reader.file| == from
  {
    hide LogOf, Lawful, HeaderPos, Reader.Upcoming, Reader.RecordEnd;
    var k := |result| - before;
    LawfulSize(reader.extend, reader.file, records, from);
    reader.ReadingDone();
    assert records[..|records|] == records;
    data, at := if k < |records| then records[k] else [], if arrived then HeaderPos(reader.Pos()) else from;
    if k < |records| {
      if arrived { NextIsWritten(reader, records, from, k); } else { FirstIsUpcoming(reader, records, from); }
    }
  }

  /** What a record that was read makes of where the reader is. */
  lemma Advanced(extend: (nat, seq<Byte>) -> nat, records: seq<seq<Byte>>, from: nat, result: seq<seq<Byte>>,
                 before: nat, arrived: bool, pos: nat, record: seq<Byte>, pos': nat)
    returns (before': nat, arrived': bool)
    requires from % BLOCK_SIZE == 0 && Stands(extend, records, from, result, before, arrived, pos)
    requires var k := |result| - before;
      || (!arrived && pos' <= from)
      || (k < |records| && record == records[k] && pos' == from + |LogOf(extend, records[..k + 1])|)
    ensures Stands(extend, records, from, result + [record], before', arrived', pos')
    ensures arrived && pos' > from ==> arrived' && before' == before
  {
    hide LogOf, HeaderPos, EndsIn;
    EndsGrow(result, before, records, record);
    EndsWithin(result, before, records);
    if !arrived && pos' <= from {
      BlockReached(pos', from);
      before', arrived' := before + 1, false;
    } else {
      before', arrived' := before, true;
    }
  }

  lemma EndsWithin(result: seq<seq<Byte>>, before: nat, records: seq<seq<Byte>>)
    requires EndsIn(result, before, records)
    ensures before <= |result| && |result| - before <= |records|
  {
  }

  lemma StandsAtStart(extend: (nat, seq<Byte>) -> nat, records: seq<seq<Byte>>, from: nat)
    ensures Stands(extend, records, from, [], 0, from == 0, 0)
  {
    BlockReached(0, 0);
    EmptyLog(extend);
    assert records[..0] == [];
  }

  /** Nothing is left to be read. */
  lemma NoneLeft(extend: (nat, seq<Byte>) -> nat, records: seq<seq<Byte>>, from: nat, result: seq<seq<Byte>>,
                 before: nat, arrived: bool, pos: nat, size: nat)
    requires Stands(extend, records, from, result, before, arrived, pos) && pos <= size && from <= size
    requires var k := |result| - before; k < |records| ==> from + |LogOf(extend, records[..k + 1])| > size
    ensures EndsExactly(extend, records, size - from, result, before)
  {
    EmptyLog(extend);
    assert records[..0] == [];
  }

  /** Reads all records of a file.  Whatever comes before, if from some block boundary on the file is
      a log of `records` cut off anywhere, the result ends with exactly the records that lie wholly
      in the file; from the start of the file, it is exactly these, and nothing is reported. */
  method ReadLog(extend: (nat, seq<Byte>) -> nat, file: seq<Byte>, ghost records: seq<seq<Byte>>, ghost from: nat)
    returns (result: seq<seq<Byte>>, drops: seq<nat>, ghost before: nat)
    ensures RecordsBefore(extend, file, |file|, result)
    ensures Lawful(extend, file, records, from) && (from == 0 || !EndMarked(extend, file)) ==>
      EndsExactly(extend, records, |file| - from, result, before)
    ensures Lawful(extend, file, records, from) && from == 0 ==> before == 0 && drops == []
  {
    hide RecordFrom, RecordsBefore, EndMarked, HeaderPos, Lawful, Stands, EndsIn, Reader.Upcoming, Reader.RecordEnd;
    hide LogOf, RecordBytes, CrcLaw, Agrees, Reader.Valid, EndsExactly;
    var reader := new Reader(extend, file);
    result, before := [], 0;
    ghost var good := Lawful(extend, file, records, from) && (from == 0 || !EndMarked(extend, file));
    ghost var arrived := from == 0;
    reader.ReadingDone();
    NoRecords(extend, file);
    StandsAtStart(extend, records, from);
    if good { LawfulSize(extend, file, records, from); }
    var more := true;
    while more
      invariant reader.Valid() && reader.extend == extend && reader.file == file && fresh(reader)
      invariant |reader.buffer| <= reader.filePos && (good ==> from <= |file| && from % BLOCK_SIZE == 0)
      invariant RecordsBefore(extend, file, reader.Pos(), result)
      invariant good && from == 0 ==> arrived && before == 0 && reader.drops == []
      invariant good && more ==> Stands(extend, records, from, result, before, arrived, reader.Pos())
      invariant good && !more ==> EndsExactly(extend, records, |file| - from, result, before)
      decreases more, |file| - reader.Pos()
    {
      ghost var next, at := [], 0;
      if good { next, at := Expected(reader, records, from, result, before, arrived); }
      ghost var q := reader.Pos();
      var ok, record := reader.ReadRecord(next, at);
      reader.ReadingDone();
      if ok {
        ghost var p: nat :| q <= p <= reader.Pos() && RecordFrom(extend, file, p, reader.Pos(), record);
        RecordsGrow(extend, file, q, p, reader.Pos(), result, record);
        if good {
          before, arrived := Advanced(extend, records, from, result, before, arrived, q, record, reader.Pos());
        }
        result := result + [record];
      } else {
        RecordsEarlier(extend, file, q, reader.Pos(), result);
        if good { NoneLeft(extend, records, from, result, before, arrived, q, |file|); }
        more := false;
      }
    }
    reader.ReadingDone();
    RecordsEarlier(extend, file, reader.Pos(), |file|, result);
    drops := reader.drops;
  }

  lemma NoRecords(extend: (nat, seq<Byte>) -> nat, file: seq<Byte>)
    ensures RecordsBefore(extend, file, 0, [])
  {
  }

  lemma EmptyLog(extend: (nat, seq<Byte>) -> nat)
    ensures LogOf(extend, []) == []
  {
  }

  /** Writing records to a new file makes the log of them. */
  method WriteLog(extend: (nat, seq<Byte>) -> nat, records: seq<seq<Byte>>) returns (file: seq<Byte>)
    ensures file == LogOf(extend, records)
  {
    hide LogOf, RecordBytes;
    EmptyLog(extend);
    var writer := new Writer(extend, []);
    for i := 0 to |records|
      invariant writer.Valid() && writer.extend == extend && fresh(writer) && writer.dest == LogOf(extend, records[..i])
    {
      LogStep(extend, records, i);
      writer.AddRecord(records[i]);
    }
    assert records[..|records|] == records;
    file := writer.dest;
  }

  /** What is written is read back: all of it from the whole file, and from a file cut off at
      any byte the records before the cut. */
  method RoundTrip(extend: (nat, seq<Byte>) -> nat, records: seq<seq<Byte>>, cut: nat)
    returns (result: seq<seq<Byte>>, drops: seq<nat>)
    requires CrcLaw(extend)
    ensures drops == [] && |result| <= |records| && result == records[..|result|]
    ensures WhollyIn(extend, records, if cut < |LogOf(extend, records)| then cut else |LogOf(extend, records)|,
                     |result|)
    ensures cut >= |LogOf(extend, records)| ==> result == records
  {
    hide CrcLaw, LogOf;
    var file := WriteLog(extend, records);
    if cut < |file| {
      file := file[..cut];
    }
    assert file[0..] == file;
    ghost var before;
    result, drops, before := ReadLog(extend, file, records, 0);
    assert result[0..] == result;
    AllRead(extend, records, |result|);
    assert records[..|records|] == records;
  }

  lemma {:induction false} LogGrows(extend: (nat, seq<Byte>) -> nat, records: seq<seq<Byte>>, k: nat)
    requires k < |records|
    ensures |LogOf(extend, records[..k + 1])| <= |LogOf(extend, records)|
  {
    LogPrefix(extend, records, k + 1);
  }

  lemma AllRead(extend: (nat, seq<Byte>) -> nat, records: seq<seq<Byte>>, k: nat)
    requires k <= |records|
    ensures WhollyIn(extend, records, |LogOf(extend, records)|, k) ==> k == |records|
  {
    if k < |records| { LogGrows(extend, records, k); }
  }
}
