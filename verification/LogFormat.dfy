/** The log file format (db/log_format.h, db/log_writer.cc): records cut into fragments that
    never cross a block of 32 KB. */
module LogFormat {
  import opened Coding

  const BLOCK_SIZE: nat := 32768
  const HEADER_SIZE: nat := 7

  const ZERO_TYPE: nat := 0
  const FULL_TYPE: nat := 1
  const FIRST_TYPE: nat := 2
  const MIDDLE_TYPE: nat := 3
  const LAST_TYPE: nat := 4

  // ---- checksums ----

  const MASK_DELTA: nat := 0xa282ead8

  /** Rotates a 32-bit word right by 15 bits and adds a constant, modulo 2^32. */
  function Mask(crc: nat): (m: nat)
    requires crc < WORD
    ensures m < WORD
  {
    (crc / 0x8000 + (crc % 0x8000) * 0x2_0000 + MASK_DELTA) % WORD
  }

  /** Take the constant away again, and the lower 15 bits have become the upper ones. */
  lemma MaskRotates(crc: nat)
    requires crc < WORD
    ensures var rot := (Mask(crc) + WORD - MASK_DELTA) % WORD;
      rot / 0x2_0000 == crc % 0x8000 && rot % 0x2_0000 == crc / 0x8000
  {
    var hi, lo := crc / 0x8000, crc % 0x8000;
    assert (Mask(crc) + WORD - MASK_DELTA) % WORD == hi + lo * 0x2_0000;
  }

  function Unmask(m: nat): (crc: nat)
    requires m < WORD
    ensures crc < WORD
  {
    var rot := (m + WORD - MASK_DELTA) % WORD;
    rot / 0x2_0000 + (rot % 0x2_0000) * 0x8000
  }

  lemma UnmaskMask(crc: nat)
    requires crc < WORD
    ensures Unmask(Mask(crc)) == crc
  {
    var hi, lo := crc / 0x8000, crc % 0x8000;
    var rot := hi + lo * 0x2_0000;
    assert (Mask(crc) + WORD - MASK_DELTA) % WORD == rot;
    assert rot / 0x2_0000 == lo && rot % 0x2_0000 == hi;
  }

  lemma MaskUnmask(m: nat)
    requires m < WORD
    ensures Mask(Unmask(m)) == m
  {
    var rot := (m + WORD - MASK_DELTA) % WORD;
    var lo, hi := rot / 0x2_0000, rot % 0x2_0000;
    assert Unmask(m) / 0x8000 == hi && Unmask(m) % 0x8000 == lo;
  }

  /** What is known of CRC-32C: a value is a word, and extending by two strings one after the
      other is extending by both (section 12.1 of RFC 3720 defines the checksum itself). */
  ghost predicate CrcLaw(extend: (nat, seq<Byte>) -> nat) {
    && (forall c, a :: extend(c, a) < WORD)
    && forall a, b :: extend(extend(0, a), b) == extend(0, a + b)
  }

  // ---- physical records ----

  function Header(extend: (nat, seq<Byte>) -> nat, t: Byte, payload: seq<Byte>): (bytes: seq<Byte>)
    requires |payload| < 65536
    ensures |bytes| == HEADER_SIZE
  {
    var crc := extend(extend(0, [t]), payload);
    EncodeFixed32(if crc < WORD then Mask(crc) else 0) + [|payload| % 256, |payload| / 256, t]
  }

  function Physical(extend: (nat, seq<Byte>) -> nat, t: Byte, payload: seq<Byte>): seq<Byte>
    requires |payload| < 65536
  {
    Header(extend, t, payload) + payload
  }

  /** A header is read back as it was written, and its checksum fits the record. */
  lemma HeaderRoundTrip(extend: (nat, seq<Byte>) -> nat, t: Byte, payload: seq<Byte>)
    requires |payload| < 65536 && CrcLaw(extend)
    ensures var h := Header(extend, t, payload);
      && Unmask(DecodeFixed32(h[..4])) == extend(0, [t] + payload)
      && LittleEndian(h[4], h[5], 0, 0) == |payload| && h[6] == t
  {
    hide Mask, Unmask, EncodeFixed32, DecodeFixed32;
    var crc := extend(extend(0, [t]), payload);
    Fixed32RoundTrip(Mask(crc));
    UnmaskMask(crc);
    assert Header(extend, t, payload)[..4] == EncodeFixed32(Mask(crc));
  }

  // ---- fragments ----

  /** Zero bytes up to the end of the block when no header fits in it any more. */
  function Padding(offset: nat): nat
    requires offset <= BLOCK_SIZE
  {
    if BLOCK_SIZE - offset < HEADER_SIZE then BLOCK_SIZE - offset else 0
  }

  function StartOffset(offset: nat): (o: nat)
    requires offset <= BLOCK_SIZE
    ensures o + HEADER_SIZE <= BLOCK_SIZE
  {
    if BLOCK_SIZE - offset < HEADER_SIZE then 0 else offset
  }

  /** Length of the next fragment of `data` written at `offset` of a block. */
  function FragmentLength(offset: nat, data: seq<Byte>): (n: nat)
    requires offset <= BLOCK_SIZE
    ensures n <= |data| && StartOffset(offset) + HEADER_SIZE + n <= BLOCK_SIZE
  {
    var avail := BLOCK_SIZE - StartOffset(offset) - HEADER_SIZE;
    if |data| < avail then |data| else avail
  }

  function FragmentType(begin: bool, end: bool): Byte {
    if begin && end then FULL_TYPE else if begin then FIRST_TYPE else if end then LAST_TYPE else MIDDLE_TYPE
  }

  /** First fragment of what is written for `data` at `offset`, padding included. */
  function FirstFragment(extend: (nat, seq<Byte>) -> nat, offset: nat, data: seq<Byte>, begin: bool): (bytes: seq<Byte>)
    requires offset <= BLOCK_SIZE
    ensures |bytes| == Padding(offset) + HEADER_SIZE + FragmentLength(offset, data)
  {
    var n := FragmentLength(offset, data);
    Zeros(Padding(offset)) + Physical(extend, FragmentType(begin, n == |data|), data[..n])
  }

  /** A fragment holds all that is left, or fills its block to the last byte; the bytes before it
      are zeros up to the end of a block too full for another header. */
  lemma FragmentFills(extend: (nat, seq<Byte>) -> nat, offset: nat, data: seq<Byte>, begin: bool)
    requires offset <= BLOCK_SIZE
    ensures var bytes := FirstFragment(extend, offset, data, begin); var n := FragmentLength(offset, data);
      var pad := |bytes| - HEADER_SIZE - n;
      && (n == |data| || (offset + |bytes|) % BLOCK_SIZE == 0)
      && pad < HEADER_SIZE && (pad > 0 ==> offset + pad == BLOCK_SIZE)
      && (forall b :: b in bytes[..pad] ==> b == 0) && bytes[pad + HEADER_SIZE..] == data[..n]
      && (offset + pad) % BLOCK_SIZE + HEADER_SIZE + n <= BLOCK_SIZE
  {
    var bytes, n := FirstFragment(extend, offset, data, begin), FragmentLength(offset, data);
    assert bytes[..Padding(offset)] == Zeros(Padding(offset));
    assert bytes[Padding(offset) + HEADER_SIZE..] == data[..n];
  }

  /** All bytes written for the rest `data` of a record at `offset`. */
  function RecordBytes(extend: (nat, seq<Byte>) -> nat, offset: nat, data: seq<Byte>, begin: bool): seq<Byte>
    requires offset <= BLOCK_SIZE
    decreases |data|, if BLOCK_SIZE - offset < HEADER_SIZE then 0 else 1
  {
    var n := FragmentLength(offset, data);
    FirstFragment(extend, offset, data, begin) +
    if n == |data| then [] else RecordBytes(extend, StartOffset(offset) + HEADER_SIZE + n, data[n..], false)
  }

  /** A full block and a fresh one look the same to the writer. */
  lemma BlockEnd(extend: (nat, seq<Byte>) -> nat, data: seq<Byte>, begin: bool)
    ensures RecordBytes(extend, BLOCK_SIZE, data, begin) == RecordBytes(extend, 0, data, begin)
  {
    assert Zeros(Padding(BLOCK_SIZE)) == [] && Zeros(Padding(0)) == [];
  }

  /** The log that holds these records. */
  function LogOf(extend: (nat, seq<Byte>) -> nat, records: seq<seq<Byte>>): seq<Byte> {
    if records == [] then []
    else
      var before := LogOf(extend, records[..|records| - 1]);
      before + RecordBytes(extend, |before| % BLOCK_SIZE, records[|records| - 1], true)
  }

  // ---- the writer ----

  class Writer {
    const extend: (nat, seq<Byte>) -> nat
    var dest: seq<Byte>
    var blockOffset: nat

    ghost predicate Valid()
      reads this
    {
      blockOffset <= BLOCK_SIZE && blockOffset % BLOCK_SIZE == |dest| % BLOCK_SIZE
    }

    /** Writes to the end of a file that may already hold something. */
    constructor (extend: (nat, seq<Byte>) -> nat, dest: seq<Byte>)
      ensures Valid() && this.dest == dest && this.extend == extend
    {
      this.extend, this.dest, blockOffset := extend, dest, |dest| % BLOCK_SIZE;
    }

    method EmitPhysicalRecord(t: Byte, payload: seq<Byte>)
      requires blockOffset + HEADER_SIZE + |payload| <= BLOCK_SIZE
      modifies this
      ensures dest == old(dest) + Physical(extend, t, payload)
      ensures blockOffset == old(blockOffset) + HEADER_SIZE + |payload|
    {
      dest := dest + Header(extend, t, payload);
      dest := dest + payload;
      blockOffset := blockOffset + HEADER_SIZE + |payload|;
    }

    /** Fills the block with zeros and starts the next one when no header fits any more. */
    method SwitchBlock()
      requires Valid()
      modifies this
      ensures dest == old(dest) + Zeros(Padding(old(blockOffset))) && blockOffset == StartOffset(old(blockOffset))
    {
      hide Zeros;
      PaddingIs(blockOffset);
      var leftover := BLOCK_SIZE - blockOffset;
      if leftover < HEADER_SIZE {
        if leftover > 0 {
          dest := dest + Zeros(leftover);
        }
        blockOffset := 0;
      }
      assert dest == old(dest) + Zeros(Padding(old(blockOffset)));
    }

    /** One fragment of what is left of a record. */
    method WriteFragment(left: seq<Byte>, begin: bool) returns (n: nat)
      requires Valid()
      modifies this
      ensures Valid() && dest == old(dest) + FirstFragment(extend, old(blockOffset), left, begin)
      ensures n == FragmentLength(old(blockOffset), left)
      ensures blockOffset == StartOffset(old(blockOffset)) + HEADER_SIZE + n
    {
      hide Physical, Zeros;
      SwitchBlock();
      var avail := BLOCK_SIZE - blockOffset - HEADER_SIZE;
      n := if |left| < avail then |left| else avail;
      var end := |left| == n;
      var t: Byte;
      if begin && end {
        t := FULL_TYPE;
      } else if begin {
        t := FIRST_TYPE;
      } else if end {
        t := LAST_TYPE;
      } else {
        t := MIDDLE_TYPE;
      }
      EmitPhysicalRecord(t, left[..n]);
      assert dest == old(dest) + FirstFragment(extend, old(blockOffset), left, begin);
      OffsetsAgree(|old(dest)|, old(blockOffset), n);
    }

    /** Cuts the record into fragments; an empty record still gets one. */
    method AddRecord(record: seq<Byte>)
      requires Valid()
      modifies this
      ensures Valid()
      ensures dest == old(dest) + RecordBytes(extend, old(|dest|) % BLOCK_SIZE, record, true)
    {
      hide RecordBytes, FirstFragment;
      var left := record;
      var begin := true;
      BlockEnd(extend, record, true);
      ghost var whole := dest + RecordBytes(extend, blockOffset, left, begin);
      var more := true;
      while more
        invariant Valid()
        invariant if more then whole == dest + RecordBytes(extend, blockOffset, left, begin) else whole == dest
        decreases |left|, more, if BLOCK_SIZE - blockOffset < HEADER_SIZE then 0 else 1
      {
        FirstOfRecord(extend, blockOffset, left, begin);
        var fragmentLength := WriteFragment(left, begin);
        left := left[fragmentLength..];
        begin := false;
        more := |left| > 0;
        assert more ==> whole == dest + RecordBytes(extend, blockOffset, left, false);
      }
    }
  }

  lemma PaddingIs(offset: nat)
    requires offset <= BLOCK_SIZE
    ensures Zeros(0) == []
    ensures Padding(offset) == (if BLOCK_SIZE - offset < HEADER_SIZE then BLOCK_SIZE - offset else 0)
  {
  }

  lemma OffsetsAgree(length: nat, offset: nat, n: nat)
    requires offset <= BLOCK_SIZE && offset % BLOCK_SIZE == length % BLOCK_SIZE
    requires StartOffset(offset) + HEADER_SIZE + n <= BLOCK_SIZE
    ensures (StartOffset(offset) + HEADER_SIZE + n) % BLOCK_SIZE ==
            (length + Padding(offset) + HEADER_SIZE + n) % BLOCK_SIZE
  {
  }

  lemma FirstOfRecord(extend: (nat, seq<Byte>) -> nat, offset: nat, data: seq<Byte>, begin: bool)
    requires offset <= BLOCK_SIZE
    ensures var n := FragmentLength(offset, data);
      RecordBytes(extend, offset, data, begin) == FirstFragment(extend, offset, data, begin) +
        if n == |data| then [] else RecordBytes(extend, StartOffset(offset) + HEADER_SIZE + n, data[n..], false)
  {
  }
}
