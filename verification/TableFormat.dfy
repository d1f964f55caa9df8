/** Block handles, the footer, and blocks with their trailers on file (table/format.cc). */
module TableFormat {
  import opened InternalKeys
  import opened Coding
  import opened LogFormat
  import opened Blocks

  const TRAILER_SIZE: nat := 5
  const MAX_HANDLE: nat := 20
  const FOOTER_SIZE: nat := 48
  const MAGIC_LOW: nat := 0x8b80_fb57
  const MAGIC_HIGH: nat := 0xdb47_7524
  const NO_COMPRESSION: Byte := 0
  const SNAPPY_COMPRESSION: Byte := 1

  // ---- handles ----

  /** Where a block lies. */
  datatype Handle = Handle(offset: nat, size: nat)

  function HandleBytes(h: Handle): Bytes {
    EncodeVarint(h.offset % DOUBLE_WORD) + EncodeVarint(h.size % DOUBLE_WORD)
  }

  /** The handle at `p` and where it ends. */
  function HandleAt(bytes: Bytes, p: nat): Option<(Handle, nat)> {
    var a := VarintAt(bytes, p, |bytes|, 10);
    if a.None? then None
    else
      var b := VarintAt(bytes, p + a.value.1, |bytes|, 10);
      if b.None? then None
      else Some((Handle(a.value.0 % DOUBLE_WORD, b.value.0 % DOUBLE_WORD), p + a.value.1 + b.value.1))
  }

  method EncodeHandle(h: Handle) returns (bytes: Bytes)
    ensures bytes == HandleBytes(h)
  {
    bytes := EncodeVarint64(h.offset % DOUBLE_WORD);
    var size := EncodeVarint64(h.size % DOUBLE_WORD);
    bytes := bytes + size;
  }

  method DecodeHandle(bytes: Bytes, p: nat) returns (r: Option<(Handle, nat)>)
    ensures r == HandleAt(bytes, p)
  {
    hide VarintAt;
    var a := GetVarint64Ptr(bytes, p, |bytes|);
    if a.None? { return None; }
    var b := GetVarint64Ptr(bytes, a.value.1, |bytes|);
    if b.None? { return None; }
    return Some((Handle(a.value.0, b.value.0), b.value.1));
  }

  /** A handle of 64-bit numbers is read back as it was written, whatever surrounds it. */
  lemma HandleRoundTrip(h: Handle, bytes: Bytes, p: nat)
    requires h.offset < DOUBLE_WORD && h.size < DOUBLE_WORD
    requires p + |HandleBytes(h)| <= |bytes| && bytes[p..p + |HandleBytes(h)|] == HandleBytes(h)
    ensures HandleAt(bytes, p) == Some((h, p + |HandleBytes(h)|))
  {
    hide VarintAt, EncodeVarint, Power128;
    PowersOf128();
    var a, b := EncodeVarint(h.offset), EncodeVarint(h.size);
    assert bytes[p..p + |a|] == a by { assert bytes[p..p + |a|] == bytes[p..p + |a + b|][..|a|]; }
    assert bytes[p + |a|..p + |a| + |b|] == b by {
      assert bytes[p + |a|..p + |a| + |b|] == bytes[p..p + |a + b|][|a|..];
    }
    VarintRoundTrip(h.offset, bytes, p, |bytes|, 10);
    VarintRoundTrip(h.size, bytes, p + |a|, |bytes|, 10);
  }

  lemma HandleShort(h: Handle)
    ensures 0 < |HandleBytes(h)| <= MAX_HANDLE
  {
    hide EncodeVarint, Power128;
    PowersOf128();
    VarintShort(h.offset % DOUBLE_WORD, 10);
    VarintShort(h.size % DOUBLE_WORD, 10);
  }

  // ---- the footer ----

  function FooterBytes(meta: Handle, index: Handle): (bytes: Bytes)
    ensures |bytes| == FOOTER_SIZE
  {
    HandleShort(meta);
    HandleShort(index);
    var handles := HandleBytes(meta) + HandleBytes(index);
    handles + Zeros(2 * MAX_HANDLE - |handles|) + EncodeFixed32(MAGIC_LOW) + EncodeFixed32(MAGIC_HIGH)
  }

  /** Both handles, if the magic number is right and they parse. */
  function FooterAt(bytes: Bytes): Option<(Handle, Handle)>
    requires |bytes| == FOOTER_SIZE
  {
    if DecodeFixed32(bytes[40..44]) != MAGIC_LOW || DecodeFixed32(bytes[44..48]) != MAGIC_HIGH then None
    else
      var meta := HandleAt(bytes, 0);
      if meta.None? then None
      else
        var index := HandleAt(bytes, meta.value.1);
        if index.None? then None else Some((meta.value.0, index.value.0))
  }

  method EncodeFooter(meta: Handle, index: Handle) returns (bytes: Bytes)
    ensures bytes == FooterBytes(meta, index)
  {
    hide EncodeFixed32, HandleBytes;
    var first := EncodeHandle(meta);
    var second := EncodeHandle(index);
    HandleShort(meta);
    HandleShort(index);
    bytes := first + second;
    bytes := bytes + Zeros(2 * MAX_HANDLE - |bytes|);
    bytes := bytes + EncodeFixed32(MAGIC_LOW) + EncodeFixed32(MAGIC_HIGH);
  }

  method DecodeFooter(bytes: Bytes) returns (r: Option<(Handle, Handle)>)
    requires |bytes| == FOOTER_SIZE
    ensures r == FooterAt(bytes)
  {
    hide HandleAt;
    if DecodeFixed32(bytes[40..44]) != MAGIC_LOW || DecodeFixed32(bytes[44..48]) != MAGIC_HIGH {
      return None;
    }
    var meta := DecodeHandle(bytes, 0);
    if meta.None? { return None; }
    var index := DecodeHandle(bytes, meta.value.1);
    if index.None? { return None; }
    return Some((meta.value.0, index.value.0));
  }

  lemma FooterRoundTrip(meta: Handle, index: Handle)
    requires meta.offset < DOUBLE_WORD && meta.size < DOUBLE_WORD && index.offset < DOUBLE_WORD
    requires index.size < DOUBLE_WORD
    ensures FooterAt(FooterBytes(meta, index)) == Some((meta, index))
  {
    hide HandleBytes, HandleAt, EncodeFixed32, DecodeFixed32, Zeros;
    HandleShort(meta);
    HandleShort(index);
    var bytes, a, b := FooterBytes(meta, index), HandleBytes(meta), HandleBytes(index);
    assert bytes[40..44] == EncodeFixed32(MAGIC_LOW) && bytes[44..48] == EncodeFixed32(MAGIC_HIGH);
    Fixed32RoundTrip(MAGIC_LOW);
    Fixed32RoundTrip(MAGIC_HIGH);
    assert bytes[0..|a|] == a && bytes[|a|..|a| + |b|] == b;
    HandleRoundTrip(meta, bytes, 0);
    HandleRoundTrip(index, bytes, |a|);
  }

  /** Nothing is taken for a footer without the magic number in its last eight bytes. */
  lemma MagicNeeded(bytes: Bytes)
    requires |bytes| == FOOTER_SIZE && FooterAt(bytes).Some?
    ensures bytes[40..] == [0x57, 0xfb, 0x80, 0x8b, 0x24, 0x75, 0x47, 0xdb]
  {
    hide HandleAt, EncodeFixed32, DecodeFixed32;
    Fixed32Back(bytes[40..44]);
    Fixed32Back(bytes[44..48]);
    assert bytes[40..] == bytes[40..44] + bytes[44..48];
    Magic();
  }

  lemma Magic()
    ensures EncodeFixed32(MAGIC_LOW) == [0x57, 0xfb, 0x80, 0x8b]
    ensures EncodeFixed32(MAGIC_HIGH) == [0x24, 0x75, 0x47, 0xdb]
  {
  }

  // ---- blocks on file ----

  /** The checksum and the compressor, as functions. */
  datatype Codec = Codec(extend: (nat, Bytes) -> nat, compress: Bytes -> Option<Bytes>,
                         uncompress: Bytes -> Option<Bytes>)

  ghost predicate CodecLaw(c: Codec) {
    && CrcLaw(c.extend)
    && forall raw :: c.compress(raw).Some? ==> c.uncompress(c.compress(raw).value) == Some(raw)
  }

  function CrcOf(c: Codec, bytes: Bytes): (crc: nat)
    ensures crc < WORD
  {
    c.extend(0, bytes) % WORD
  }

  function RawBlock(c: Codec, contents: Bytes, t: Byte): Bytes {
    contents + [t] + EncodeFixed32(Mask(c.extend(c.extend(0, contents), [t]) % WORD))
  }

  /** What a reader gets from the block at `h`: None for a truncated block, a checksum mismatch
      when checksums are verified, contents that do not uncompress or an unknown type. */
  function BlockAt(c: Codec, file: Bytes, h: Handle, verify: bool): Option<Bytes> {
    var n := h.size;
    if h.offset + n + TRAILER_SIZE > |file| then None
    else
      var data := file[h.offset..h.offset + n + TRAILER_SIZE];
      if verify && Unmask(DecodeFixed32(data[n + 1..])) != CrcOf(c, data[..n + 1]) then None
      else if data[n] == NO_COMPRESSION then Some(data[..n])
      else if data[n] == SNAPPY_COMPRESSION then c.uncompress(data[..n])
      else None
  }

  /** A block written is read back, with or without verifying its checksum. */
  lemma RawBlockRoundTrip(c: Codec, before: Bytes, contents: Bytes, t: Byte, verify: bool)
    requires CodecLaw(c)
    ensures BlockAt(c, before + RawBlock(c, contents, t), Handle(|before|, |contents|), verify) ==
            if t == NO_COMPRESSION then Some(contents)
            else if t == SNAPPY_COMPRESSION then c.uncompress(contents)
            else None
  {
    hide Mask, Unmask, EncodeFixed32, DecodeFixed32;
    var n, raw, file := |contents|, RawBlock(c, contents, t), before + RawBlock(c, contents, t);
    var data := file[|before|..|before| + n + TRAILER_SIZE];
    assert data == raw;
    var crc := c.extend(0, contents + [t]);
    assert c.extend(c.extend(0, contents), [t]) == crc;
    assert data[..n + 1] == contents + [t] && data[n + 1..] == EncodeFixed32(Mask(crc % WORD)) && data[..n] == contents;
    Fixed32RoundTrip(Mask(crc % WORD));
    UnmaskMask(crc % WORD);
  }

  /** With checksums verified a block is read exactly if its bytes are what a writer would have
      written, plain or compressed. */
  lemma VerifiedIffWritten(c: Codec, file: Bytes, h: Handle)
    requires CodecLaw(c) && h.offset + h.size + TRAILER_SIZE <= |file|
    ensures var contents := file[h.offset..h.offset + h.size]; var t := file[h.offset + h.size];
      BlockAt(c, file, h, true).Some? <==>
      && Has(file, h.offset, RawBlock(c, contents, t))
      && (t == NO_COMPRESSION || (t == SNAPPY_COMPRESSION && c.uncompress(contents).Some?))
  {
    hide Mask, Unmask, EncodeFixed32, DecodeFixed32;
    var n := h.size;
    var data := file[h.offset..h.offset + n + TRAILER_SIZE];
    var contents, t := data[..n], data[n];
    assert contents == file[h.offset..h.offset + n] && t == file[h.offset + n];
    var crc := c.extend(0, contents + [t]);
    assert c.extend(c.extend(0, contents), [t]) == crc == CrcOf(c, data[..n + 1]) by {
      assert data[..n + 1] == contents + [t];
    }
    MaskUnmask(DecodeFixed32(data[n + 1..]));
    Fixed32Back(data[n + 1..]);
    Fixed32RoundTrip(Mask(crc));
    UnmaskMask(crc);
    assert data == contents + [t] + data[n + 1..];
    var raw := RawBlock(c, contents, t);
    assert |raw| == n + TRAILER_SIZE && raw[n + 1..] == EncodeFixed32(Mask(crc));
  }

  /** Appending to the file changes no block already there. */
  lemma BlockKept(c: Codec, file: Bytes, more: Bytes, h: Handle, verify: bool)
    requires h.offset + h.size + TRAILER_SIZE <= |file|
    ensures BlockAt(c, file + more, h, verify) == BlockAt(c, file, h, verify)
  {
    var n := h.size;
    assert (file + more)[h.offset..h.offset + n + TRAILER_SIZE] == file[h.offset..h.offset + n + TRAILER_SIZE];
  }
}
