/** Building a table file (table/table_builder.cc): data blocks, one index entry for each with
    a shortened key, a filter block, and the footer. */
module TableBuilders {
  import opened InternalKeys
  import opened Coding
  import opened ByteKeys
  import opened Blocks
  import opened BlockIterators
  import opened BloomFilters
  import opened FilterBlocks
  import opened TableFormat

  /** `filterName` is the name of the filter policy, if there is one. */
  datatype Options = Options(codec: Codec, interval: nat, blockSize: nat, compress: bool, filterName: Option<Bytes>)

  /** The key of the filter's handle in the metaindex block. */
  function FilterKey(name: Bytes): Bytes {
    [102, 105, 108, 116, 101, 114, 46] + name
  }

  /** A block as it was written. */
  datatype Stored = Stored(handle: Handle, layout: Layout, entries: Bytes)

  /** The block holds what its layout says and reads back from the file. */
  ghost predicate OnFile(c: Codec, file: Bytes, s: Stored) {
    && Laid(s.layout, s.entries) && s.layout.offsets[|s.layout.pairs|] == |s.entries| && |s.layout.restarts| < WORD
    && s.handle.offset + s.handle.size + TRAILER_SIZE <= |file|
    && forall verify :: BlockAt(c, file, s.handle, verify) == Some(BlockBytes(s.layout, s.entries))
  }

  /** Compressing the block saves more than an eighth of it. */
  ghost predicate Pays(options: Options, raw: Bytes) {
    options.compress && options.codec.compress(raw).Some? &&
    |raw| - |options.codec.compress(raw).value| > |raw| / 8
  }

  /** The block on file: compressed exactly if that pays. */
  ghost function BytesOnFile(options: Options, raw: Bytes): Bytes {
    if Pays(options, raw) then RawBlock(options.codec, options.codec.compress(raw).value, SNAPPY_COMPRESSION)
    else RawBlock(options.codec, raw, NO_COMPRESSION)
  }

  /** A pending block gets its index entry, under the shortest key between its last and the next. */
  ghost predicate Indexed(was: seq<Pair>, now: seq<Pair>, pending: bool, handle: Handle, last: Bytes, next: Bytes) {
    if pending then
      && |now| == |was| + 1 && now[..|was|] == was && now[|was|].value == HandleBytes(handle)
      && ShortestSeparator(now[|was|].key, last, next)
    else now == was
  }

  /** The last index entry has the short successor of the last key. */
  ghost predicate LastIndexed(index: seq<Pair>, last: Bytes) {
    index != [] && ShortSuccessor(index[|index| - 1].key, last)
  }

  /** A data block and which of the added pairs it holds. */
  datatype DataBlock = DataBlock(stored: Stored, from: nat, to: nat)

  /** The data blocks hold the added pairs up to `End`, in order, none empty. */
  ghost predicate Holds(c: Codec, file: Bytes, added: seq<Pair>, done: seq<DataBlock>, i: nat)
    requires i < |done|
  {
    var b := done[i];
    && OnFile(c, file, b.stored) && b.from < b.to <= |added| && b.stored.layout.pairs == added[b.from..b.to]
    && b.from == End(done[..i])
  }

  function End(done: seq<DataBlock>): nat {
    if done == [] then 0 else done[|done| - 1].to
  }

  ghost predicate AllHold(c: Codec, file: Bytes, added: seq<Pair>, done: seq<DataBlock>) {
    forall i :: 0 <= i < |done| ==> Holds(c, file, added, done, i)
  }

  /** The index key comes at or after the block's last key and before the next block's first. */
  ghost predicate SepOk(added: seq<Pair>, to: nat, sep: Bytes) {
    && 0 < to <= |added| && SeparatorOf(sep, added[to - 1].key) && !KeyBefore(sep, added[to - 1].key)
    && (to < |added| ==>
        KeyBefore(sep, added[to].key) && (sep != added[to - 1].key ==> BytesBefore(UserOf(sep), UserOf(added[to].key))))
  }

  /** Index entry `i` separates block `i` from the next and holds its handle. */
  ghost predicate IndexEntryOk(added: seq<Pair>, done: seq<DataBlock>, index: seq<Pair>, i: nat)
    requires i < |index| && i < |done|
  {
    SepOk(added, done[i].to, index[i].key) && index[i].value == HandleBytes(done[i].stored.handle)
  }

  ghost predicate IndexOk(added: seq<Pair>, done: seq<DataBlock>, index: seq<Pair>) {
    |index| <= |done| && forall i :: 0 <= i < |index| ==> IndexEntryOk(added, done, index, i)
  }

  /** Every key of the block went into the filter for the block's offset. */
  ghost predicate Covered(added: seq<Pair>, from: nat, to: nat, offset: nat, keys: seq<Added>)
    requires to <= |added|
  {
    forall j :: from <= j < to ==> Added(offset / FILTER_BASE, added[j].key) in keys
  }

  ghost predicate AllCovered(added: seq<Pair>, done: seq<DataBlock>, keys: seq<Added>) {
    forall i :: 0 <= i < |done| ==>
      done[i].to <= |added| && Covered(added, done[i].from, done[i].to, done[i].stored.handle.offset, keys)
  }

  /** Ascending internal keys. */
  ghost predicate Ascending(added: seq<Pair>) {
    KeysAscend(KeyBefore, added) && forall p :: p in added ==> |p.key| >= 8
  }

  /** What a finished table contains. */
  datatype Image = Image(options: Options, added: seq<Pair>, done: seq<DataBlock>, index: Stored, meta: Stored,
                         filter: Option<FilterImage>)

  datatype FilterImage = FilterImage(hash: Bytes -> nat, handle: Handle, block: Bytes, filters: Bytes,
                                     offsets: seq<nat>, keys: seq<Added>)

  /** The filter block covers every data block and reads back from the file. */
  ghost predicate FilterStored(c: Codec, file: Bytes, added: seq<Pair>, done: seq<DataBlock>, f: FilterImage) {
    && IsFilterBlock(f.hash, f.block, f.filters, f.offsets, f.keys) && AllCovered(added, done, f.keys)
    && f.handle.size == |f.block| && f.handle.offset + f.handle.size + TRAILER_SIZE <= |file|
    && forall verify :: BlockAt(c, file, f.handle, verify) == Some(f.block)
  }

  /** The file is a table of exactly the added pairs. */
  ghost predicate IsTable(file: Bytes, image: Image) {
    var c := image.options.codec;
    && Ascending(image.added) && AllHold(c, file, image.added, image.done) && End(image.done) == |image.added|
    && OnFile(c, file, image.index) && |image.index.layout.pairs| == |image.done|
    && IndexOk(image.added, image.done, image.index.layout.pairs)
    && OnFile(c, file, image.meta)
    && (image.options.filterName.Some? <==> image.filter.Some?)
    && (image.filter.None? ==> image.meta.layout.pairs == [])
    && (image.filter.Some? ==>
          && image.meta.layout.pairs ==
             [Pair(FilterKey(image.options.filterName.value), HandleBytes(image.filter.value.handle))]
          && FilterStored(c, file, image.added, image.done, image.filter.value))
    && |file| >= FOOTER_SIZE && file[|file| - FOOTER_SIZE..] == FooterBytes(image.meta.handle, image.index.handle)
  }

  /** A table being built: finished blocks, the pairs of the next one, and an index entry for each
      finished block, except the last while the first key after it is not known. */
  ghost predicate Core(c: Codec, file: Bytes, added: seq<Pair>, done: seq<DataBlock>, data: seq<Pair>, index: seq<Pair>,
                       pending: bool) {
    && Ascending(added) && AllHold(c, file, added, done)
    && End(done) <= |added| && data == added[End(done)..]
    && IndexOk(added, done, index)
    && (pending <==> done != [] && End(done) == |added|)
    && |index| == (if pending then |done| - 1 else |done|)
  }

  class TableBuilder {
    const options: Options
    const dataBlock: BlockBuilder
    const indexBlock: BlockBuilder
    const filterBlock: FilterBlockBuilder?
    var file: Bytes
    var offset: nat
    var lastKey: Bytes
    var numEntries: nat
    var closed: bool
    var pendingIndexEntry: bool // only while the data block is empty
    var pendingHandle: Handle
    ghost var added: seq<Pair>
    ghost var done: seq<DataBlock>

    ghost predicate FilterValid()
      reads this, filterBlock
    {
      (options.filterName.Some? <==> filterBlock != null) &&
      (filterBlock != null ==>
        && filterBlock.Valid() && |filterBlock.filterOffsets| == offset / FILTER_BASE
        && AllCovered(added, done, filterBlock.added)
        && Covered(added, End(done), |added|, offset, filterBlock.added))
    }

    ghost predicate Valid()
      reads this, dataBlock, indexBlock, filterBlock
    {
      && dataBlock != indexBlock && dataBlock.Valid() && indexBlock.Valid()
      && options.interval >= 1 && CodecLaw(options.codec) && offset == |file| && numEntries == |added|
      && (added != [] ==> lastKey == added[|added| - 1].key)
      && (pendingIndexEntry ==> done != [] && pendingHandle == done[|done| - 1].stored.handle)
      && Core(options.codec, file, added, done, dataBlock.layout.pairs, indexBlock.layout.pairs, pendingIndexEntry)
      && FilterValid()
    }

    constructor (options: Options, policy: BloomFilterPolicy)
      requires options.interval >= 1 && CodecLaw(options.codec) && 1 <= policy.k <= 30
      ensures Valid() && added == [] && file == [] && !closed && this.options == options
      ensures filterBlock != null ==> filterBlock.policy == policy && fresh(filterBlock)
      ensures fresh(dataBlock) && fresh(indexBlock)
    {
      hide Laid;
      this.options := options;
      dataBlock := new BlockBuilder(options.interval);
      indexBlock := new BlockBuilder(1);
      var f: FilterBlockBuilder? := null;
      if options.filterName.Some? {
        f := new FilterBlockBuilder(policy);
      }
      filterBlock := f;
      file, offset, lastKey, numEntries, closed := [], 0, [], 0, false;
      pendingIndexEntry, pendingHandle, added, done := false, Handle(0, 0), [], [];
      new;
      if filterBlock != null {
        filterBlock.StartBlock(0);
      }
    }

    /** Appends a block's bytes and their trailer. */
    method WriteRawBlock(contents: Bytes, t: Byte) returns (handle: Handle)
      requires offset == |file|
      modifies this`file, this`offset
      ensures offset == |file| && file == old(file) + RawBlock(options.codec, contents, t)
      ensures handle == Handle(old(offset), |contents|)
    {
      handle := Handle(offset, |contents|);
      file := file + contents;
      var crc := options.codec.extend(0, contents);
      crc := options.codec.extend(crc, [t]);
      file := file + [t] + EncodeFixed32(LogFormat.Mask(crc % WORD));
      offset := offset + |contents| + TRAILER_SIZE;
      assert file == old(file) + RawBlock(options.codec, contents, t);
    }

    /** Finishes a block, compresses it if that saves an eighth, writes it and starts over. */
    method WriteBlock(block: BlockBuilder) returns (handle: Handle, ghost stored: Stored)
      requires offset == |file| && CodecLaw(options.codec) && block.Valid() && |block.buffer| < WORD - 1
      modifies this`file, this`offset, block
      ensures offset == |file| && old(file) <= file && handle == stored.handle && handle.offset == old(offset)
      ensures stored.layout == old(block.layout) && stored.entries == old(block.buffer)
      ensures OnFile(options.codec, file, stored)
      ensures file == old(file) + BytesOnFile(options, BlockBytes(stored.layout, stored.entries))
      ensures block.Valid() && block.layout.pairs == [] && block.buffer == []
    {
      hide Laid, EncodeFixed32, BlockAt, RawBlock, RestartOffset;
      ghost var layout, entries := block.layout, block.buffer;
      FewRestarts(layout, entries);
      var raw := block.Finish();
      var contents, t := raw, NO_COMPRESSION;
      if options.compress {
        var compressed := options.codec.compress(raw);
        if compressed.Some? && |compressed.value| < |raw| - |raw| / 8 {
          contents, t := compressed.value, SNAPPY_COMPRESSION;
        }
      }
      handle := WriteRawBlock(contents, t);
      block.Reset();
      stored := Stored(handle, layout, entries);
      RawSize(options.codec, contents, t);
      RawBlockRoundTrip(options.codec, old(file), contents, t, true);
      RawBlockRoundTrip(options.codec, old(file), contents, t, false);
    }

    /** The index entry of the block written last. */
    method AddIndexEntry(sep: Bytes)
      requires indexBlock.Valid() && IndexRoom(sep)
      modifies this`lastKey, this`pendingIndexEntry, indexBlock
      ensures indexBlock.Valid() && !pendingIndexEntry && lastKey == sep
      ensures indexBlock.layout.pairs == old(indexBlock.layout.pairs) + [Pair(sep, HandleBytes(pendingHandle))]
      ensures |indexBlock.buffer| < WORD - 1
    {
      hide BlockBuilder.Valid;
      lastKey := sep;
      var handleEncoding := EncodeHandle(pendingHandle);
      HandleShort(pendingHandle);
      indexBlock.Add(lastKey, handleEncoding);
      pendingIndexEntry := false;
    }

    /** Once the first key of the next block is known, the index entry of the last one is made. */
    method IndexLastBlock(key: Bytes, ghost p: Pair)
      requires Valid() && p.key == key && |key| >= 8 && (added != [] ==> KeyBefore(lastKey, key)) && IndexRoom(lastKey)
      modifies this`lastKey, this`pendingIndexEntry, indexBlock
      ensures Indexed(old(indexBlock.layout.pairs), indexBlock.layout.pairs, old(pendingIndexEntry), pendingHandle,
                      old(lastKey), key)
      ensures indexBlock.Valid() && !pendingIndexEntry
      ensures Core(options.codec, file, added + [p], done, dataBlock.layout.pairs + [p], indexBlock.layout.pairs, false)
    {
      hide Core, KeyBefore, FilterValid, BlockBuilder.Valid, SeparatorOf;
      ghost var data, index := dataBlock.layout.pairs, indexBlock.layout.pairs;
      AscendingSnoc(options.codec, file, added, done, data, index, pendingIndexEntry, p);
      if pendingIndexEntry {
        LastLong(options.codec, file, added, done, data, index, pendingIndexEntry);
        var sep := InternalSeparator(lastKey, key);
        CoreIndexed(options.codec, file, added, done, data, index, p, sep);
        AddIndexEntry(sep);
        assert data + [p] == [p];
      } else {
        CoreAdd(options.codec, file, added, done, data, index, p);
      }
    }

    /** Blocks stay below 4 GB. */
    ghost predicate IndexRoom(sep: Bytes)
      reads indexBlock
    {
      |indexBlock.buffer| + 15 + |sep| + MAX_HANDLE < WORD - 1
    }

    ghost predicate DataRoom(key: Bytes, value: Bytes)
      reads dataBlock
    {
      |dataBlock.buffer| + 15 + |key| + |value| < WORD - 1
    }

    /** The pair goes into the filter and the data block. */
    method AppendPair(p: Pair)
      requires dataBlock != indexBlock && dataBlock.Valid() && indexBlock.Valid() && DataRoom(p.key, p.value)
      requires options.interval >= 1 && CodecLaw(options.codec) && offset == |file| && numEntries == |added|
      requires End(done) <= |added| && FilterValid() && !pendingIndexEntry
      requires Core(options.codec, file, added + [p], done, dataBlock.layout.pairs + [p], indexBlock.layout.pairs,
                    false)
      modifies this`lastKey, this`numEntries, this`added, dataBlock, filterBlock
      ensures Valid() && added == old(added) + [p] && |dataBlock.buffer| < WORD - 1
      ensures dataBlock.layout.pairs == old(dataBlock.layout.pairs) + [p]
    {
      hide Core, AllCovered, Covered, End, BlockBuilder.Valid, FilterBlockBuilder.Valid;
      CoveredAdd(added, done, offset, if filterBlock != null then filterBlock.added else [], p);
      if filterBlock != null {
        filterBlock.AddKey(p.key);
      }
      lastKey := p.key;
      numEntries := numEntries + 1;
      dataBlock.Add(p.key, p.value);
      added := added + [p];
    }

    /** A block is written exactly when it has reached the block size. */
    ghost predicate FlushedIfFull(was: seq<DataBlock>, now: seq<DataBlock>, block: BlockBuilder)
      reads block
    {
      if now == was then
        |BlockBytes(block.layout, block.buffer)| < options.blockSize
      else
        && |now| == |was| + 1 && now[..|was|] == was
        && |BlockBytes(now[|was|].stored.layout, now[|was|].stored.entries)| >= options.blockSize
    }

    /** Adds a pair; keys ascend strictly.  The block before it gets its index entry first if it
        was the last of its block, and a block that has grown to the block size is written. */
    method Add(key: Bytes, value: Bytes)
      requires Valid() && !closed && |key| >= 8 && (added != [] ==> KeyBefore(lastKey, key))
      requires IndexRoom(lastKey) && DataRoom(key, value)
      modifies this, dataBlock, indexBlock, filterBlock
      ensures Valid() && !closed && added == old(added) + [Pair(key, value)]
      ensures Indexed(old(indexBlock.layout.pairs), indexBlock.layout.pairs, old(pendingIndexEntry),
                      old(pendingHandle), old(lastKey), key)
      ensures FlushedIfFull(old(done), done, dataBlock)
    {
      hide Core, KeyBefore, AllCovered, Covered, End, BlockBuilder.Valid, FilterBlockBuilder.Valid, BlockBytes;
      CoreParts(options.codec, file, added, done, dataBlock.layout.pairs, indexBlock.layout.pairs, pendingIndexEntry);
      IndexLastBlock(key, Pair(key, value));
      AppendPair(Pair(key, value));
      var estimatedBlockSize := dataBlock.CurrentSizeEstimate();
      if estimatedBlockSize >= options.blockSize {
        Flush();
      }
    }

    /** Writes the data block, unless it is empty. */
    method Flush()
      requires Valid() && !closed && |dataBlock.buffer| < WORD - 1
      modifies this, dataBlock, filterBlock
      ensures Valid() && !closed && added == old(added) && dataBlock.layout.pairs == []
      ensures lastKey == old(lastKey)
      ensures if old(dataBlock.layout.pairs) == [] then done == old(done) && file == old(file) else
        && |done| == |old(done)| + 1 && done[..|old(done)|] == old(done)
        && done[|old(done)|].stored.layout == old(dataBlock.layout)
        && done[|old(done)|].stored.entries == old(dataBlock.buffer)
    {
      hide Core, AllCovered, Covered, OnFile, BlockBuilder.Valid, FilterBlockBuilder.Valid, BytesOnFile, BlockBytes;
      dataBlock.EmptyBuffer();
      if dataBlock.buffer == [] {
        return;
      }
      ghost var b, was := dataBlock.layout.pairs, file;
      CoreParts(options.codec, file, added, done, b, indexBlock.layout.pairs, pendingIndexEntry);
      ghost var stored: Stored;
      pendingHandle, stored := WriteBlock(dataBlock);
      pendingIndexEntry := true;
      ghost var block := DataBlock(stored, End(done), |added|);
      CoreFlush(options.codec, was, file, added, done, b, indexBlock.layout.pairs, stored);
      CoveredFlush(added, done, block, offset, if filterBlock != null then filterBlock.added else []);
      done := done + [block];
      if filterBlock != null {
        filterBlock.StartBlock(offset);
      }
    }

    /** Writes the filter block and the metaindex block that names it. */
    method FinishFilter() returns (metaHandle: Handle, ghost meta: Stored, ghost filter: Option<FilterImage>)
      requires Valid() && (options.filterName.Some? ==> |options.filterName.value| + 42 < WORD - 1)
      modifies this`file, this`offset, filterBlock
      ensures offset == |file| && old(file) <= file && metaHandle == meta.handle && OnFile(options.codec, file, meta)
      ensures filter.Some? <==> options.filterName.Some?
      ensures filter.None? ==> meta.layout.pairs == []
      ensures filter.Some? ==>
        && meta.layout.pairs == [Pair(FilterKey(options.filterName.value), HandleBytes(filter.value.handle))]
        && FilterStored(options.codec, file, added, done, filter.value) && filter.value.hash == filterBlock.policy.hash
    {
      hide Core, AllCovered, BlockBuilder.Valid, FilterBlockBuilder.Valid, OnFile, IsFilterBlock, EncodeFixed32,
        BlockAt, RawBlock;
      var metaIndexBlock := new BlockBuilder(options.interval);
      filter := None;
      if filterBlock != null {
        ghost var keys := filterBlock.added;
        var block, filters := filterBlock.Finish();
        var filterHandle := WriteRawBlock(block, NO_COMPRESSION);
        RawSize(options.codec, block, NO_COMPRESSION);
        RawBlockRoundTrip(options.codec, old(file), block, NO_COMPRESSION, true);
        RawBlockRoundTrip(options.codec, old(file), block, NO_COMPRESSION, false);
        filter := Some(FilterImage(filterBlock.policy.hash, filterHandle, block, filters, filterBlock.filterOffsets,
                                   keys));
        var handleEncoding := EncodeHandle(filterHandle);
        HandleShort(filterHandle);
        metaIndexBlock.Add(FilterKey(options.filterName.value), handleEncoding);
      }
      ghost var was := file;
      metaHandle, meta := WriteBlock(metaIndexBlock);
      if filter.Some? {
        FilterKept(options.codec, was, file, added, done, filter.value);
      }
    }

    /** Writes the index block, the last block's key shortened to some key after it. */
    method FinishIndex() returns (indexHandle: Handle, ghost index: Stored)
      requires offset == |file| && CodecLaw(options.codec) && indexBlock.Valid() && IndexRoom(lastKey)
      requires |indexBlock.buffer| < WORD - 1
      requires added != [] ==> lastKey == added[|added| - 1].key
      requires pendingIndexEntry ==> done != [] && pendingHandle == done[|done| - 1].stored.handle
      requires Core(options.codec, file, added, done, [], indexBlock.layout.pairs, pendingIndexEntry)
      modifies this`file, this`offset, this`lastKey, this`pendingIndexEntry, indexBlock
      ensures offset == |file| && old(file) <= file && indexHandle == index.handle && OnFile(options.codec, file, index)
      ensures |index.layout.pairs| == |done| && IndexOk(added, done, index.layout.pairs)
      ensures old(pendingIndexEntry) ==> LastIndexed(index.layout.pairs, old(lastKey))
    {
      hide Core, BlockBuilder.Valid, OnFile, SeparatorOf, KeyBefore, BytesOnFile, BlockBytes, ShortSuccessor;
      ghost var pairs := indexBlock.layout.pairs;
      if pendingIndexEntry {
        LastLong(options.codec, file, added, done, [], pairs, true);
        var sep := InternalSuccessor(lastKey);
        CoreLast(options.codec, file, added, done, pairs, sep);
        AddIndexEntry(sep);
      } else {
        CoreEmpty(options.codec, file, added, done, pairs);
      }
      indexHandle, index := WriteBlock(indexBlock);
    }

    /** Completes the file: it is a table of exactly the pairs added. */
    method Finish() returns (ghost image: Image)
      requires Valid() && !closed && IndexRoom(lastKey) && |dataBlock.buffer| < WORD - 1
      requires options.filterName.Some? ==> |options.filterName.value| + 42 < WORD - 1
      modifies this, dataBlock, indexBlock, filterBlock
      ensures closed && IsTable(file, image) && image.added == old(added) && image.options == options
      ensures image.filter.Some? ==> filterBlock != null && image.filter.value.hash == filterBlock.policy.hash
      ensures old(added) != [] ==> LastIndexed(image.index.layout.pairs, old(lastKey))
    {
      hide LastIndexed;
      hide Core, BlockBuilder.Valid, FilterBlockBuilder.Valid, OnFile, IndexOk, Ascending, FilterStored, FooterBytes,
        AllHold, CodecLaw, AllCovered, Covered;
      Flush();
      closed := true;
      ghost var pairs, pending, f0 := indexBlock.layout.pairs, pendingIndexEntry, file;
      var metaHandle: Handle;
      ghost var meta: Stored;
      ghost var filter: Option<FilterImage>;
      metaHandle, meta, filter := FinishFilter();
      ghost var f1 := file;
      CoreKept(options.codec, f0, f1, added, done, pairs, pending);
      var indexHandle: Handle;
      ghost var index: Stored;
      indexHandle, index := FinishIndex();
      ghost var f2 := file;
      var footerEncoding := EncodeFooter(metaHandle, indexHandle);
      file := file + footerEncoding;
      offset := offset + |footerEncoding|;
      image := Image(options, added, done, index, meta, filter);
      assert f1 <= file && f0 <= file;
      CoreKept(options.codec, f0, file, added, done, pairs, pending);
      CoreDone(options.codec, file, added, done, pairs, pending);
      OnFileKept(options.codec, f1, file, meta);
      OnFileKept(options.codec, f2, file, index);
      if filter.Some? {
        FilterKept(options.codec, f1, file, added, done, filter.value);
      }
      assert file[|file| - FOOTER_SIZE..] == FooterBytes(meta.handle, index.handle);
    }
  }

  lemma AscendingSnoc(c: Codec, file: Bytes, added: seq<Pair>, done: seq<DataBlock>, data: seq<Pair>, index: seq<Pair>,
                      pending: bool, p: Pair)
    requires Core(c, file, added, done, data, index, pending) && |p.key| >= 8
    requires added != [] ==> KeyBefore(added[|added| - 1].key, p.key)
    ensures Ascending(added + [p])
  {
    hide KeyBefore, AllHold, IndexOk;
    var all := added + [p];
    forall i, j | 0 <= i < j < |all| ensures KeyBefore(all[i].key, all[j].key) {
      if j == |added| && i < j - 1 { KeyTransitive(all[i].key, all[j - 1].key, p.key); }
    }
  }

  lemma LastLong(c: Codec, file: Bytes, added: seq<Pair>, done: seq<DataBlock>, data: seq<Pair>, index: seq<Pair>,
                 pending: bool)
    requires Core(c, file, added, done, data, index, pending)
    ensures done != [] ==> added != []
    ensures added != [] ==> |added[|added| - 1].key| >= 8
  {
    hide IndexOk, OnFile;
    if done != [] { assert Holds(c, file, added, done, |done| - 1); }
  }

  lemma CoreParts(c: Codec, file: Bytes, added: seq<Pair>, done: seq<DataBlock>, data: seq<Pair>, index: seq<Pair>,
                  pending: bool)
    requires Core(c, file, added, done, data, index, pending)
    ensures End(done) <= |added| && data == added[End(done)..]
    ensures data != [] ==> !pending && End(done) < |added|
    ensures data == [] ==> End(done) == |added|
  {
  }

  /** Blocks end where the next begins. */
  lemma {:induction false} EndsRise(c: Codec, file: Bytes, added: seq<Pair>, done: seq<DataBlock>, i: nat, j: nat)
    requires AllHold(c, file, added, done) && i < j < |done|
    ensures done[i].to <= done[j].from < done[j].to <= |added|
  {
    hide OnFile;
    assert Holds(c, file, added, done, j);
    assert End(done[..j]) == done[j - 1].to;
    if i < j - 1 { EndsRise(c, file, added, done, i, j - 1); }
  }

  lemma HoldsMore(c: Codec, file: Bytes, file': Bytes, added: seq<Pair>, more: seq<Pair>, done: seq<DataBlock>)
    requires AllHold(c, file, added, done) && file <= file'
    ensures AllHold(c, file', added + more, done)
  {
    forall i | 0 <= i < |done| ensures Holds(c, file', added + more, done, i) {
      assert Holds(c, file, added, done, i);
      var b := done[i];
      assert (added + more)[b.from..b.to] == added[b.from..b.to];
      OnFileKept(c, file, file', b.stored);
    }
  }

  lemma OnFileKept(c: Codec, file: Bytes, file': Bytes, s: Stored)
    requires OnFile(c, file, s) && file <= file'
    ensures OnFile(c, file', s)
  {
    hide Laid, BlockAt, BlockBytes;
    assert file' == file + file'[|file|..];
    BlockKept(c, file, file'[|file|..], s.handle, true);
    BlockKept(c, file, file'[|file|..], s.handle, false);
  }

  /** Entries made so far separate their blocks from a key that was already there. */
  lemma IndexMore(c: Codec, file: Bytes, added: seq<Pair>, done: seq<DataBlock>, index: seq<Pair>, p: Pair)
    requires AllHold(c, file, added, done) && IndexOk(added, done, index)
    requires done != [] && |index| == |done| ==> End(done) < |added|
    ensures IndexOk(added + [p], done, index)
  {
    hide KeyBefore, SeparatorOf, OnFile;
    forall i | 0 <= i < |index| ensures IndexEntryOk(added + [p], done, index, i) {
      assert IndexEntryOk(added, done, index, i);
      if i < |done| - 1 { EndsRise(c, file, added, done, i, |done| - 1); }
    }
  }

  lemma CoreAdd(c: Codec, file: Bytes, added: seq<Pair>, done: seq<DataBlock>, data: seq<Pair>, index: seq<Pair>,
                p: Pair)
    requires Core(c, file, added, done, data, index, false) && Ascending(added + [p])
    ensures Core(c, file, added + [p], done, data + [p], index, false)
  {
    hide AllHold, IndexOk, KeyBefore;
    HoldsMore(c, file, file, added, [p], done);
    IndexMore(c, file, added, done, index, p);
  }

  lemma CoreIndexed(c: Codec, file: Bytes, added: seq<Pair>, done: seq<DataBlock>, data: seq<Pair>, index: seq<Pair>,
                    p: Pair, sep: Bytes)
    requires Core(c, file, added, done, data, index, true) && Ascending(added + [p]) && added != []
    requires SeparatorOf(sep, added[|added| - 1].key) && !KeyBefore(sep, added[|added| - 1].key)
    requires KeyBefore(sep, p.key)
    requires sep != added[|added| - 1].key ==> BytesBefore(UserOf(sep), UserOf(p.key))
    ensures data == []
    ensures Core(c, file, added + [p], done, [p], index + [Pair(sep, HandleBytes(done[|done| - 1].stored.handle))],
                 false)
  {
    hide AllHold, KeyBefore, SeparatorOf;
    HoldsMore(c, file, file, added, [p], done);
    IndexMore(c, file, added, done, index, p);
    var index' := index + [Pair(sep, HandleBytes(done[|done| - 1].stored.handle))];
    forall i | 0 <= i < |index'| ensures IndexEntryOk(added + [p], done, index', i) {
      if i < |index| { assert IndexEntryOk(added + [p], done, index, i); }
    }
  }

  lemma CoreFlush(c: Codec, file: Bytes, file': Bytes, added: seq<Pair>, done: seq<DataBlock>, data: seq<Pair>,
                  index: seq<Pair>, stored: Stored)
    requires Core(c, file, added, done, data, index, false) && data != [] && file <= file'
    requires OnFile(c, file', stored) && stored.layout.pairs == data
    ensures Core(c, file', added, done + [DataBlock(stored, End(done), |added|)], [], index, true)
  {
    hide KeyBefore, SeparatorOf, OnFile;
    var b := DataBlock(stored, End(done), |added|);
    var done' := done + [b];
    HoldsMore(c, file, file', added, [], done);
    assert added + [] == added && added[b.from..b.to] == data;
    forall i | 0 <= i < |done'| ensures Holds(c, file', added, done', i) {
      if i < |done| {
        assert Holds(c, file', added, done, i);
        assert done'[..i] == done[..i];
      } else {
        assert done'[..i] == done;
      }
    }
    forall i | 0 <= i < |index| ensures IndexEntryOk(added, done', index, i) {
      assert IndexEntryOk(added, done, index, i);
    }
  }

  /** The last index entry, made when no key follows. */
  lemma CoreLast(c: Codec, file: Bytes, added: seq<Pair>, done: seq<DataBlock>, index: seq<Pair>, sep: Bytes)
    requires Core(c, file, added, done, [], index, true) && added != []
    requires SeparatorOf(sep, added[|added| - 1].key) && !KeyBefore(sep, added[|added| - 1].key)
    ensures var index' := index + [Pair(sep, HandleBytes(done[|done| - 1].stored.handle))];
      |index'| == |done| && IndexOk(added, done, index')
  {
    hide AllHold, KeyBefore, SeparatorOf;
    var index' := index + [Pair(sep, HandleBytes(done[|done| - 1].stored.handle))];
    forall i | 0 <= i < |index'| ensures IndexEntryOk(added, done, index', i) {
      if i < |index| { assert IndexEntryOk(added, done, index, i); }
    }
  }

  lemma CoreEmpty(c: Codec, file: Bytes, added: seq<Pair>, done: seq<DataBlock>, index: seq<Pair>)
    requires Core(c, file, added, done, [], index, false)
    ensures |index| == |done| && IndexOk(added, done, index)
  {
  }

  lemma CoreKept(c: Codec, file: Bytes, file': Bytes, added: seq<Pair>, done: seq<DataBlock>, index: seq<Pair>,
                 pending: bool)
    requires Core(c, file, added, done, [], index, pending) && file <= file'
    ensures Core(c, file', added, done, [], index, pending)
  {
    hide Ascending, IndexOk, AllHold;
    HoldsMore(c, file, file', added, [], done);
    assert added + [] == added;
  }

  lemma CoreDone(c: Codec, file: Bytes, added: seq<Pair>, done: seq<DataBlock>, index: seq<Pair>, pending: bool)
    requires Core(c, file, added, done, [], index, pending)
    ensures Ascending(added) && AllHold(c, file, added, done) && End(done) == |added| && (added != [] ==> pending)
  {
  }

  lemma FilterKept(c: Codec, file: Bytes, file': Bytes, added: seq<Pair>, done: seq<DataBlock>, f: FilterImage)
    requires FilterStored(c, file, added, done, f) && file <= file'
    ensures FilterStored(c, file', added, done, f)
  {
    hide BlockAt, IsFilterBlock, AllCovered;
    assert file' == file + file'[|file|..];
    BlockKept(c, file, file'[|file|..], f.handle, true);
    BlockKept(c, file, file'[|file|..], f.handle, false);
  }

  lemma CoveredAdd(added: seq<Pair>, done: seq<DataBlock>, offset: nat, keys: seq<Added>, p: Pair)
    requires End(done) <= |added|
    ensures AllCovered(added, done, keys) ==> AllCovered(added + [p], done, keys + [Added(offset / FILTER_BASE, p.key)])
    ensures Covered(added, End(done), |added|, offset, keys) ==>
      Covered(added + [p], End(done), |added| + 1, offset, keys + [Added(offset / FILTER_BASE, p.key)])
  {
    hide End;
    var keys' := keys + [Added(offset / FILTER_BASE, p.key)];
    if AllCovered(added, done, keys) {
      forall i | 0 <= i < |done|
        ensures done[i].to <= |added + [p]|
        ensures Covered(added + [p], done[i].from, done[i].to, done[i].stored.handle.offset, keys')
      {
        assert Covered(added, done[i].from, done[i].to, done[i].stored.handle.offset, keys);
      }
    }
  }

  lemma CoveredFlush(added: seq<Pair>, done: seq<DataBlock>, block: DataBlock, offset: nat, keys: seq<Added>)
    requires block.from == End(done) && block.to == |added|
    ensures AllCovered(added, done, keys) && Covered(added, block.from, |added|, block.stored.handle.offset, keys) ==>
      AllCovered(added, done + [block], keys)
    ensures Covered(added, |added|, |added|, offset, keys)
  {
  }

  lemma RawSize(c: Codec, contents: Bytes, t: Byte)
    ensures |RawBlock(c, contents, t)| == |contents| + TRAILER_SIZE
  {
  }
}
