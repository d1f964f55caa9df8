/** Opening a table file and looking a key up in it (table/table.cc). */
module Tables {
  import opened InternalKeys
  import opened Coding
  import opened ByteKeys
  import opened Blocks
  import opened BlockIterators
  import opened BloomFilters
  import opened FilterBlocks
  import opened TableFormat
  import opened TableBuilders

  /** What a lookup hands back. */
  datatype GetResult = Found(pair: Pair) | NotFound | Failed

  /** The policy's hash looks at the user key only (InternalFilterPolicy strips the trailer). */
  ghost predicate HashesUserKey(hash: Bytes -> nat) {
    forall a, b :: UserOf(a) == UserOf(b) ==> hash(a) == hash(b)
  }

  /** The lookup hands back nothing but the first pair at or after the target, and does hand it
      back if it is one of the target's user key. */
  ghost predicate LookupOk(added: seq<Pair>, k: Bytes, r: GetResult) {
    && !r.Failed?
    && (r.Found? ==> exists i: nat :: FirstFrom(KeyBefore, added, k, i) && i < |added| && added[i] == r.pair)
    && forall i: nat :: FirstFrom(KeyBefore, added, k, i) && i < |added| && UserOf(added[i].key) == UserOf(k) ==>
       r == Found(added[i])
  }

  class Table {
    const codec: Codec
    const file: Bytes
    const metaindexHandle: Handle
    const indexContents: Bytes
    var filter: FilterBlockReader?
    ghost const built: bool // the file was written by a table builder
    ghost const image: Image

    ghost predicate Valid()
      reads this, filter
    {
      && (filter != null ==> filter.Valid())
      && (built ==>
            && CodecLaw(codec) && image.options.codec == codec && IsTable(file, image) && |file| < WORD
            && indexContents == BlockBytes(image.index.layout, image.index.entries)
            && (filter != null ==> image.filter.Some? && FilterIs(image.filter.value)))
    }

    /** The reader works on the filter block that was written, with the same hash. */
    ghost predicate FilterIs(f: FilterImage)
      requires filter != null
      reads this, filter
    {
      && filter.policy.hash == f.hash && filter.data == f.block && filter.offset == |f.filters|
      && filter.num == |f.offsets| && filter.baseLg == FILTER_BASE_LG
    }

    constructor (codec: Codec, file: Bytes, metaindexHandle: Handle, indexContents: Bytes, ghost image: Image,
                 ghost built: bool)
      ensures this.codec == codec && this.file == file && this.metaindexHandle == metaindexHandle
      ensures this.indexContents == indexContents && this.image == image && this.built == built && filter == null
    {
      this.codec, this.file, this.metaindexHandle, this.indexContents := codec, file, metaindexHandle, indexContents;
      this.image, this.built := image, built;
      filter := null;
    }

    /** Looks the filter up in the metaindex block; errors there are ignored. */
    method ReadMeta(name: Bytes, policy: BloomFilterPolicy, verify: bool)
      requires Valid() && filter == null
      requires built && image.options.filterName == Some(name) ==> policy.hash == image.filter.value.hash
      requires built ==> metaindexHandle == image.meta.handle
      modifies this
      ensures Valid() && (filter != null ==> fresh(filter))
      ensures built ==> (filter != null <==> image.options.filterName == Some(name))
    {
      hide IsTable, BlockAt, Laid, BlockBytes, BytesBefore, BlockIterator.Valid, OnFile;
      if built { MetaFacts(file, image, verify); MetaPairs(file, image); BytesOrder(); }
      var contents := BlockAt(codec, file, metaindexHandle, verify);
      if contents.None? {
        return;
      }
      var open := OpenBlock(BytesBefore, contents.value, image.meta.layout, image.meta.entries, built);
      if open.Iterating? {
        var it := open.cursor;
        var key := FilterKey(name);
        if built { it.OnPair(); }
        it.Seek(key);
        if built {
          MetaSeek(file, image, name, it.at);
          it.OnPair();
        }
        if it.IsValid() && it.key == key {
          it.ValueInData();
          ReadFilter(it.data[it.valueStart..it.valueEnd], policy, verify);
        }
      }
    }

    method ReadFilter(handleValue: Bytes, policy: BloomFilterPolicy, verify: bool)
      requires Valid() && filter == null
      requires built ==>
               image.filter.Some? && policy.hash == image.filter.value.hash &&
               handleValue == HandleBytes(image.filter.value.handle)
      modifies this
      ensures Valid() && (filter != null ==> fresh(filter))
      ensures built ==> filter != null
    {
      hide IsTable, BlockAt, DecodeFixed32, HandleAt, HandleBytes;
      if built { FilterFacts(file, image, verify); }
      var handle := DecodeHandle(handleValue, 0);
      if handle.None? {
        return;
      }
      var block := BlockAt(codec, file, handle.value.0, verify);
      if block.None? {
        return;
      }
      filter := new FilterBlockReader(policy, block.value);
    }

    /** What the filter rules out in the block where the target belongs is not looked for. */
    ghost predicate FilterObeyed(k: Bytes, r: GetResult)
      requires Valid()
      reads this, filter
    {
      built && filter != null ==> forall i: nat :: RuledOut(k, i) ==> r == NotFound
    }

    ghost predicate RuledOut(k: Bytes, i: nat)
      requires Valid() && filter != null
      reads this, filter
    {
      && i < |image.done| && FirstFrom(KeyBefore, image.index.layout.pairs, k, i)
      && !filter.May(image.done[i].stored.handle.offset, k)
    }

    /** `InternalGet`: seeks in the index, asks the filter, and seeks in the block. */
    method InternalGet(k: Bytes, verify: bool) returns (r: GetResult)
      requires Valid()
      ensures built && (filter != null ==> HashesUserKey(filter.policy.hash)) ==> LookupOk(image.added, k, r)
      ensures FilterObeyed(k, r)
    {
      hide FilterObeyed, RuledOut, FilterBlockReader.May;
      UnbuiltFilter(k);
      hide IsTable, Laid, BlockBytes, BlockIterator.Valid, LookupOk, LookupMatches, FilterBlockReader.Valid, HandleAt,
      KeyBefore;
      if built { IndexFacts(file, image); }
      var open := OpenBlock(KeyBefore, indexContents, image.index.layout, image.index.entries, built);
      if !open.Iterating? {
        return if open.EmptyBlock? then NotFound else Failed;
      }
      var indexIter := open.cursor;
      if built { indexIter.OnPair(); }
      indexIter.Seek(k);
      if built {
        indexIter.OnPair();
        if indexIter.at == |image.done| { ObeysFilter(k, indexIter.at); }
      }
      if !indexIter.IsValid() {
        if built { PastIndex(file, image, k, indexIter.at); }
        return if indexIter.corrupt then Failed else NotFound;
      }
      indexIter.ValueInData();
      r := GetAt(indexIter.data[indexIter.valueStart..indexIter.valueEnd], k, verify, indexIter.at);
    }

    /** The rest of the lookup, once the index has named the block where the target belongs. */
    method GetAt(handleValue: Bytes, k: Bytes, verify: bool, ghost at: nat) returns (r: GetResult)
      requires Valid()
      requires built ==>
               && at < |image.index.layout.pairs| && handleValue == image.index.layout.pairs[at].value
               && FirstFrom(KeyBefore, image.index.layout.pairs, k, at)
      ensures built && (filter != null ==> HashesUserKey(filter.policy.hash)) ==> LookupOk(image.added, k, r)
      ensures FilterObeyed(k, r)
    {
      hide IsTable, LookupOk, FilterObeyed, RuledOut, FilterBlockReader.May, FilterBlockReader.Valid, HandleAt,
      KeyBefore;
      UnbuiltFilter(k);
      var handle := DecodeHandle(handleValue, 0);
      if built {
        IndexFacts(file, image);
        HandleFacts(file, image, at);
        ObeysFilter(k, at);
      }
      if filter != null && handle.Some? {
        var mayMatch := AskFilter(handle.value.0.offset, k, verify, at);
        if !mayMatch {
          return NotFound;
        }
      }
      if handle.None? {
        return Failed;
      }
      r := SeekInBlock(handle.value.0, k, verify, at);
    }

    /** A no of the filter is right: the block has no pair of the target's user key. */
    method AskFilter(offset: nat, k: Bytes, verify: bool, ghost i: nat) returns (mayMatch: bool)
      requires Valid() && filter != null
      requires built ==>
               && i < |image.done| && offset == image.done[i].stored.handle.offset
               && FirstFrom(KeyBefore, image.index.layout.pairs, k, i)
      ensures mayMatch <==> filter.May(offset, k)
      ensures built && HashesUserKey(filter.policy.hash) && !mayMatch ==> LookupOk(image.added, k, NotFound)
    {
      hide IsTable, LookupOk, LookupMatches, KeyBefore;
      mayMatch := filter.KeyMayMatch(offset, k);
      if built && HashesUserKey(filter.policy.hash) && !mayMatch {
        FilterFacts(file, image, verify);
        FilterSaysNo(file, image, k, i, offset);
      }
    }

    /** Only one block is the one where the target belongs. */
    lemma ObeysFilter(k: Bytes, at: nat)
      requires Valid() && built && FirstFrom(KeyBefore, image.index.layout.pairs, k, at)
      requires |image.index.layout.pairs| == |image.done|
      ensures FilterObeyed(k, NotFound)
      ensures at == |image.done| || filter == null || filter.May(image.done[at].stored.handle.offset, k) ==>
        forall r :: FilterObeyed(k, r)
    {
      hide IsTable, KeyBefore, FilterBlockReader.May, FilterBlockReader.Valid;
      if filter != null {
        forall i: nat | RuledOut(k, i) ensures i == at { }
      }
    }

    lemma UnbuiltFilter(k: Bytes)
      requires Valid()
      ensures !built ==> forall r :: FilterObeyed(k, r)
    {
    }

    /** The block reader and the search in the block. */
    method SeekInBlock(handle: Handle, k: Bytes, verify: bool, ghost i: nat) returns (r: GetResult)
      requires Valid()
      requires built ==> i < |image.done| && handle == image.done[i].stored.handle &&
                         FirstFrom(KeyBefore, image.index.layout.pairs, k, i)
      ensures built ==> LookupOk(image.added, k, r)
      ensures BlockAt(codec, file, handle, verify).None? ==> r == Failed
    {
      hide IsTable, Laid, BlockAt, BlockBytes, BlockIterator.Valid, LookupOk, FilterBlockReader.Valid, KeyBefore;
      ghost var stored := if built then image.done[i].stored else image.index;
      if built { BlockFacts(file, image, i, verify); }
      var contents := BlockAt(codec, file, handle, verify);
      if contents.None? {
        return Failed;
      }
      var open := OpenBlock(KeyBefore, contents.value, stored.layout, stored.entries, built);
      if !open.Iterating? {
        return if open.EmptyBlock? then NotFound else Failed;
      }
      var blockIter := open.cursor;
      if built { blockIter.OnPair(); }
      blockIter.Seek(k);
      if built {
        blockIter.OnPair();
        InBlock(file, image, k, i, blockIter.at);
      }
      if !blockIter.IsValid() {
        return if blockIter.corrupt then Failed else NotFound;
      }
      blockIter.ValueInData();
      return Found(Pair(blockIter.key, blockIter.data[blockIter.valueStart..blockIter.valueEnd]));
    }
  }

  /** The footer is whole and names an index block that can be read. */
  ghost predicate Opens(codec: Codec, file: Bytes, verify: bool) {
    && |file| >= FOOTER_SIZE
    && FooterAt(file[|file| - FOOTER_SIZE..]).Some?
    && BlockAt(codec, file, FooterAt(file[|file| - FOOTER_SIZE..]).value.1, verify).Some?
  }

  /** `Table::Open`: the footer at the end of the file, the index block, then the filter. */
  method OpenTable(codec: Codec, file: Bytes, filterName: Option<Bytes>, policy: BloomFilterPolicy, verify: bool,
                   ghost image: Image, ghost built: bool) returns (r: Option<Table>)
    requires built ==> CodecLaw(codec) && image.options.codec == codec && IsTable(file, image) && |file| < WORD
    requires built && filterName.Some? && image.options.filterName == filterName ==>
             policy.hash == image.filter.value.hash
    ensures r.Some? <==> Opens(codec, file, verify)
    ensures r.Some? ==> fresh(r.value) && r.value.Valid() && r.value.built == built && r.value.image == image
    ensures built ==>
            r.Some? && (r.value.filter != null <==> filterName.Some? && image.options.filterName == filterName)
    ensures r.Some? && r.value.filter != null && built ==> r.value.filter.policy.hash == policy.hash
  {
    hide IsTable, BlockAt, BlockBytes, Laid, FooterAt, OnFile;
    if |file| < FOOTER_SIZE {
      if built { FooterFacts(file, image, verify); }
      return None;
    }
    if built { FooterFacts(file, image, verify); }
    var footer := DecodeFooter(file[|file| - FOOTER_SIZE..]);
    if footer.None? {
      return None;
    }
    var contents := BlockAt(codec, file, footer.value.1, verify);
    if contents.None? {
      return None;
    }
    var table := new Table(codec, file, footer.value.0, contents.value, image, built);
    if filterName.Some? {
      table.ReadMeta(filterName.value, policy, verify);
    }
    return Some(table);
  }

  /** The metaindex block of a table reads back. */
  lemma MetaFacts(file: Bytes, image: Image, verify: bool)
    requires IsTable(file, image)
    ensures var l := image.meta.layout;
      && BlockAt(image.options.codec, file, image.meta.handle, verify) == Some(BlockBytes(l, image.meta.entries))
      && Laid(l, image.meta.entries) && l.offsets[|l.pairs|] == |image.meta.entries| && |l.restarts| < WORD
  {
    hide AllHold, IndexOk, Ascending, FilterStored, BlockAt, Laid, BlockBytes, FooterBytes;
  }

  lemma BytesOrder()
    ensures Transitive(BytesBefore)
  {
    forall a, b, c | BytesBefore(a, b) && BytesBefore(b, c) ensures BytesBefore(a, c) { BytesTransitive(a, b, c); }
  }

  lemma KeyOrder()
    ensures Transitive(KeyBefore)
  {
    forall a, b, c | KeyBefore(a, b) && KeyBefore(b, c) ensures KeyBefore(a, c) { KeyTransitive(a, b, c); }
  }

  /** The metaindex block names the filter, if there is one. */
  lemma MetaPairs(file: Bytes, image: Image)
    requires IsTable(file, image)
    ensures image.options.filterName.Some? <==> image.filter.Some?
    ensures image.meta.layout.pairs ==
            if image.filter.None? then []
            else [Pair(FilterKey(image.options.filterName.value), HandleBytes(image.filter.value.handle))]
  {
    hide AllHold, IndexOk, Ascending, FilterStored, OnFile, FooterBytes;
  }

  /** Seeking the filter's key in the metaindex block stops on it exactly if there is a filter
      of that name. */
  lemma MetaSeek(file: Bytes, image: Image, name: Bytes, at: nat)
    requires IsTable(file, image) && FirstFrom(BytesBefore, image.meta.layout.pairs, FilterKey(name), at)
    ensures var pairs := image.meta.layout.pairs;
      at < |pairs| && pairs[at].key == FilterKey(name) <==> image.options.filterName == Some(name)
    ensures image.options.filterName == Some(name) ==>
      image.meta.layout.pairs[at].value == HandleBytes(image.filter.value.handle)
  {
    hide IsTable, HandleBytes, BytesBefore;
    MetaPairs(file, image);
    BytesTotal(FilterKey(name), FilterKey(name));
    if image.filter.Some? && FilterKey(image.options.filterName.value) == FilterKey(name) {
      assert image.meta.layout.pairs[0].key == FilterKey(name);
      assert FilterKey(name)[7..] == name && FilterKey(image.options.filterName.value)[7..] ==
        image.options.filterName.value;
    }
  }

  /** The filter block of a table below 4 GB reads back and parses. */
  lemma FilterFacts(file: Bytes, image: Image, verify: bool)
    requires IsTable(file, image) && |file| < WORD && image.filter.Some?
    ensures var f := image.filter.value; var n := |f.block|;
      && HandleAt(HandleBytes(f.handle), 0).Some? && HandleAt(HandleBytes(f.handle), 0).value.0 == f.handle
      && BlockAt(image.options.codec, file, f.handle, verify) == Some(f.block)
      && |f.filters| < WORD && n == |f.filters| + 4 * |f.offsets| + 5
      && DecodeFixed32(f.block[n - 5..n - 1]) == |f.filters| && f.block[n - 1] == FILTER_BASE_LG
  {
    hide AllHold, IndexOk, Ascending, OnFile, BlockAt, FooterBytes, HandleAt, HandleBytes, DecodeFixed32, FiltersOk,
      FilterBlockBytes, AllCovered;
    var f := image.filter.value;
    assert FilterStored(image.options.codec, file, image.added, image.done, f);
    HandleRoundTrip(f.handle, HandleBytes(f.handle), 0);
    assert BlockAt(image.options.codec, file, f.handle, verify) == Some(f.block);
    FilterSize(f);
    BlockParses(f.filters, f.offsets);
  }

  lemma FilterSize(f: FilterImage)
    requires f.block == FilterBlockBytes(f.filters, f.offsets)
    ensures |f.filters| <= |f.block|
  {
    hide EncodeFixed32, OffsetBytes;
  }

  /** The footer and the index block of a table below 4 GB read back. */
  lemma FooterFacts(file: Bytes, image: Image, verify: bool)
    requires IsTable(file, image) && |file| < WORD
    ensures |file| >= FOOTER_SIZE
    ensures FooterAt(file[|file| - FOOTER_SIZE..]) == Some((image.meta.handle, image.index.handle))
    ensures BlockAt(image.options.codec, file, image.index.handle, verify) ==
            Some(BlockBytes(image.index.layout, image.index.entries))
  {
    hide AllHold, IndexOk, Ascending, FilterStored, BlockAt, BlockBytes, Laid, FooterBytes, FooterAt;
    FooterRoundTrip(image.meta.handle, image.index.handle);
  }

  lemma IndexFacts(file: Bytes, image: Image)
    requires IsTable(file, image)
    ensures var l := image.index.layout;
      && Laid(l, image.index.entries) && l.offsets[|l.pairs|] == |image.index.entries| && |l.restarts| < WORD
      && |l.pairs| == |image.done| && Transitive(KeyBefore) && KeysAscend(KeyBefore, l.pairs)
  {
    hide Laid, BlockAt, FooterBytes, FilterStored, KeyBefore, SeparatorOf;
    KeyOrder();
    assert OnFile(image.options.codec, file, image.index);
    IndexAscends(file, image);
  }

  /** A separator before the next block's keys is before the next separator. */
  lemma IndexAscends(file: Bytes, image: Image)
    requires IsTable(file, image)
    ensures KeysAscend(KeyBefore, image.index.layout.pairs)
  {
    hide OnFile, FooterBytes, FilterStored, KeyBefore, SeparatorOf;
    var added, done, index := image.added, image.done, image.index.layout.pairs;
    forall i, j | 0 <= i < j < |index| ensures KeyBefore(index[i].key, index[j].key) {
      assert IndexEntryOk(added, done, index, i) && IndexEntryOk(added, done, index, j);
      EndsRise(image.options.codec, file, added, done, i, j);
      BeforeLater(added, done[i].to, done[j].to - 1, index[i].key);
      KeyWeakTransitive(index[i].key, added[done[j].to - 1].key, index[j].key);
    }
  }

  lemma BeforeLater(added: seq<Pair>, i: nat, j: nat, k: Bytes)
    requires Ascending(added) && i <= j < |added| && KeyBefore(k, added[i].key)
    ensures KeyBefore(k, added[j].key)
  {
    hide KeyBefore;
    if i < j { KeyTransitive(k, added[i].key, added[j].key); }
  }

  /** Every pair before block `i` is before the target if the last separator before it is. */
  lemma BlocksBefore(file: Bytes, image: Image, k: Bytes, i: nat)
    requires IsTable(file, image) && 0 < i <= |image.done| && |image.index.layout.pairs| == |image.done|
    requires KeyBefore(image.index.layout.pairs[i - 1].key, k)
    ensures image.done[i - 1].to <= |image.added|
    ensures forall j :: 0 <= j < image.done[i - 1].to ==> KeyBefore(image.added[j].key, k)
  {
    hide OnFile, FooterBytes, FilterStored, KeyBefore, SeparatorOf;
    var added, done, index := image.added, image.done, image.index.layout.pairs;
    assert IndexEntryOk(added, done, index, i - 1);
    var to := done[i - 1].to;
    KeyWeakTransitive(added[to - 1].key, index[i - 1].key, k);
    forall j | 0 <= j < to ensures KeyBefore(added[j].key, k) {
      if j < to - 1 { KeyTransitive(added[j].key, added[to - 1].key, k); }
    }
  }

  lemma BlockAfter(file: Bytes, image: Image, i: nat)
    requires IsTable(file, image) && i < |image.done| == |image.index.layout.pairs|
    ensures image.done[i].from == (if i == 0 then 0 else image.done[i - 1].to)
    ensures image.done[i].from < image.done[i].to <= |image.added|
    ensures SepOk(image.added, image.done[i].to, image.index.layout.pairs[i].key)
  {
    hide OnFile, FooterBytes, FilterStored, KeyBefore, SepOk, Ascending;
    assert Holds(image.options.codec, file, image.added, image.done, i);
    assert IndexEntryOk(image.added, image.done, image.index.layout.pairs, i);
  }

  lemma IndexComplete(file: Bytes, image: Image)
    requires IsTable(file, image)
    ensures |image.index.layout.pairs| == |image.done| && End(image.done) == |image.added|
  {
    hide OnFile, FooterBytes, FilterStored, Ascending, AllHold, IndexOk;
  }

  /** Where the first pair at or after the target lies, given where the index search stops. */
  lemma Landing(file: Bytes, image: Image, k: Bytes, i: nat)
    requires IsTable(file, image) && i <= |image.done| && FirstFrom(KeyBefore, image.index.layout.pairs, k, i)
    ensures var from := if i < |image.done| then image.done[i].from else |image.added|;
      from <= |image.added| && forall j :: 0 <= j < from ==> KeyBefore(image.added[j].key, k)
    ensures i < |image.done| ==>
      var to := image.done[i].to;
      && image.done[i].from < to <= |image.added|
      && (to < |image.added| ==> !KeyBefore(image.added[to].key, k))
      && (to < |image.added| && KeyBefore(image.added[to - 1].key, k) ==> UserOf(image.added[to].key) != UserOf(k))
  {
    hide IsTable, KeyBefore, SepOk;
    IndexComplete(file, image);
    if i < |image.done| {
      BlockAfter(file, image, i);
      SepFacts(image.added, image.done[i].to, image.index.layout.pairs[i].key, k);
    }
    if i > 0 { BlocksBefore(file, image, k, i); }
  }

  /** A target at or before the separator but after the block's last key is of neither neighbour's
      user key. */
  lemma SepFacts(added: seq<Pair>, to: nat, sep: Bytes, k: Bytes)
    requires SepOk(added, to, sep) && !KeyBefore(sep, k)
    ensures to < |added| ==> !KeyBefore(added[to].key, k)
    ensures to < |added| && KeyBefore(added[to - 1].key, k) ==> UserOf(added[to].key) != UserOf(k)
  {
    hide TrailerOf, UserOf, BytesBefore;
    if to < |added| {
      KeyTotal(added[to].key, k);
      KeyWeakTransitive(sep, added[to].key, k);
    }
  }

  lemma PastIndex(file: Bytes, image: Image, k: Bytes, i: nat)
    requires IsTable(file, image) && i == |image.done| && FirstFrom(KeyBefore, image.index.layout.pairs, k, i)
    ensures LookupOk(image.added, k, NotFound)
  {
    hide IsTable, KeyBefore;
    Landing(file, image, k, i);
  }

  lemma HandleFacts(file: Bytes, image: Image, i: nat)
    requires IsTable(file, image) && |file| < WORD && i < |image.done|
    ensures |image.index.layout.pairs| == |image.done|
    ensures var r := HandleAt(image.index.layout.pairs[i].value, 0);
      r.Some? && r.value.0 == image.done[i].stored.handle
  {
    hide Laid, BlockAt, FooterBytes, FilterStored, KeyBefore, SeparatorOf, HandleAt, HandleBytes, Ascending;
    assert IndexEntryOk(image.added, image.done, image.index.layout.pairs, i);
    assert Holds(image.options.codec, file, image.added, image.done, i);
    var h := image.done[i].stored.handle;
    HandleRoundTrip(h, HandleBytes(h), 0);
  }

  lemma BlockFacts(file: Bytes, image: Image, i: nat, verify: bool)
    requires IsTable(file, image) && i < |image.done|
    ensures var s := image.done[i].stored; var l := s.layout;
      && BlockAt(image.options.codec, file, s.handle, verify) == Some(BlockBytes(l, s.entries))
      && Laid(l, s.entries) && l.offsets[|l.pairs|] == |s.entries| && |l.restarts| < WORD
      && image.done[i].from < image.done[i].to <= |image.added|
      && l.pairs == image.added[image.done[i].from..image.done[i].to]
      && Transitive(KeyBefore) && KeysAscend(KeyBefore, l.pairs)
  {
    hide Laid, BlockAt, BlockBytes, FooterBytes, FilterStored, KeyBefore, IndexOk;
    KeyOrder();
    assert Holds(image.options.codec, file, image.added, image.done, i);
  }

  /** The search in the block the index points to. */
  lemma InBlock(file: Bytes, image: Image, k: Bytes, i: nat, q: nat)
    requires IsTable(file, image) && i < |image.done| && FirstFrom(KeyBefore, image.index.layout.pairs, k, i)
    requires FirstFrom(KeyBefore, image.done[i].stored.layout.pairs, k, q)
    ensures var pairs := image.done[i].stored.layout.pairs;
      LookupOk(image.added, k, if q < |pairs| then Found(pairs[q]) else NotFound)
  {
    hide IsTable, KeyBefore, Transitive, Laid, BlockBytes, BlockAt;
    Landing(file, image, k, i);
    BlockFacts(file, image, i, true);
    var added, b, pairs := image.added, image.done[i], image.done[i].stored.layout.pairs;
    var p := b.from + q;
    forall j | 0 <= j < p ensures KeyBefore(added[j].key, k) {
      if j >= b.from { assert pairs[j - b.from] == added[j]; }
    }
    assert q < |pairs| ==> pairs[q] == added[p];
    assert p == b.to ==> KeyBefore(added[b.to - 1].key, k);
    assert p == b.to && p < |added| ==> !KeyBefore(added[p].key, k);
    assert FirstFrom(KeyBefore, added, k, p);
  }

  /** A filter that says no is right about its block, and no other block matters. */
  lemma FilterSaysNo(file: Bytes, image: Image, k: Bytes, i: nat, offset: nat)
    requires IsTable(file, image) && |file| < WORD && image.filter.Some? && i < |image.done|
    requires FirstFrom(KeyBefore, image.index.layout.pairs, k, i) && offset == image.done[i].stored.handle.offset
    requires var f := image.filter.value;
      && HashesUserKey(f.hash) && |f.block| == |f.filters| + 4 * |f.offsets| + 5
      && !LookupMatches(f.hash, f.block, |f.filters|, |f.offsets|, FilterIndex(offset, FILTER_BASE_LG), k)
    ensures LookupOk(image.added, k, NotFound)
  {
    hide IsTable, KeyBefore, LookupMatches, UserOf, FilterIndex;
    Landing(file, image, k, i);
    var added, b := image.added, image.done[i];
    forall j | b.from <= j < b.to ensures UserOf(added[j].key) != UserOf(k) {
      if UserOf(added[j].key) == UserOf(k) {
        BlockKeyMatches(file, image, i, j);
        MatchesAlike(image.filter.value, FilterIndex(offset, FILTER_BASE_LG), added[j].key, k);
        assert false;
      }
    }
    forall p: nat | FirstFrom(KeyBefore, added, k, p) && p < |added| ensures UserOf(added[p].key) != UserOf(k) {
      FirstIn(added, b.from, b.to, k, p);
    }
  }

  lemma FirstIn(added: seq<Pair>, from: nat, to: nat, k: Bytes, p: nat)
    requires from < to <= |added| && FirstFrom(KeyBefore, added, k, p)
    requires forall j :: 0 <= j < from ==> KeyBefore(added[j].key, k)
    requires to < |added| ==> !KeyBefore(added[to].key, k)
    ensures from <= p <= to && (p == to ==> KeyBefore(added[to - 1].key, k))
  {
    hide KeyBefore;
  }

  /** Every key of a block matches the filter for the block's offset. */
  lemma BlockKeyMatches(file: Bytes, image: Image, i: nat, j: nat)
    requires IsTable(file, image) && |file| < WORD && image.filter.Some? && i < |image.done|
    requires image.done[i].from <= j < image.done[i].to <= |image.added|
    ensures var f := image.filter.value; var offset := image.done[i].stored.handle.offset;
      && |f.block| == |f.filters| + 4 * |f.offsets| + 5
      && LookupMatches(f.hash, f.block, |f.filters|, |f.offsets|, FilterIndex(offset, FILTER_BASE_LG),
                       image.added[j].key)
  {
    hide AllHold, IndexOk, Ascending, OnFile, BlockAt, FooterBytes, IsFilterBlock, LookupMatches;
    var f := image.filter.value;
    FilterFacts(file, image, true);
    assert FilterStored(image.options.codec, file, image.added, image.done, f);
    var b := image.done[i];
    assert Covered(image.added, b.from, b.to, b.stored.handle.offset, f.keys);
    NoFalseNegatives(f.hash, f.block, f.filters, f.offsets, f.keys,
                     Added(b.stored.handle.offset / FILTER_BASE, image.added[j].key), b.stored.handle.offset);
  }

  lemma MatchesAlike(f: FilterImage, index: nat, a: Bytes, b: Bytes)
    requires |f.block| == |f.filters| + 4 * |f.offsets| + 5 && f.hash(a) == f.hash(b)
    ensures LookupMatches(f.hash, f.block, |f.filters|, |f.offsets|, index, a) ==
            LookupMatches(f.hash, f.block, |f.filters|, |f.offsets|, index, b)
  {
    hide OffsetAt, MayMatch;
    if index < |f.offsets| {
      var start, limit := OffsetAt(f.block, |f.filters|, index), OffsetAt(f.block, |f.filters|, index + 1);
      if start <= limit <= |f.filters| { MayMatchAlike(f.hash, a, b, f.block[start..limit]); }
    }
  }

  lemma MayMatchAlike(hash: Bytes -> nat, a: Bytes, b: Bytes, filter: Bytes)
    requires hash(a) == hash(b)
    ensures MayMatch(hash, a, filter) == MayMatch(hash, b, filter)
  {
    hide TestBit, Probe;
    var n := |filter| - 1;
    if n >= 1 {
      assert forall j :: 0 <= j < filter[n] ==>
        ProbeHits(hash, filter[..n], a, j) == ProbeHits(hash, filter[..n], b, j);
    }
  }

  // ---- from the builder to the answer ----

  /** Finishing a table, opening it and looking a key up, with or without a filter on either side. */
  method FinishAndGet(builder: TableBuilder, readName: Option<Bytes>, policy: BloomFilterPolicy, k: Bytes, verify: bool)
    returns (r: GetResult)
    requires builder.Valid() && !builder.closed && builder.IndexRoom(builder.lastKey)
    requires |builder.dataBlock.buffer| < WORD - 1
    requires builder.options.filterName.Some? ==> |builder.options.filterName.value| + 42 < WORD - 1
    requires builder.filterBlock != null ==> builder.filterBlock.policy == policy
    requires HashesUserKey(policy.hash)
    modifies builder, builder.dataBlock, builder.indexBlock, builder.filterBlock
    ensures |builder.file| < WORD ==> LookupOk(old(builder.added), k, r)
  {
    hide IsTable, LookupOk, BlockBuilder.Valid, FilterBlockBuilder.Valid, Core, HashesUserKey;
    ghost var image := builder.Finish();
    MetaPairs(builder.file, image);
    var table := OpenTable(builder.options.codec, builder.file, readName, policy, verify, image, |builder.file| < WORD);
    if table.None? {
      return Failed;
    }
    r := table.value.InternalGet(k, verify);
  }

  // ---- what a reader at a snapshot sees ----

  /** A pair of user key `u` that a reader at `s` may see. */
  ghost predicate SeenAt(p: Pair, u: Bytes, s: nat) {
    UserOf(p.key) == u && TrailerOf(p.key) <= s * 256 + 1
  }

  /** A lookup of `u` at `s` hands back the newest pair of `u` written at or before `s`, whenever
      there is one. */
  lemma LookupFindsNewest(added: seq<Pair>, u: Bytes, s: nat, r: GetResult, seen: Pair)
    requires s <= MAX_SEQUENCE && Ascending(added) && LookupOk(added, InternalBytes(u, s, Value), r)
    requires seen in added && SeenAt(seen, u, s)
    ensures r.Found? && r.pair in added && SeenAt(r.pair, u, s)
    ensures forall p :: p in added && SeenAt(p, u, s) ==> TrailerOf(p.key) <= TrailerOf(r.pair.key)
  {
    hide UserOf, TrailerOf, InternalBytes, KeyBefore, Ascending;
    var k := InternalBytes(u, s, Value);
    InternalParts(u, s, Value);
    var p := FirstAtOrAfter(added, k);
    var j: nat :| j < |added| && added[j] == seen;
    SeenFrom(added, k, p, j);
    assert r == Found(added[p]);
    forall o | o in added && SeenAt(o, u, s) ensures TrailerOf(o.key) <= TrailerOf(added[p].key) {
      var m: nat :| m < |added| && added[m] == o;
      SeenFrom(added, k, p, m);
    }
  }

  /** A pair that the reader of target `k` may see lies at or after the first at or after `k`,
      which is of its user key and at least as new. */
  lemma SeenFrom(added: seq<Pair>, k: Bytes, p: nat, j: nat)
    requires Ascending(added) && FirstFrom(KeyBefore, added, k, p) && j < |added|
    requires UserOf(added[j].key) == UserOf(k) && TrailerOf(added[j].key) <= TrailerOf(k)
    ensures p < |added| && UserOf(added[p].key) == UserOf(k)
    ensures TrailerOf(added[j].key) <= TrailerOf(added[p].key) <= TrailerOf(k)
  {
    hide UserOf, TrailerOf, BytesBefore;
    BytesTotal(UserOf(k), UserOf(k));
    assert !KeyBefore(added[j].key, k);
    if p < j {
      Between(added, p, j, k);
      assert KeyBefore(added[p].key, added[j].key);
    }
  }

  /** A key between the target and another key of the target's user key is of it, too. */
  lemma Between(added: seq<Pair>, p: nat, j: nat, k: Bytes)
    requires Ascending(added) && p < j < |added| && !KeyBefore(added[p].key, k) && UserOf(added[j].key) == UserOf(k)
    ensures UserOf(added[p].key) == UserOf(k) && TrailerOf(added[p].key) <= TrailerOf(k)
  {
    hide UserOf, TrailerOf, BytesBefore;
    assert KeyBefore(added[p].key, added[j].key);
    BytesTotal(UserOf(added[p].key), UserOf(k));
  }

  lemma {:induction false} FirstAtOrAfter(added: seq<Pair>, k: Bytes) returns (p: nat)
    ensures FirstFrom(KeyBefore, added, k, p)
  {
    hide KeyBefore;
    if added == [] || !KeyBefore(added[0].key, k) {
      p := 0;
    } else {
      p := FirstAtOrAfter(added[1..], k);
      assert forall j :: 1 <= j < p + 1 ==> added[j] == added[1..][j - 1];
      p := p + 1;
    }
  }
}
