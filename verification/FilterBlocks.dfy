/** The filter block of a table (table/filter_block.cc): one Bloom filter for every 2 KB of
    data-block offsets, and the reader's lookup. */
module FilterBlocks {
  import opened Coding
  import opened BloomFilters

  const FILTER_BASE_LG: nat := 11
  const FILTER_BASE: nat := 2048

  /** A key and the filter it belongs to. */
  datatype Added = Added(index: nat, key: Bytes)

  /** Where filter `i` ends: at the next one, or at the end of all filters. */
  function FilterLimit(offsets: seq<nat>, size: nat, i: nat): nat
    requires i < |offsets|
  {
    if i + 1 < |offsets| then offsets[i + 1] else size
  }

  ghost function KeysOf(added: seq<Added>, i: nat): set<Bytes> {
    set a | a in added && a.index == i :: a.key
  }

  /** Filter `i` lies within the filters' bytes and is the filter of exactly the keys added for
      it; empty if there are none. */
  ghost predicate FilterOk(hash: Bytes -> nat, result: Bytes, offsets: seq<nat>, added: seq<Added>, i: nat)
    requires i < |offsets|
  {
    var start, limit := offsets[i], FilterLimit(offsets, |result|, i);
    && start <= limit <= |result|
    && if KeysOf(added, i) == {} then start == limit else IsFilterOf(hash, KeysOf(added, i), result[start..limit])
  }

  ghost predicate FiltersOk(hash: Bytes -> nat, result: Bytes, offsets: seq<nat>, added: seq<Added>) {
    forall i :: 0 <= i < |offsets| ==> FilterOk(hash, result, offsets, added, i)
  }

  /** Key `i` of the flattened keys. */
  function KeyAt(keys: Bytes, start: seq<nat>, i: nat): Bytes
    requires i < |start|
  {
    var limit := if i + 1 < |start| then start[i + 1] else |keys|;
    if start[i] <= limit <= |keys| then keys[start[i]..limit] else []
  }

  /** The keys that wait among the flattened ones. */
  ghost function Pending(keys: Bytes, start: seq<nat>): set<Bytes> {
    set i | 0 <= i < |start| :: KeyAt(keys, start, i)
  }

  class FilterBlockBuilder {
    const policy: BloomFilterPolicy
    var keys: Bytes // flattened
    var start: seq<nat>
    var result: Bytes
    var filterOffsets: seq<nat>
    ghost var added: seq<Added>

    /** Keys not yet in a filter belong to the next one. */
    ghost predicate PendingOk()
      reads this
    {
      && (forall i :: 0 <= i < |start| ==> start[i] <= |keys|)
      && (forall i, j :: 0 <= i < j < |start| ==> start[i] <= start[j])
      && (forall a :: a in added ==> a.index <= |filterOffsets|)
      && KeysOf(added, |filterOffsets|) == Pending(keys, start)
    }

    ghost predicate Valid()
      reads this
    {
      && 1 <= policy.k <= 30
      && FiltersOk(policy.hash, result, filterOffsets, added) && PendingOk()
    }

    constructor (policy: BloomFilterPolicy)
      requires 1 <= policy.k <= 30
      ensures Valid() && added == [] && filterOffsets == [] && this.policy == policy
    {
      this.policy, keys, start, result, filterOffsets, added := policy, [], [], [], [], [];
    }

    /** A data block starts at this offset; offsets do not go back below a filter already made. */
    method StartBlock(blockOffset: nat)
      requires Valid() && |filterOffsets| <= blockOffset / FILTER_BASE
      modifies this
      ensures Valid() && added == old(added) && |filterOffsets| == blockOffset / FILTER_BASE
    {
      hide FiltersOk, PendingOk;
      var filterIndex := blockOffset / FILTER_BASE;
      while filterIndex > |filterOffsets|
        invariant Valid() && added == old(added) && |filterOffsets| <= filterIndex
        decreases filterIndex - |filterOffsets|
      {
        GenerateFilter();
      }
    }

    /** The key goes into the filter of the block that was started last. */
    method AddKey(key: Bytes)
      requires Valid()
      modifies this
      ensures Valid() && added == old(added) + [Added(|filterOffsets|, key)] && filterOffsets == old(filterOffsets)
    {
      hide IsFilterOf;
      ghost var k0, s0 := keys, start;
      start := start + [|keys|];
      keys := keys + key;
      added := added + [Added(|filterOffsets|, key)];
      FiltersIgnore(policy.hash, result, filterOffsets, old(added), key);
      PendingMore(k0, s0, key);
      KeysOfMore(old(added), key, |filterOffsets|);
    }

    /** The pending keys, one by one. */
    method TakeKeys() returns (tmpKeys: seq<Bytes>)
      requires Valid()
      ensures |tmpKeys| == |start| && (set key | key in tmpKeys) == Pending(keys, start)
    {
      hide FiltersOk, KeyAt, KeysOf;
      tmpKeys := [];
      for i := 0 to |start|
        invariant |tmpKeys| == i && forall j :: 0 <= j < i ==> tmpKeys[j] == KeyAt(keys, start, j)
      {
        KeyAtIs(keys, start, i);
        tmpKeys := tmpKeys + [keys[start[i]..if i + 1 < |start| then start[i + 1] else |keys|]];
      }
    }

    /** Turns the pending keys into the next filter; an empty one if there are none. */
    method GenerateFilter()
      requires Valid()
      modifies this
      ensures Valid() && added == old(added) && |filterOffsets| == |old(filterOffsets)| + 1 && start == []
    {
      hide IsFilterOf, KeyAt, KeysOf, FiltersOk;
      ghost var offsets, r0 := filterOffsets, result;
      NextEmpty(added, |offsets| + 1);
      if |start| == 0 {
        NonePending(keys, start);
        filterOffsets := filterOffsets + [|result|];
        FiltersGrow(policy.hash, r0, offsets, added, []);
        assert r0 + [] == r0;
        return;
      }
      var tmpKeys := TakeKeys();
      assert tmpKeys[0] in tmpKeys && tmpKeys[0] in KeysOf(added, |offsets|);
      filterOffsets := filterOffsets + [|result|];
      var filter := policy.CreateFilter(tmpKeys);
      result := result + filter;
      FiltersGrow(policy.hash, r0, offsets, added, filter);
      keys, start := [], [];
      NonePending(keys, start);
    }

    /** The finished block: filters, their offsets, the offset of that array, and the base. */
    method Finish() returns (block: Bytes, ghost filters: Bytes)
      requires Valid()
      modifies this
      ensures IsFilterBlock(policy.hash, block, filters, filterOffsets, old(added)) && result == block
    {
      hide FiltersOk, KeyAt, KeysOf;
      if |start| > 0 {
        GenerateFilter();
      }
      NonePending(keys, start);
      NoneFiled(added, |filterOffsets|);
      filters := result;
      var arrayOffset := |result|;
      for i := 0 to |filterOffsets|
        modifies this`result
        invariant result == filters + OffsetBytes(filterOffsets, i)
      {
        result := result + EncodeFixed32(filterOffsets[i] % WORD);
      }
      result := result + EncodeFixed32(arrayOffset % WORD);
      result := result + [FILTER_BASE_LG];
      block := result;
    }
  }

  /** The block holds a filter for every index in use, and every key added matches its own. */
  ghost predicate IsFilterBlock(hash: Bytes -> nat, block: Bytes, filters: Bytes, offsets: seq<nat>,
                                added: seq<Added>) {
    && FiltersOk(hash, filters, offsets, added)
    && (forall a :: a in added ==> a.index < |offsets|)
    && block == FilterBlockBytes(filters, offsets)
  }

  function OffsetBytes(offsets: seq<nat>, n: nat): Bytes
    requires n <= |offsets|
  {
    if n == 0 then [] else OffsetBytes(offsets, n - 1) + EncodeFixed32(offsets[n - 1] % WORD)
  }

  function FilterBlockBytes(filters: Bytes, offsets: seq<nat>): Bytes {
    filters + OffsetBytes(offsets, |offsets|) + EncodeFixed32(|filters| % WORD) + [FILTER_BASE_LG]
  }

  lemma KeysKept(keys: Bytes, start: seq<nat>, key: Bytes)
    requires forall i :: 0 <= i < |start| ==> start[i] <= |keys|
    ensures forall i :: 0 <= i < |start| ==> KeyAt(keys + key, start + [|keys|], i) == KeyAt(keys, start, i)
  {
    forall i | 0 <= i < |start| ensures KeyAt(keys + key, start + [|keys|], i) == KeyAt(keys, start, i) {
      var limit := if i + 1 < |start| then start[i + 1] else |keys|;
      assert (start + [|keys|])[i + 1] == limit;
      if start[i] <= limit { assert (keys + key)[start[i]..limit] == keys[start[i]..limit]; }
    }
  }

  lemma KeyAtIs(keys: Bytes, start: seq<nat>, i: nat)
    requires i < |start| && forall i :: 0 <= i < |start| ==> start[i] <= |keys|
    requires forall i, j :: 0 <= i < j < |start| ==> start[i] <= start[j]
    ensures var limit := if i + 1 < |start| then start[i + 1] else |keys|;
      start[i] <= limit <= |keys| && KeyAt(keys, start, i) == keys[start[i]..limit]
  {
  }

  /** A pending key concerns no filter made so far. */
  lemma FiltersIgnore(hash: Bytes -> nat, result: Bytes, offsets: seq<nat>, added: seq<Added>, key: Bytes)
    requires FiltersOk(hash, result, offsets, added)
    ensures FiltersOk(hash, result, offsets, added + [Added(|offsets|, key)])
  {
    hide IsFilterOf;
    forall i | 0 <= i < |offsets| ensures FilterOk(hash, result, offsets, added + [Added(|offsets|, key)], i) {
      assert FilterOk(hash, result, offsets, added, i);
      assert KeysOf(added + [Added(|offsets|, key)], i) == KeysOf(added, i);
    }
  }

  lemma KeysOfMore(added: seq<Added>, key: Bytes, i: nat)
    ensures KeysOf(added + [Added(i, key)], i) == KeysOf(added, i) + {key}
  {
    var more := added + [Added(i, key)];
    assert more[|added|] == Added(i, key);
    forall a | a in added ensures a in more { }
  }

  lemma PendingMore(keys: Bytes, start: seq<nat>, key: Bytes)
    requires forall i :: 0 <= i < |start| ==> start[i] <= |keys|
    ensures Pending(keys + key, start + [|keys|]) == Pending(keys, start) + {key}
  {
    hide KeyAt;
    KeysKept(keys, start, key);
    LastKeyAt(keys, start, key);
    forall i | 0 <= i < |start| ensures KeyAt(keys, start, i) in Pending(keys + key, start + [|keys|]) {
      assert KeyAt(keys + key, start + [|keys|], i) == KeyAt(keys, start, i);
    }
  }

  lemma LastKeyAt(keys: Bytes, start: seq<nat>, key: Bytes)
    ensures KeyAt(keys + key, start + [|keys|], |start|) == key
  {
  }

  lemma NonePending(keys: Bytes, start: seq<nat>)
    ensures start == [] ==> Pending(keys, start) == {}
  {
  }

  lemma NoneFiled(added: seq<Added>, i: nat)
    requires KeysOf(added, i) == {}
    ensures forall a :: a in added ==> a.index != i
  {
    forall a | a in added ensures a.index != i { assert a.index == i ==> a.key in KeysOf(added, i); }
  }

  lemma NextEmpty(added: seq<Added>, i: nat)
    requires forall a :: a in added ==> a.index < i
    ensures KeysOf(added, i) == {}
  {
  }

  /** One more filter at the end. */
  lemma FiltersGrow(hash: Bytes -> nat, result: Bytes, offsets: seq<nat>, added: seq<Added>, filter: Bytes)
    requires FiltersOk(hash, result, offsets, added)
    requires if KeysOf(added, |offsets|) == {} then filter == [] else IsFilterOf(hash, KeysOf(added, |offsets|), filter)
    ensures FiltersOk(hash, result + filter, offsets + [|result|], added)
  {
    hide IsFilterOf, KeysOf;
    var result', offsets' := result + filter, offsets + [|result|];
    forall i | 0 <= i < |offsets'| ensures FilterOk(hash, result', offsets', added, i) {
      if i < |offsets| {
        assert FilterOk(hash, result, offsets, added, i);
        var start, limit := offsets[i], FilterLimit(offsets, |result|, i);
        assert FilterLimit(offsets', |result'|, i) == limit;
        assert result'[start..limit] == result[start..limit];
      } else {
        assert result'[|result|..|result'|] == filter;
      }
    }
  }

  // ---- the reader ----

  /** The offset shifted right. */
  function FilterIndex(blockOffset: nat, baseLg: nat): nat
    decreases baseLg
  {
    if baseLg == 0 then blockOffset else FilterIndex(blockOffset / 2, baseLg - 1)
  }

  lemma FilterIndexIs(blockOffset: nat)
    ensures FilterIndex(blockOffset, FILTER_BASE_LG) == blockOffset / FILTER_BASE
  {
    var a := blockOffset / 16;
    assert FilterIndex(blockOffset, 11) == FilterIndex(a, 7);
    var b := a / 16;
    assert FilterIndex(a, 7) == FilterIndex(b, 3);
    assert FilterIndex(b, 3) == b / 8;
  }

  class FilterBlockReader {
    const policy: BloomFilterPolicy
    var data: Bytes
    var offset: nat // where the offset array starts
    var num: nat // filters
    var baseLg: nat

    /** The offset array lies within the block; a block that does not parse has no filters. */
    ghost predicate Valid()
      reads this
    {
      num > 0 ==> offset + 4 * num + 5 <= |data|
    }

    constructor (policy: BloomFilterPolicy, contents: Bytes)
      ensures Valid() && this.policy == policy
      ensures var n := |contents|;
        if n < 5 || DecodeFixed32(contents[n - 5..n - 1]) > n - 5 then num == 0 else
          data == contents && baseLg == contents[n - 1] && offset == DecodeFixed32(contents[n - 5..n - 1])
          && num == (n - 5 - offset) / 4
    {
      this.policy := policy;
      data, offset, num, baseLg := [], 0, 0, 0;
      new;
      var n := |contents|;
      if n < 5 {
        return;
      }
      baseLg := contents[n - 1];
      var lastWord := DecodeFixed32(contents[n - 5..n - 1]);
      if lastWord > n - 5 {
        return;
      }
      data := contents;
      offset := lastWord;
      num := (n - 5 - lastWord) / 4;
    }

    ghost predicate May(blockOffset: nat, key: Bytes)
      requires Valid()
      reads this
    {
      LookupMatches(policy.hash, data, offset, num, FilterIndex(blockOffset, baseLg), key)
    }

    /** There is no filter of that index, or its ends are out of order or out of the filters. */
    ghost predicate Malformed(index: nat)
      requires Valid()
      reads this
    {
      index >= num ||
      var start, limit := OffsetAt(data, offset, index), OffsetAt(data, offset, index + 1);
      start > limit || (start < limit && limit > offset)
    }

    /** Errors are treated as potential matches. */
    method KeyMayMatch(blockOffset: nat, key: Bytes) returns (r: bool)
      requires Valid()
      ensures r <==> May(blockOffset, key)
      ensures Malformed(FilterIndex(blockOffset, baseLg)) ==> r
    {
      hide MayMatch, FilterIndex, DecodeFixed32;
      var index := FilterIndex(blockOffset, baseLg);
      if index < num {
        var start := OffsetAt(data, offset, index);
        var limit := OffsetAt(data, offset, index + 1);
        if start <= limit && limit <= offset {
          var filter := data[start..limit];
          r := policy.KeyMayMatch(key, filter);
          return;
        } else if start == limit {
          return false;
        }
      }
      return true;
    }
  }

  /** The index-th entry of the offset array; the one past the last is the array's own offset. */
  function OffsetAt(data: Bytes, offset: nat, index: nat): (n: nat)
    requires offset + 4 * index + 4 <= |data|
  {
    DecodeFixed32(data[offset + index * 4..offset + index * 4 + 4])
  }

  ghost predicate LookupMatches(hash: Bytes -> nat, data: Bytes, offset: nat, num: nat, index: nat, key: Bytes)
    requires num > 0 ==> offset + 4 * num + 5 <= |data|
  {
    index < num ==>
      var start, limit := OffsetAt(data, offset, index), OffsetAt(data, offset, index + 1);
      if start <= limit <= offset then MayMatch(hash, key, data[start..limit]) else start != limit
  }

  // ---- reading back what was written ----

  lemma {:induction false} OffsetBytesAt(offsets: seq<nat>, n: nat, i: nat)
    requires i < n <= |offsets|
    ensures |OffsetBytes(offsets, n)| == 4 * n
    ensures OffsetBytes(offsets, n)[4 * i..4 * i + 4] == EncodeFixed32(offsets[i] % WORD)
  {
    hide EncodeFixed32;
    OffsetBytesLength(offsets, n - 1);
    var before, entry := OffsetBytes(offsets, n - 1), EncodeFixed32(offsets[n - 1] % WORD);
    if i < n - 1 {
      OffsetBytesAt(offsets, n - 1, i);
      assert (before + entry)[4 * i..4 * i + 4] == before[4 * i..4 * i + 4];
    } else {
      assert (before + entry)[4 * i..4 * i + 4] == entry;
    }
  }

  lemma {:induction false} OffsetBytesLength(offsets: seq<nat>, n: nat)
    requires n <= |offsets|
    ensures |OffsetBytes(offsets, n)| == 4 * n
  {
    if n > 0 { OffsetBytesLength(offsets, n - 1); }
  }

  /** A finished block parses to its own offset array. */
  lemma BlockParses(filters: Bytes, offsets: seq<nat>)
    requires |filters| < WORD
    ensures var block := FilterBlockBytes(filters, offsets); var n := |block|;
      && n == |filters| + 4 * |offsets| + 5
      && DecodeFixed32(block[n - 5..n - 1]) == |filters|
      && block[n - 1] == FILTER_BASE_LG && (n - 5 - |filters|) / 4 == |offsets|
  {
    hide EncodeFixed32, DecodeFixed32, OffsetBytes;
    OffsetBytesLength(offsets, |offsets|);
    Fixed32RoundTrip(|filters|);
    var block := FilterBlockBytes(filters, offsets);
    assert block[|block| - 5..|block| - 1] == EncodeFixed32(|filters| % WORD);
  }

  /** Entry `i` of the array reads back as filter i's offset; one past the last, as the size. */
  lemma BlockOffsetAt(filters: Bytes, offsets: seq<nat>, i: nat)
    requires |filters| < WORD && i <= |offsets|
    requires i < |offsets| ==> offsets[i] < WORD
    ensures var block := FilterBlockBytes(filters, offsets);
      && |filters| + 4 * i + 4 <= |block|
      && OffsetAt(block, |filters|, i) == if i < |offsets| then offsets[i] else |filters|
  {
    hide EncodeFixed32, DecodeFixed32, OffsetBytes;
    OffsetBytesLength(offsets, |offsets|);
    var block, entries := FilterBlockBytes(filters, offsets), OffsetBytes(offsets, |offsets|);
    var p := |filters| + i * 4;
    if i < |offsets| {
      OffsetBytesAt(offsets, |offsets|, i);
      assert block[p..p + 4] == entries[4 * i..4 * i + 4];
      Fixed32RoundTrip(offsets[i]);
    } else {
      assert block[p..p + 4] == EncodeFixed32(|filters| % WORD);
      Fixed32RoundTrip(|filters|);
    }
  }

  /** The reader asks exactly the filter the builder made for that index. */
  lemma LookupIsFilter(hash: Bytes -> nat, block: Bytes, filters: Bytes, offsets: seq<nat>, added: seq<Added>, i: nat,
                       key: Bytes)
    requires IsFilterBlock(hash, block, filters, offsets, added) && |filters| < WORD && i < |offsets|
    ensures |block| == |filters| + 4 * |offsets| + 5
    ensures offsets[i] <= FilterLimit(offsets, |filters|, i) <= |filters|
    ensures LookupMatches(hash, block, |filters|, |offsets|, i, key) <==>
      MayMatch(hash, key, filters[offsets[i]..FilterLimit(offsets, |filters|, i)])
  {
    hide MayMatch, IsFilterOf, OffsetAt, FilterBlockBytes, KeysOf;
    BlockParses(filters, offsets);
    assert FilterOk(hash, filters, offsets, added, i);
    if i + 1 < |offsets| { assert FilterOk(hash, filters, offsets, added, i + 1); }
    BlockOffsetAt(filters, offsets, i);
    BlockOffsetAt(filters, offsets, i + 1);
    var start, limit := offsets[i], FilterLimit(offsets, |filters|, i);
    FiltersFirst(filters, offsets, start, limit);
  }

  lemma FiltersFirst(filters: Bytes, offsets: seq<nat>, start: nat, limit: nat)
    requires start <= limit <= |filters|
    ensures |FilterBlockBytes(filters, offsets)| >= limit
    ensures FilterBlockBytes(filters, offsets)[start..limit] == filters[start..limit]
  {
    hide EncodeFixed32, OffsetBytes;
  }

  /** Exactly which keys match under an offset: those whose probes all land where probes of keys
      added for the same 2 KB range do.  The added keys do; where none was added, nothing does. */
  lemma MatchesExactly(hash: Bytes -> nat, block: Bytes, filters: Bytes, offsets: seq<nat>, added: seq<Added>,
                       blockOffset: nat, key: Bytes)
    requires IsFilterBlock(hash, block, filters, offsets, added) && |filters| < WORD
    requires blockOffset / FILTER_BASE < |offsets|
    ensures |block| == |filters| + 4 * |offsets| + 5
    ensures var i := blockOffset / FILTER_BASE;
      var matches := LookupMatches(hash, block, |filters|, |offsets|, FilterIndex(blockOffset, FILTER_BASE_LG), key);
      var filter := FilterBytes(filters, offsets, i);
      && (KeysOf(added, i) == {} ==> !matches)
      && (KeysOf(added, i) != {} ==> |filter| >= 2)
      && (KeysOf(added, i) != {} ==>
            (matches <==> AllHit(hash, KeysOf(added, i), filter[|filter| - 1], 8 * (|filter| - 1), key)))
      && (key in KeysOf(added, i) ==> matches)
  {
    hide MayMatch, LookupMatches, FilterBlockBytes, AllHit, IsFilterOf, KeysOf;
    var i := blockOffset / FILTER_BASE;
    FilterIndexIs(blockOffset);
    assert FilterOk(hash, filters, offsets, added, i);
    LookupIsFilter(hash, block, filters, offsets, added, i, key);
    if KeysOf(added, i) == {} {
      NothingMatches(hash, key);
    } else {
      FilterMatches(hash, KeysOf(added, i), FilterBytes(filters, offsets, i), key);
    }
  }

  lemma NothingMatches(hash: Bytes -> nat, key: Bytes)
    ensures !MayMatch(hash, key, [])
  {
  }

  /** The bytes of filter `i`. */
  function FilterBytes(filters: Bytes, offsets: seq<nat>, i: nat): Bytes
    requires i < |offsets|
  {
    var limit := FilterLimit(offsets, |filters|, i);
    if offsets[i] <= limit <= |filters| then filters[offsets[i]..limit] else []
  }

  /** No false negatives: a key added under a block's offset matches when asked under any
      offset of the same 2 KB range. */
  lemma NoFalseNegatives(hash: Bytes -> nat, block: Bytes, filters: Bytes, offsets: seq<nat>, added: seq<Added>,
                         a: Added, blockOffset: nat)
    requires IsFilterBlock(hash, block, filters, offsets, added) && |filters| < WORD
    requires a in added && a.index == blockOffset / FILTER_BASE
    ensures |block| == |filters| + 4 * |offsets| + 5
    ensures LookupMatches(hash, block, |filters|, |offsets|, FilterIndex(blockOffset, FILTER_BASE_LG), a.key)
  {
    hide MayMatch, LookupMatches, FilterBlockBytes, FilterIndex;
    assert a.key in KeysOf(added, a.index);
    MatchesExactly(hash, block, filters, offsets, added, blockOffset, a.key);
  }

  /** Written, read back and asked: every key added answers yes. */
  method BuildAndAsk(builder: FilterBlockBuilder, a: Added, blockOffset: nat) returns (r: bool)
    requires builder.Valid() && a in builder.added && a.index == blockOffset / FILTER_BASE
    modifies builder
    ensures |builder.result| < WORD ==> r
  {
    hide IsFilterBlock, LookupMatches, FilterBlockBytes;
    ghost var added := builder.added;
    var block, filters := builder.Finish();
    var reader := new FilterBlockReader(builder.policy, block);
    r := reader.KeyMayMatch(blockOffset, a.key);
    if |builder.result| < WORD {
      BlockIs(builder.policy.hash, block, filters, builder.filterOffsets, added);
      BlockParses(filters, builder.filterOffsets);
      NoFalseNegatives(builder.policy.hash, block, filters, builder.filterOffsets, added, a, blockOffset);
    }
  }

  lemma BlockIs(hash: Bytes -> nat, block: Bytes, filters: Bytes, offsets: seq<nat>, added: seq<Added>)
    requires IsFilterBlock(hash, block, filters, offsets, added)
    ensures block == FilterBlockBytes(filters, offsets) && |filters| <= |block|
  {
    hide EncodeFixed32, OffsetBytes;
  }
}
