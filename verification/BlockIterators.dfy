/** Iterating over a block (table/block.cc): walking, stepping back and searching. */
module BlockIterators {
  import opened InternalKeys
  import opened Coding
  import opened Blocks

  // ---- decoding an entry ----

  /** Header of the entry at `p`: shared and non-shared key lengths, value length, and where the
      key delta starts. */
  datatype Header = Header(shared: nat, nonShared: nat, valueLength: nat, delta: nat)

  /** Header at `p` as three varints; None if it or the entry does not end before `limit`. */
  function HeaderAt(data: Bytes, p: nat, limit: nat): (r: Option<Header>)
    requires limit <= |data|
    ensures r.Some? ==> p < r.value.delta && r.value.delta + r.value.nonShared + r.value.valueLength <= limit
  {
    if p + 3 > limit then None
    else
      var a := VarintAt(data, p, limit, 5);
      if a.None? then None
      else
        var b := VarintAt(data, p + a.value.1, limit, 5);
        if b.None? then None
        else
          var c := VarintAt(data, p + a.value.1 + b.value.1, limit, 5);
          if c.None? then None
          else
            var delta := p + a.value.1 + b.value.1 + c.value.1;
            var h := Header(a.value.0 % WORD, b.value.0 % WORD, c.value.0 % WORD, delta);
            if delta + h.nonShared + h.valueLength > limit then None else Some(h)
  }

  lemma OneByteVarint(data: Bytes, p: nat, limit: nat)
    requires p < limit <= |data| && data[p] < 128
    ensures VarintAt(data, p, limit, 5) == Some((data[p], 1))
  {
  }

  /** `DecodeEntry`, with its fast path for three lengths of one byte each. */
  method DecodeEntry(data: Bytes, p: nat, limit: nat) returns (r: Option<Header>)
    requires limit <= |data|
    ensures r == HeaderAt(data, p, limit)
  {
    hide VarintAt;
    if p + 3 > limit {
      return None;
    }
    var shared: nat, nonShared: nat, valueLength: nat := data[p], data[p + 1], data[p + 2];
    var q := p;
    if shared < 128 && nonShared < 128 && valueLength < 128 {
      OneByteVarint(data, p, limit);
      OneByteVarint(data, p + 1, limit);
      OneByteVarint(data, p + 2, limit);
      q := p + 3;
    } else {
      var a := GetVarint32Ptr(data, q, limit);
      if a.None? { return None; }
      var b := GetVarint32Ptr(data, a.value.1, limit);
      if b.None? { return None; }
      var c := GetVarint32Ptr(data, b.value.1, limit);
      if c.None? { return None; }
      shared, nonShared, valueLength, q := a.value.0, b.value.0, c.value.0, c.value.1;
    }
    if limit - q < nonShared + valueLength {
      return None;
    }
    return Some(Header(shared, nonShared, valueLength, q));
  }

  /** A written entry is decoded as it was written. */
  lemma HeaderOfEntry(data: Bytes, p: nat, limit: nat, shared: nat, e: Pair)
    requires shared <= |e.key| && |e.key| < WORD && |e.value| < WORD
    requires p + |EntryBytes(shared, e)| <= limit <= |data|
    requires data[p..p + |EntryBytes(shared, e)|] == EntryBytes(shared, e)
    ensures var h := HeaderAt(data, p, limit);
      && h.Some? && h.value.shared == shared && h.value.nonShared == |e.key| - shared
      && h.value.valueLength == |e.value|
      && h.value.delta + h.value.nonShared + |e.value| == p + |EntryBytes(shared, e)|
      && data[h.value.delta..h.value.delta + h.value.nonShared] == e.key[shared..]
      && data[h.value.delta + h.value.nonShared..h.value.delta + h.value.nonShared + |e.value|] == e.value
  {
    hide VarintAt, EncodeVarint, EntryBytes, Power128, HeaderAt;
    PowersOf128();
    var a, b, c := EncodeVarint(shared), EncodeVarint(|e.key| - shared), EncodeVarint(|e.value|);
    EntrySlices(data, p, shared, e, a, b, c);
    assert VarintAt(data, p, limit, 5) == Some((shared, |a|)) by { VarintRoundTrip(shared, data, p, limit, 5); }
    assert VarintAt(data, p + |a|, limit, 5) == Some((|e.key| - shared, |b|)) by {
      VarintRoundTrip(|e.key| - shared, data, p + |a|, limit, 5);
    }
    assert VarintAt(data, p + |a| + |b|, limit, 5) == Some((|e.value|, |c|)) by {
      VarintRoundTrip(|e.value|, data, p + |a| + |b|, limit, 5);
    }
    HeaderIs(data, p, limit, (shared, |a|), (|e.key| - shared, |b|), (|e.value|, |c|));
  }

  /** The header made of three varints, if the entry ends before the limit. */
  lemma HeaderIs(data: Bytes, p: nat, limit: nat, a: (nat, nat), b: (nat, nat), c: (nat, nat))
    requires p + 3 <= limit <= |data| && a.0 < WORD && b.0 < WORD && c.0 < WORD
    requires VarintAt(data, p, limit, 5) == Some(a) && VarintAt(data, p + a.1, limit, 5) == Some(b)
    requires VarintAt(data, p + a.1 + b.1, limit, 5) == Some(c)
    requires p + a.1 + b.1 + c.1 + b.0 + c.0 <= limit
    ensures HeaderAt(data, p, limit) == Some(Header(a.0, b.0, c.0, p + a.1 + b.1 + c.1))
  {
    hide VarintAt;
  }

  lemma EntrySlices(data: Bytes, p: nat, shared: nat, e: Pair, a: Bytes, b: Bytes, c: Bytes)
    requires shared <= |e.key| && p + |EntryBytes(shared, e)| <= |data|
    requires data[p..p + |EntryBytes(shared, e)|] == EntryBytes(shared, e)
    requires a == EncodeVarint(shared) && b == EncodeVarint(|e.key| - shared) && c == EncodeVarint(|e.value|)
    ensures var d := p + |a| + |b| + |c|;
      && d + |e.key| - shared + |e.value| == p + |EntryBytes(shared, e)|
      && data[p..p + |a|] == a && data[p + |a|..p + |a| + |b|] == b && data[p + |a| + |b|..d] == c
      && data[d..d + |e.key| - shared] == e.key[shared..]
      && data[d + |e.key| - shared..d + |e.key| - shared + |e.value|] == e.value
  {
    hide EncodeVarint, EntryBytes;
    var bytes, k, v := EntryBytes(shared, e), e.key[shared..], e.value;
    EntryConcat(shared, e);
    var d := p + |a| + |b| + |c|;
    assert data[p..p + |a|] == a by { SlicePart(data, p, bytes, [], a, b + c + k + v); }
    assert data[p + |a|..p + |a| + |b|] == b by { SlicePart(data, p, bytes, a, b, c + k + v); }
    assert data[p + |a| + |b|..d] == c by { SlicePart(data, p, bytes, a + b, c, k + v); }
    assert data[d..d + |k|] == k by { SlicePart(data, p, bytes, a + b + c, k, v); }
    assert data[d + |k|..d + |k| + |v|] == v by { SlicePart(data, p, bytes, a + b + c + k, v, []); }
  }

  lemma EntryConcat(shared: nat, e: Pair)
    requires shared <= |e.key|
    ensures var a, b, c, k, v := EncodeVarint(shared), EncodeVarint(|e.key| - shared), EncodeVarint(|e.value|),
            e.key[shared..], e.value;
      && |EntryBytes(shared, e)| == |a| + |b| + |c| + |k| + |v|
      && EntryBytes(shared, e) == [] + a + (b + c + k + v) == a + b + (c + k + v) == (a + b) + c + (k + v)
      && EntryBytes(shared, e) == (a + b + c) + k + v == (a + b + c + k) + v + []
  {
    hide EncodeVarint;
  }


  lemma SlicePart(data: Bytes, p: nat, bytes: Bytes, a: Bytes, b: Bytes, c: Bytes)
    requires p + |bytes| <= |data| && data[p..p + |bytes|] == bytes && bytes == a + b + c
    ensures data[p + |a|..p + |a| + |b|] == b
  {
    var s := data[p..p + |bytes|];
    var t := data[p + |a|..p + |a| + |b|];
    forall j | 0 <= j < |b| ensures t[j] == b[j] {
      assert s[|a| + j] == bytes[|a| + j] == b[j];
    }
  }

  // ---- order of keys ----

  ghost predicate KeysAscend(before: (Bytes, Bytes) -> bool, pairs: seq<Pair>) {
    forall i, j :: 0 <= i < j < |pairs| ==> before(pairs[i].key, pairs[j].key)
  }

  ghost predicate Transitive(before: (Bytes, Bytes) -> bool) {
    forall a, b, c :: before(a, b) && before(b, c) ==> before(a, c)
  }

  /** The first pair whose key is not before the target; their number if there is none. */
  ghost predicate FirstFrom(before: (Bytes, Bytes) -> bool, pairs: seq<Pair>, target: Bytes, i: nat) {
    && i <= |pairs|
    && (forall j :: 0 <= j < i ==> before(pairs[j].key, target))
    && (i < |pairs| ==> !before(pairs[i].key, target))
  }

  // ---- the iterator ----

  class BlockIterator {
    const before: (Bytes, Bytes) -> bool
    const data: Bytes
    const restartOffset: nat
    const numRestarts: nat
    var current: nat // offset of the current entry
    var restartIndex: nat
    var key: Bytes
    var valueStart: nat
    var valueEnd: nat
    var corrupt: bool
    ghost const layout: Layout
    ghost const built: bool // the block was built with this layout
    ghost var at: nat

    ghost predicate Shape() {
      && 0 < numRestarts && restartOffset + 4 * numRestarts <= |data|
      && (built ==>
            && Laid(layout, data[..restartOffset]) && layout.offsets[|layout.pairs|] == restartOffset
            && numRestarts == |layout.restarts|
            && (forall i :: 0 <= i < |layout.pairs| ==> |layout.pairs[i].key| < WORD && |layout.pairs[i].value| < WORD)
            && (forall r :: 0 <= r < numRestarts ==> RestartPoint(r) == RestartOffset(layout, r)))
    }

    function RestartPoint(r: nat): nat
      requires r < numRestarts && restartOffset + 4 * numRestarts <= |data|
    {
      DecodeFixed32(data[restartOffset + 4 * r..restartOffset + 4 * r + 4])
    }

    /** In a built block the iterator is exactly on one entry, or off the end. */
    ghost predicate OnEntry()
      requires Shape()
      reads this
    {
      built ==>
        && at <= |layout.pairs| && current == layout.offsets[at] && !corrupt
        && (at < |layout.pairs| ==>
              && key == layout.pairs[at].key && valueStart <= valueEnd <= |data|
              && data[valueStart..valueEnd] == layout.pairs[at].value
              && valueEnd == layout.offsets[at + 1] && restartIndex < numRestarts &&
                 RestartPoint(restartIndex) <= current)
    }

    ghost predicate Valid()
      reads this
    {
      && Shape() && current <= restartOffset
      && (current < restartOffset ==>
          restartIndex < numRestarts && valueStart <= valueEnd && current < valueEnd <= restartOffset)
      && OnEntry()
    }

    predicate IsValid()
      reads this
    {
      current < restartOffset
    }

    constructor (before: (Bytes, Bytes) -> bool, data: Bytes, restartOffset: nat, numRestarts: nat,
                 ghost layout: Layout, ghost built: bool)
      requires 0 < numRestarts && restartOffset + 4 * numRestarts <= |data|
      requires built ==> data == BlockBytes(layout, data[..restartOffset]) && Laid(layout, data[..restartOffset]) &&
                         layout.offsets[|layout.pairs|] == restartOffset && numRestarts == |layout.restarts|
      ensures Valid() && !IsValid() && this.built == built && this.layout == layout && this.before == before
    {
      hide Laid, BlockBytes, RestartOffset, DecodeFixed32;
      this.before, this.data, this.restartOffset, this.numRestarts := before, data, restartOffset, numRestarts;
      this.layout, this.built := layout, built;
      current, restartIndex, key, valueStart, valueEnd, corrupt := restartOffset, numRestarts, [], 0, 0, false;
      at := |layout.pairs|;
      new;
      if built { BuiltShape(layout, data, restartOffset); }
    }

    method CorruptionError()
      requires Shape() && !built
      modifies this
      ensures Valid() && !IsValid() && corrupt
    {
      current, restartIndex, corrupt, key := restartOffset, numRestarts, true, [];
      valueStart, valueEnd := 0, 0;
    }

    method SeekToRestartPoint(index: nat)
      requires Shape() && index < numRestarts && (built ==> !corrupt)
      modifies this`key, this`restartIndex, this`valueStart, this`valueEnd
      ensures restartIndex == index && valueEnd == RestartPoint(index) && key == []
      ensures built && layout.restarts[index] < |layout.offsets| ==> ReadyAt(layout.restarts[index])
    {
      key := [];
      restartIndex := index;
      var offset := RestartPoint(index);
      valueStart, valueEnd := offset, offset;
      if built { assert layout.restarts[index] in layout.restarts; }
    }

    /** The next entry to parse is entry `j`, and the key so far holds the prefix it shares. */
    ghost predicate ReadyAt(j: nat)
      requires Shape()
      reads this
    {
      && built && j <= |layout.pairs| && valueEnd == layout.offsets[j] && !corrupt
      && restartIndex < numRestarts && RestartPoint(restartIndex) <= layout.offsets[j]
      && (j < |layout.pairs| ==> PrefixKnown(layout, j, key))
    }

    /** The header of entry `j` is decoded as it was written. */
    lemma EntryHeader(j: nat)
      requires Shape() && built && j < |layout.pairs|
      ensures |layout.offsets| == |layout.pairs| + 1 && layout.offsets[j] < restartOffset
      ensures var h := HeaderAt(data, layout.offsets[j], restartOffset);
        var e := layout.pairs[j];
        && h.Some? && SharedAt(layout, j, h.value.shared)
        && data[h.value.delta..h.value.delta + h.value.nonShared] == e.key[h.value.shared..]
        && h.value.delta + h.value.nonShared + h.value.valueLength == layout.offsets[j + 1] <= restartOffset
        && data[h.value.delta + h.value.nonShared..layout.offsets[j + 1]] == e.value
    {
      hide HeaderAt, EntryBytes;
      var entries, e := data[..restartOffset], layout.pairs[j];
      assert EntryLaid(layout, entries, j);
      var shared: nat :| SharedAt(layout, j, shared) && layout.offsets[j] + |EntryBytes(shared, e)| ==
        layout.offsets[j + 1] <= |entries| &&
        entries[layout.offsets[j]..layout.offsets[j + 1]] == EntryBytes(shared, e);
      assert entries[layout.offsets[j]..layout.offsets[j + 1]] == data[layout.offsets[j]..layout.offsets[j + 1]];
      EntryFits(layout, entries, j);
      HeaderOfEntry(data, layout.offsets[j], restartOffset, shared, e);
    }

    lemma ReadyHeader(j: nat)
      requires Shape() && ReadyAt(j) && j < |layout.pairs|
      ensures layout.offsets[j] < restartOffset
      ensures var h := HeaderAt(data, layout.offsets[j], restartOffset);
        var e := layout.pairs[j];
        && h.Some? && h.value.shared <= |key|
        && key[..h.value.shared] + data[h.value.delta..h.value.delta + h.value.nonShared] == e.key
        && h.value.delta + h.value.nonShared + h.value.valueLength == layout.offsets[j + 1] <= restartOffset
        && data[h.value.delta + h.value.nonShared..layout.offsets[j + 1]] == e.value
    {
      hide HeaderAt, Laid;
      EntryHeader(j);
      var shared := HeaderAt(data, layout.offsets[j], restartOffset).value.shared;
      assert layout.pairs[j].key == layout.pairs[j].key[..shared] + layout.pairs[j].key[shared..];
    }

    /** In any block: the entry at `p` has been parsed into key and value, or it is bad, because its
        header does not parse or shares more than there is, and that is reported. */
    ghost predicate Parsed(p: nat, before: Bytes, more: bool)
      requires restartOffset <= |data|
      reads this
    {
      var h := HeaderAt(data, p, restartOffset);
      && more == (h.Some? && h.value.shared <= |before|)
      && if more then
           && key == before[..h.value.shared] + data[h.value.delta..h.value.delta + h.value.nonShared]
           && valueStart == h.value.delta + h.value.nonShared && valueEnd == valueStart + h.value.valueLength
         else corrupt
    }

    /** Parses the entry that follows the value; false at the end or on a bad entry. */
    method ParseNextKey(ghost j: nat) returns (more: bool)
      requires Shape() && restartIndex < numRestarts && (built ==> ReadyAt(j))
      modifies this
      ensures Valid() && more == IsValid()
      ensures more ==> current == old(valueEnd) < valueEnd
      ensures built ==> at == j && more == (j < |layout.pairs|)
      ensures old(valueEnd) >= restartOffset ==> !more && corrupt == old(corrupt)
      ensures old(valueEnd) < restartOffset ==> Parsed(old(valueEnd), old(key), more)
    {
      hide HeaderAt, Laid, RestartOffset, RestartPoint;
      current := valueEnd;
      at := j;
      if built { EndsRight(j); }
      if current >= restartOffset {
        current, restartIndex := restartOffset, numRestarts;
        return false;
      }
      if built { ReadyHeader(j); }
      var h := DecodeEntry(data, current, restartOffset);
      if h.None? || |key| < h.value.shared {
        CorruptionError();
        return false;
      }
      key := key[..h.value.shared];
      key := key + data[h.value.delta..h.value.delta + h.value.nonShared];
      valueStart := h.value.delta + h.value.nonShared;
      valueEnd := valueStart + h.value.valueLength;
      AdvanceRestart();
      return true;
    }

    /** Moves on to the last restart point before the current entry. */
    method AdvanceRestart()
      requires Shape() && restartIndex < numRestarts
      requires built ==> RestartPoint(restartIndex) <= current
      modifies this`restartIndex
      ensures restartIndex < numRestarts && (built ==> RestartPoint(restartIndex) <= current)
      ensures restartIndex + 1 == numRestarts || RestartPoint(restartIndex + 1) >= current
    {
      hide RestartPoint;
      while restartIndex + 1 < numRestarts && RestartPoint(restartIndex + 1) < current
        invariant restartIndex < numRestarts
        invariant built ==> RestartPoint(restartIndex) <= current
        decreases numRestarts - restartIndex
      {
        restartIndex := restartIndex + 1;
      }
    }

    /** Entry `j` starts before the end of the entries exactly if there is one. */
    lemma EndsRight(j: nat)
      requires Shape() && built && j <= |layout.pairs|
      ensures |layout.offsets| == |layout.pairs| + 1 && layout.offsets[|layout.pairs|] == restartOffset
      ensures layout.offsets[j] < restartOffset <==> j < |layout.pairs|
    {
      if j < |layout.pairs| { OffsetsRise(layout, data[..restartOffset], j, |layout.pairs|); }
    }

    /** On an entry, the next one is ready to be parsed. */
    lemma ReadyNext()
      requires Valid() && built && at < |layout.pairs|
      ensures restartIndex < numRestarts && ReadyAt(at + 1)
    {
      hide Laid;
      LayoutFacts(layout, data[..restartOffset], at);
    }

    /** On a built block the cursor is valid exactly on an entry, and holds its key and value. */
    lemma OnPair()
      requires Valid() && built
      ensures at <= |layout.pairs| && (IsValid() <==> at < |layout.pairs|) && !corrupt
      ensures IsValid() ==>
        valueStart <= valueEnd <= |data| && Pair(key, data[valueStart..valueEnd]) == layout.pairs[at]
    {
      EndsRight(at);
    }

    lemma ValueInData()
      requires Valid() && IsValid()
      ensures valueStart <= valueEnd <= |data|
    {
    }

    method SeekToFirst()
      requires Valid() && (built ==> !corrupt)
      modifies this
      ensures Valid() && (built ==> at == 0)
    {
      SeekToRestartPoint(0);
      var more := ParseNextKey(0);
    }

    method Next()
      requires Valid() && IsValid()
      modifies this
      ensures Valid() && (built ==> at == old(at) + 1)
    {
      hide Laid;
      if built { EndsRight(at); ReadyNext(); }
      var more := ParseNextKey(at + 1);
    }

    method SeekToLast()
      requires Valid() && (built ==> !corrupt)
      modifies this
      ensures Valid() && (built ==> at == if layout.pairs == [] then 0 else |layout.pairs| - 1)
    {
      hide Laid, HeaderAt, RestartOffset, RestartPoint;
      SeekToRestartPoint(numRestarts - 1);
      ghost var j := if built then layout.restarts[numRestarts - 1] else 0;
      if built { LastRestart(layout, data[..restartOffset]); }
      var more := ParseNextKey(j);
      while more && valueEnd < restartOffset
        invariant Valid() && more == IsValid() && (built ==> at <= |layout.pairs| && (at == |layout.pairs| ==> at == 0))
        decreases restartOffset - current
      {
        if built {
          EndsRight(at);
          EndsRight(at + 1);
          ReadyNext();
        }
        more := ParseNextKey(at + 1);
      }
      if built { EndsRight(at); if at < |layout.pairs| { EndsRight(at + 1); } }
    }

    /** Steps back: from the last restart point before the entry forward to the entry before. */
    method Prev()
      requires Valid() && IsValid()
      modifies this
      ensures Valid() && (built ==> at == if old(at) == 0 then |layout.pairs| else old(at) - 1)
    {
      hide Laid, HeaderAt, RestartOffset, RestartPoint;
      var original := current;
      ghost var was := at;
      if built { EndsRight(at); }
      while restartIndex > 0 && RestartPoint(restartIndex) >= original
        invariant restartIndex < numRestarts && Shape()
        decreases restartIndex
        modifies this`restartIndex
      {
        restartIndex := restartIndex - 1;
      }
      if RestartPoint(restartIndex) >= original {
        if built { FirstOffset(was); EndsRight(|layout.pairs|); }
        current, restartIndex := restartOffset, numRestarts;
        at := |layout.pairs|;
        return;
      }
      SeekToRestartPoint(restartIndex);
      ghost var j := if built then layout.restarts[restartIndex] else 0;
      if built { RestartBefore(restartIndex, was); }
      var more := ParseNextKey(j);
      while more && valueEnd < original
        invariant Valid() && more == IsValid()
        invariant built ==>
                  at < was < |layout.pairs| && |layout.offsets| == |layout.pairs| + 1 && original == layout.offsets[was]
        decreases restartOffset - current
      {
        if built {
          NextBefore(at, was);
          ReadyNext();
        }
        more := ParseNextKey(at + 1);
      }
      if built {
        NextBefore(at, was);
        EndsRight(at);
      }
    }

    /** Binary search over the restart points, then a scan: the first pair at or after the
        target, as a scan from the start would find it. */
    method Seek(target: Bytes)
      requires Valid() && (built ==> !corrupt)
      modifies this
      ensures Valid()
      ensures built && Transitive(before) && KeysAscend(before, layout.pairs) ==>
              FirstFrom(before, layout.pairs, target, at)
    {
      hide Laid, HeaderAt, Transitive, KeysAscend, RestartPoint, RestartOffset;
      var found, left := FindRestart(target);
      if !found { return; }
      ghost var ordered := built && Transitive(before) && KeysAscend(before, layout.pairs);
      SeekToRestartPoint(left);
      ghost var j := if built then layout.restarts[left] else 0;
      if built { RestartInRange(left); }
      if ordered { AllBefore(target, left); }
      var more := ParseNextKey(j);
      while more && before(key, target)
        invariant Valid() && more == IsValid() && (built ==> at <= |layout.pairs| && more == (at < |layout.pairs|))
        invariant ordered ==> forall i :: 0 <= i < at ==> before(layout.pairs[i].key, target)
        decreases restartOffset - current
      {
        if built { ReadyNext(); }
        more := ParseNextKey(at + 1);
      }
    }

    /** Binary search for the last restart point whose key is before the target. */
    method FindRestart(target: Bytes) returns (found: bool, left: nat)
      requires Valid() && (built ==> !corrupt)
      modifies this
      ensures Valid() && left < numRestarts && (built ==> found && !corrupt)
      ensures built && Transitive(before) && KeysAscend(before, layout.pairs) ==> RestartIsBefore(target, left)
    {
      hide Laid, HeaderAt, Transitive, KeysAscend, RestartPoint, RestartOffset;
      ghost var ordered := built && Transitive(before) && KeysAscend(before, layout.pairs);
      left := 0;
      var right := numRestarts - 1;
      while left < right
        invariant 0 <= left <= right < numRestarts && Valid() && (built ==> !corrupt)
        invariant ordered ==> RestartIsBefore(target, left)
      {
        var mid := (left + right + 1) / 2;
        var regionOffset := RestartPoint(mid);
        if built { RestartEntry(mid); }
        var h := DecodeEntry(data, regionOffset, restartOffset);
        if h.None? || h.value.shared != 0 {
          CorruptionError();
          return false, 0;
        }
        if before(data[h.value.delta..h.value.delta + h.value.nonShared], target) {
          left := mid;
        } else {
          right := mid - 1;
        }
      }
      return true, left;
    }

    /** The key at a restart point other than the first is before the target. */
    ghost predicate RestartIsBefore(target: Bytes, r: nat)
      requires Shape() && built && r < numRestarts
    {
      r > 0 ==> layout.restarts[r] < |layout.pairs| && before(layout.pairs[layout.restarts[r]].key, target)
    }

    lemma RestartEntry(r: nat)
      requires Shape() && built && 0 < r < numRestarts
      ensures layout.restarts[r] < |layout.pairs|
      ensures var h := HeaderAt(data, RestartPoint(r), restartOffset);
        h.Some? && h.value.shared == 0 && data[h.value.delta..h.value.delta + h.value.nonShared] ==
          layout.pairs[layout.restarts[r]].key
    {
      hide HeaderAt;
      EntryHeader(layout.restarts[r]);
      assert layout.restarts[r] in layout.restarts;
      var e := layout.pairs[layout.restarts[r]];
      assert e.key[0..] == e.key;
    }

    lemma RestartInRange(r: nat)
      requires Shape() && built && r < numRestarts
      ensures layout.restarts[r] < |layout.offsets| && layout.restarts[r] <= |layout.pairs|
      ensures |layout.offsets| == |layout.pairs| + 1
    {
    }

    /** Everything before a restart point whose key is before the target is before it too. */
    lemma AllBefore(target: Bytes, r: nat)
      requires Shape() && built && Transitive(before) && KeysAscend(before, layout.pairs) && r < numRestarts
      requires RestartIsBefore(target, r)
      ensures forall i :: 0 <= i < layout.restarts[r] && i < |layout.pairs| ==> before(layout.pairs[i].key, target)
    {
      assert r == 0 ==> layout.restarts[r] == 0;
    }

    /** An entry at offset 0 is the first. */
    lemma FirstOffset(j: nat)
      requires Shape() && built && j <= |layout.pairs|
      ensures RestartPoint(0) == 0 && (layout.offsets[j] == 0 ==> j == 0)
    {
      if j > 0 { OffsetsRise(layout, data[..restartOffset], 0, j); }
    }

    /** A restart point before entry `j` is at an earlier entry. */
    lemma RestartBefore(r: nat, j: nat)
      requires Shape() && built && r < numRestarts && j < |layout.pairs| && RestartPoint(r) < layout.offsets[j]
      ensures layout.restarts[r] < j && layout.restarts[r] < |layout.offsets|
    {
      if layout.restarts[r] < |layout.pairs| && j < layout.restarts[r] {
        OffsetsRise(layout, data[..restartOffset], j, layout.restarts[r]);
      }
    }

    /** Before entry `j`: the end of entry `i` is the start of `j` exactly if `j` follows. */
    lemma NextBefore(i: nat, j: nat)
      requires Shape() && built && i < j < |layout.pairs|
      ensures layout.offsets[i + 1] <= layout.offsets[j] && (layout.offsets[i + 1] == layout.offsets[j] <==> i + 1 == j)
    {
      if i + 1 < j { OffsetsRise(layout, data[..restartOffset], i + 1, j); }
    }
  }

  lemma LayoutFacts(l: Layout, entries: Bytes, i: nat)
    requires Laid(l, entries) && i < |l.pairs|
    ensures |l.offsets| == |l.pairs| + 1 && l.offsets[i] < l.offsets[i + 1]
    ensures i + 1 < |l.pairs| ==> PrefixKnown(l, i + 1, l.pairs[i].key)
  {
    EntryFits(l, entries, i);
  }

  /** `key` starts with whatever entry `j` may share. */
  ghost predicate PrefixKnown(l: Layout, j: nat, key: Bytes)
    requires j < |l.pairs|
  {
    forall shared: nat :: SharedAt(l, j, shared) ==> shared <= |key| && key[..shared] == l.pairs[j].key[..shared]
  }

  lemma LastRestart(l: Layout, entries: Bytes)
    requires Laid(l, entries)
    ensures var r := l.restarts[|l.restarts| - 1];
            r <= |l.pairs| && r < |l.offsets| && (l.pairs != [] ==> r < |l.pairs|)
  {
  }

  lemma {:induction false} RestartAt(l: Layout, n: nat, r: nat)
    requires r < n <= |l.restarts|
    ensures |RestartBytes(l, n)| == 4 * n
    ensures RestartBytes(l, n)[4 * r..4 * r + 4] == EncodeFixed32(RestartOffset(l, r) % WORD)
  {
    var before := RestartBytes(l, n - 1);
    RestartBytesLength(l, n - 1);
    if r < n - 1 {
      RestartAt(l, n - 1, r);
      assert RestartBytes(l, n)[4 * r..4 * r + 4] == before[4 * r..4 * r + 4];
    }
  }

  /** The restart array is read back as it was written. */
  lemma BuiltShape(l: Layout, data: Bytes, restartOffset: nat)
    requires restartOffset <= |data| && data == BlockBytes(l, data[..restartOffset]) && Laid(l, data[..restartOffset])
    ensures forall r :: 0 <= r < |l.restarts| && restartOffset + 4 * r + 4 <= |data| ==>
              DecodeFixed32(data[restartOffset + 4 * r..restartOffset + 4 * r + 4]) == RestartOffset(l, r)
    ensures forall i :: 0 <= i < |l.pairs| ==> |l.pairs[i].key| < WORD && |l.pairs[i].value| < WORD
  {
    var entries := data[..restartOffset];
    RestartsFit(l, entries);
    forall r | 0 <= r < |l.restarts| && restartOffset + 4 * r + 4 <= |data|
      ensures DecodeFixed32(data[restartOffset + 4 * r..restartOffset + 4 * r + 4]) == RestartOffset(l, r)
    {
      RestartInBlock(l, entries, r);
    }
    forall i | 0 <= i < |l.pairs| ensures |l.pairs[i].key| < WORD && |l.pairs[i].value| < WORD {
      PairFits(l, entries, i);
    }
  }

  lemma RestartInBlock(l: Layout, entries: Bytes, r: nat)
    requires r < |l.restarts| && RestartOffset(l, r) < WORD
    ensures var data, p := BlockBytes(l, entries), |entries| + 4 * r;
      p + 4 <= |data| && DecodeFixed32(data[p..p + 4]) == RestartOffset(l, r)
  {
    hide EncodeFixed32, DecodeFixed32, RestartBytes;
    var data, n := BlockBytes(l, entries), |l.restarts|;
    RestartAt(l, n, r);
    Fixed32RoundTrip(RestartOffset(l, r));
    var rest := RestartBytes(l, n);
    SlicePart(data, 0, data, entries + rest[..4 * r], rest[4 * r..4 * r + 4],
              rest[4 * r + 4..] + EncodeFixed32(n % WORD));
    var p := |entries| + 4 * r;
    assert p + 4 <= |data|;
    assert rest[4 * r..4 * r + 4] == EncodeFixed32(RestartOffset(l, r));
    assert data[p..p + 4] == EncodeFixed32(RestartOffset(l, r));
    assert DecodeFixed32(data[p..p + 4]) == RestartOffset(l, r);
  }

  /** Keys are no longer than what was written for them and the entries before. */
  lemma {:induction false} PairFits(l: Layout, entries: Bytes, i: nat)
    requires Laid(l, entries) && i < |l.pairs|
    ensures |l.pairs[i].key| <= l.offsets[i + 1] && l.offsets[i + 1] < WORD && |l.pairs[i].value| < WORD
  {
    hide EncodeVarint;
    assert EntryLaid(l, entries, i);
    var shared: nat :| SharedAt(l, i, shared) && l.offsets[i] + |EntryBytes(shared, l.pairs[i])| ==
      l.offsets[i + 1] <= |entries| &&
      entries[l.offsets[i]..l.offsets[i + 1]] == EntryBytes(shared, l.pairs[i]);
    if i > 0 { PairFits(l, entries, i - 1); }
  }

  // ---- whole blocks ----

  /** What `Block::NewIterator` makes of a block's bytes. */
  datatype Opened = BadBlock | EmptyBlock | Iterating(cursor: BlockIterator)

  /** `Block` and `NewIterator`: the number of restart points stands at the end and must leave
      room for them. */
  method OpenBlock(before: (Bytes, Bytes) -> bool, block: Bytes, ghost layout: Layout, ghost entries: Bytes,
                   ghost built: bool)
    returns (r: Opened)
    requires built ==>
             block == BlockBytes(layout, entries) && Laid(layout, entries) &&
             layout.offsets[|layout.pairs|] == |entries| &&
             |layout.restarts| < WORD
    ensures r.Iterating? ==>
      var it := r.cursor;
      fresh(it) && it.Valid() && !it.IsValid() && it.built == built && it.layout == layout && it.before == before
    ensures built ==> r.Iterating?
  {
    hide Laid, RestartBytes, RestartOffset, EncodeFixed32, DecodeFixed32;
    if built { BlockEnd(layout, entries); }
    if |block| < 4 {
      return BadBlock;
    }
    var numRestarts := DecodeFixed32(block[|block| - 4..]);
    if numRestarts > (|block| - 4) / 4 {
      return BadBlock;
    }
    if numRestarts == 0 {
      return EmptyBlock;
    }
    var restartOffset := |block| - (1 + numRestarts) * 4;
    var it := new BlockIterator(before, block, restartOffset, numRestarts, layout, built);
    return Iterating(it);
  }

  lemma BlockEnd(l: Layout, entries: Bytes)
    requires Laid(l, entries) && |l.restarts| < WORD
    ensures var block, n := BlockBytes(l, entries), |l.restarts|;
      && n > 0 && |block| == |entries| + 4 * n + 4 && DecodeFixed32(block[|block| - 4..]) == n
      && block[..|entries|] == entries
  {
    hide RestartBytes, EncodeFixed32, DecodeFixed32;
    var block, n := BlockBytes(l, entries), |l.restarts|;
    RestartBytesLength(l, n);
    Fixed32RoundTrip(n);
    assert block[|block| - 4..] == EncodeFixed32(n);
    assert block[..|entries|] == entries;
  }

  /** Room that a builder needs at most for these pairs. */
  function Room(pairs: seq<Pair>): nat {
    if pairs == [] then 0
    else Room(pairs[..|pairs| - 1]) + 15 + |pairs[|pairs| - 1].key| + |pairs[|pairs| - 1].value|
  }

  lemma {:induction false} RoomGrows(pairs: seq<Pair>, i: nat)
    requires i < |pairs|
    ensures Room(pairs[..i]) + 15 + |pairs[i].key| + |pairs[i].value| <= Room(pairs)
  {
    var init := pairs[..|pairs| - 1];
    if i < |init| {
      RoomGrows(init, i);
      assert init[..i] == pairs[..i];
    }
  }

  /** A block of the pairs, as a builder makes it. */
  method BuildBlock(pairs: seq<Pair>, interval: nat) returns (block: Bytes, ghost layout: Layout, ghost entries: Bytes)
    requires interval >= 1 && Room(pairs) < WORD - 1
    ensures layout.pairs == pairs && block == BlockBytes(layout, entries)
    ensures Laid(layout, entries) && layout.offsets[|layout.pairs|] == |entries| && |layout.restarts| < WORD
  {
    hide Laid, RestartOffset, Room, BlockBytes;
    var builder := new BlockBuilder(interval);
    RoomOfNone(pairs);
    for i := 0 to |pairs|
      invariant fresh(builder) && builder.Valid() && builder.layout.pairs == pairs[..i]
      invariant |builder.buffer| <= Room(pairs[..i])
    {
      RoomGrows(pairs, i);
      assert pairs[..i + 1][..i] == pairs[..i];
      RoomStep(pairs[..i + 1]);
      builder.Add(pairs[i].key, pairs[i].value);
    }
    assert pairs[..|pairs|] == pairs;
    layout, entries := builder.layout, builder.buffer;
    FewRestarts(layout, entries);
    block := builder.Finish();
  }

  /** Walking a built block from its first entry. */
  method WalkBlock(before: (Bytes, Bytes) -> bool, block: Bytes, ghost layout: Layout, ghost entries: Bytes)
    returns (walked: seq<Pair>)
    requires block == BlockBytes(layout, entries) && Laid(layout, entries)
    requires layout.offsets[|layout.pairs|] == |entries| && |layout.restarts| < WORD
    ensures walked == layout.pairs
  {
    hide Laid, BlockBytes, BlockIterator.Valid;
    var open := OpenBlock(before, block, layout, entries, true);
    var it := open.cursor;
    it.OnPair();
    it.SeekToFirst();
    it.OnPair();
    walked := [];
    ghost var pairs, n := layout.pairs, 0;
    while it.IsValid()
      invariant it.Valid() && it.built && it.layout == layout && fresh(it) && it.at == n <= |pairs|
      invariant walked == pairs[..n]
      invariant it.IsValid() <==> n < |pairs|
      decreases |pairs| - n
    {
      it.OnPair();
      walked := walked + [Pair(it.key, it.data[it.valueStart..it.valueEnd])];
      it.Next();
      n := n + 1;
      it.OnPair();
    }
  }

  /** Building a block and walking it from the first entry yields exactly the pairs added, for
      every restart interval. */
  method BuildAndWalk(before: (Bytes, Bytes) -> bool, pairs: seq<Pair>, interval: nat) returns (walked: seq<Pair>)
    requires interval >= 1 && Room(pairs) < WORD - 1
    ensures walked == pairs
  {
    hide Laid, BlockBytes;
    var block;
    ghost var layout, entries;
    block, layout, entries := BuildBlock(pairs, interval);
    walked := WalkBlock(before, block, layout, entries);
  }

  lemma RoomOfNone(pairs: seq<Pair>)
    ensures Room(pairs[..0]) == 0
  {
  }

  lemma RoomStep(pairs: seq<Pair>)
    requires pairs != []
    ensures Room(pairs) == Room(pairs[..|pairs| - 1]) + 15 + |pairs[|pairs| - 1].key| + |pairs[|pairs| - 1].value|
  {
  }

  /** There are no more restart points than bytes. */
  lemma FewRestarts(l: Layout, entries: Bytes)
    requires Laid(l, entries) && |entries| < WORD - 1
    ensures |l.restarts| < WORD
  {
    var k := |l.restarts| - 1;
    RestartsSpread(l, entries, k);
    if l.restarts[k] < |l.pairs| { EntriesSpread(l, entries, l.restarts[k]); }
  }

  lemma {:induction false} RestartsSpread(l: Layout, entries: Bytes, r: nat)
    requires Laid(l, entries) && r < |l.restarts|
    ensures l.restarts[r] >= r
  {
    if r > 0 { RestartsSpread(l, entries, r - 1); }
  }

  lemma {:induction false} EntriesSpread(l: Layout, entries: Bytes, i: nat)
    requires Laid(l, entries) && i < |l.pairs|
    ensures i <= l.offsets[i] <= |entries|
  {
    if i > 0 {
      EntriesSpread(l, entries, i - 1);
      EntryFits(l, entries, i - 1);
    }
  }
}
