/** Blocks of key-value pairs with shared key prefixes and restart points
    (table/block_builder.cc, table/block.cc).

    Keys are byte strings in the order of a comparator, given as `before`. */
module Blocks {
  import opened Coding

  datatype Pair = Pair(key: Bytes, value: Bytes)

  // ---- one entry ----

  function EntryBytes(shared: nat, p: Pair): (bytes: Bytes)
    requires shared <= |p.key|
    ensures |bytes| >= 3
  {
    EncodeVarint(shared) + EncodeVarint(|p.key| - shared) + EncodeVarint(|p.value|) + p.key[shared..] + p.value
  }

  // ---- layout of a built block ----

  /** Where the entries of a block lie and which of them are restart points. */
  datatype Layout = Layout(pairs: seq<Pair>, offsets: seq<nat>, restarts: seq<nat>)

  /** The keys agree in their first `n` bytes and no further. */
  ghost predicate Longest(a: Bytes, b: Bytes, n: nat) {
    n <= |a| && n <= |b| && a[..n] == b[..n] && (n == |a| || n == |b| || a[n] != b[n])
  }

  /** Prefix that entry `i` shares: none at a restart point, else all it has in common with the
      key before. */
  ghost predicate SharedAt(l: Layout, i: nat, shared: nat)
    requires i < |l.pairs|
  {
    && shared <= |l.pairs[i].key|
    && (i == 0 || i in l.restarts ==> shared == 0)
    && (i > 0 ==> shared <= |l.pairs[i - 1].key| && l.pairs[i - 1].key[..shared] == l.pairs[i].key[..shared])
    && (i > 0 && i !in l.restarts ==> Longest(l.pairs[i - 1].key, l.pairs[i].key, shared))
  }

  /** Every `interval`-th entry is a restart point, and no other; `counter` entries follow the
      last one. */
  ghost predicate RestartsEvery(l: Layout, interval: nat, counter: nat) {
    && (forall r :: 0 <= r < |l.restarts| ==> l.restarts[r] == r * interval)
    && |l.restarts| > 0 && |l.pairs| == (|l.restarts| - 1) * interval + counter
  }

  lemma Multiples(a: nat, b: nat, n: nat)
    requires a <= b && a > 0
    ensures a * n <= b * n && a * n == (a - 1) * n + n
  {
  }

  lemma MultipleRest(r: nat, n: nat)
    requires n > 0
    ensures (r * n) % n == 0
  {
    var x := r * n;
    var q, m := x / n, x % n;
    assert x == q * n + m;
    if q < r { Multiples(q + 1, r, n); }
    if q > r { Multiples(r + 1, q, n); }
  }

  /** Any entry is a restart point exactly if its number is a multiple of the interval. */
  lemma RestartsAre(l: Layout, interval: nat, counter: nat, i: nat)
    requires RestartsEvery(l, interval, counter) && counter <= interval && interval > 0 && i < |l.pairs|
    ensures i in l.restarts <==> i % interval == 0
  {
    if i in l.restarts {
      var r :| 0 <= r < |l.restarts| && l.restarts[r] == i;
      MultipleRest(r, interval);
    }
    if i % interval == 0 {
      var r := i / interval;
      assert i == r * interval;
      if r >= |l.restarts| { Multiples(|l.restarts|, r, interval); }
      assert l.restarts[r] == i;
    }
  }

  /** Entry `i` lies between its offset and the next, encoded with some shared prefix. */
  ghost predicate EntryLaid(l: Layout, data: Bytes, i: nat)
    requires i < |l.pairs| && |l.offsets| == |l.pairs| + 1
  {
    exists shared: nat :: SharedAt(l, i, shared) && l.offsets[i] + |EntryBytes(shared, l.pairs[i])| ==
      l.offsets[i + 1] <= |data| &&
      data[l.offsets[i]..l.offsets[i + 1]] == EntryBytes(shared, l.pairs[i])
  }

  /** `data` starts with exactly the entries, in order; the restart points rise from entry 0. */
  ghost predicate Laid(l: Layout, data: Bytes) {
    && |l.offsets| == |l.pairs| + 1 && l.offsets[0] == 0 && l.offsets[|l.pairs|] <= |data| < WORD
    && (forall i :: 0 <= i < |l.pairs| ==> EntryLaid(l, data, i))
    && |l.restarts| > 0 && l.restarts[0] == 0
    && (forall r :: 0 <= r < |l.restarts| ==> l.restarts[r] < |l.pairs| || r == 0)
    && (forall r, q :: 0 <= r < q < |l.restarts| ==> l.restarts[r] < l.restarts[q])
  }

  lemma EntryFits(l: Layout, data: Bytes, i: nat)
    requires Laid(l, data) && i < |l.pairs|
    ensures l.offsets[i] + 3 <= l.offsets[i + 1] <= |data|
  {
    assert EntryLaid(l, data, i);
  }

  lemma {:induction false} OffsetsRise(l: Layout, data: Bytes, i: nat, j: nat)
    requires Laid(l, data) && i < j <= |l.pairs|
    ensures l.offsets[i] < l.offsets[j] <= |data|
  {
    EntryFits(l, data, j - 1);
    if i < j - 1 { OffsetsRise(l, data, i, j - 1); }
  }

  // ---- the builder ----

  /** A block that is being built: layout, entries written and the last key. */
  class BlockBuilder {
    const interval: nat
    var buffer: Bytes
    var restarts: seq<nat> // offsets of restart points
    var counter: nat // entries since the last restart point
    var lastKey: Bytes
    var finished: bool
    ghost var layout: Layout

    ghost predicate Valid()
      reads this
    {
      && interval >= 1 && counter <= interval && !finished
      && Laid(layout, buffer) && layout.offsets[|layout.pairs|] == |buffer|
      && |restarts| == |layout.restarts|
      && (forall r :: 0 <= r < |restarts| ==> restarts[r] == RestartOffset(layout, r))
      && (forall r :: 0 <= r < |layout.restarts| ==> layout.restarts[r] < |layout.offsets|)
      && (layout.pairs == [] ==> lastKey == [] && counter == 0)
      && (layout.pairs != [] ==> lastKey == layout.pairs[|layout.pairs| - 1].key && counter >= 1)
      && RestartsEvery(layout, interval, counter)
    }

    constructor (interval: nat)
      requires interval >= 1
      ensures Valid() && layout.pairs == [] && buffer == [] && this.interval == interval
    {
      this.interval := interval;
      buffer, restarts, counter, lastKey, finished := [], [0], 0, [], false;
      layout := Layout([], [0], [0]);
    }

    /** How much of the key is shared with the last one; after `interval` entries nothing is,
        and a new restart point starts. */
    method StartEntry(key: Bytes) returns (shared: nat)
      requires Valid()
      modifies this`restarts, this`counter, this`layout
      ensures layout.pairs == old(layout.pairs) && layout.offsets == old(layout.offsets) && counter < interval
      ensures layout.restarts == old(layout.restarts) ||
              (layout.restarts == old(layout.restarts) + [|layout.pairs|] && layout.pairs != [] && shared == 0)
      ensures |restarts| == |layout.restarts|
      ensures forall r :: 0 <= r < |restarts| ==> restarts[r] == RestartOffset(layout, r)
      ensures shared <= |key| && shared <= |lastKey| && lastKey[..shared] == key[..shared]
      ensures layout.pairs == [] ==> shared == 0
      ensures layout.restarts == old(layout.restarts) ==> Longest(lastKey, key, shared)
      ensures RestartsEvery(layout, interval, counter)
    {
      hide Laid;
      shared := 0;
      if counter < interval {
        var minLength := if |lastKey| < |key| then |lastKey| else |key|;
        while shared < minLength && lastKey[shared] == key[shared]
          invariant shared <= minLength && lastKey[..shared] == key[..shared]
        {
          shared := shared + 1;
        }
      } else {
        LayoutSize(layout, buffer);
        restarts := restarts + [|buffer|];
        counter := 0;
        layout := layout.(restarts := layout.restarts + [|layout.pairs|]);
        NextRestart(old(layout), interval);
      }
    }

    /** Writes one entry at the end of the buffer. */
    method AppendEntry(shared: nat, key: Bytes, value: Bytes)
      requires shared <= |key| < WORD && |value| < WORD
      modifies this`buffer
      ensures buffer == old(buffer) + EntryBytes(shared, Pair(key, value))
      ensures |buffer| <= old(|buffer|) + 15 + |key| + |value|
    {
      hide EntryBytes, EncodeVarint, Power128;
      var head := EncodeVarint32(shared);
      var middle := EncodeVarint32(|key| - shared);
      var tail := EncodeVarint32(|value|);
      EntryParts(buffer, shared, Pair(key, value));
      EntryLength(shared, Pair(key, value));
      buffer := buffer + head + middle + tail;
      buffer := buffer + key[shared..];
      buffer := buffer + value;
    }

    /** Adds a pair after those already there. */
    method Add(key: Bytes, value: Bytes)
      requires Valid() && |buffer| + 15 + |key| + |value| < WORD
      modifies this
      ensures Valid() && layout.pairs == old(layout.pairs) + [Pair(key, value)]
      ensures |buffer| <= old(|buffer|) + 15 + |key| + |value|
    {
      hide EntryBytes, Laid, RestartOffset;
      ghost var was, before := layout, buffer;
      LayoutSize(layout, buffer);
      var shared := StartEntry(key);
      AppendEntry(shared, key, value);
      AddKeeps(was, layout, before, buffer, shared, Pair(key, value));
      ghost var l := layout;
      layout := layout.(pairs := layout.pairs + [Pair(key, value)], offsets := layout.offsets + [|buffer|]);
      RestartsKept(was, l, layout);
      lastKey := lastKey[..shared];
      lastKey := lastKey + key[shared..];
      assert lastKey == key;
      counter := counter + 1;
    }

    /** The finished block: entries, restart offsets, and their number. */
    method Finish() returns (block: Bytes)
      requires Valid() && |restarts| < WORD
      modifies this
      ensures block == BlockBytes(old(layout), old(buffer)) && finished
    {
      hide Laid, RestartBytes, RestartOffset, EncodeFixed32;
      ghost var data := buffer;
      RestartsFit(layout, buffer);
      RestartStart(layout);
      assert buffer == data + [];
      for i := 0 to |restarts|
        invariant restarts == old(restarts) && layout == old(layout) && buffer == data + RestartBytes(layout, i)
      {
        RestartStep(layout, i);
        buffer := buffer + EncodeFixed32(restarts[i]);
      }
      buffer := buffer + EncodeFixed32(|restarts|);
      finished := true;
      block := buffer;
    }

    /** Starts over with an empty block. */
    method Reset()
      requires interval >= 1
      modifies this
      ensures Valid() && layout.pairs == [] && buffer == []
    {
      buffer, restarts, counter, finished, lastKey := [], [0], 0, false, [];
      layout := Layout([], [0], [0]);
    }

    lemma EmptyBuffer()
      requires Valid()
      ensures buffer == [] <==> layout.pairs == []
    {
      if layout.pairs != [] { EntryFits(layout, buffer, |layout.pairs| - 1); }
    }

    /** How large the finished block will be. */
    method CurrentSizeEstimate() returns (n: nat)
      requires Valid()
      ensures n == |BlockBytes(layout, buffer)|
    {
      RestartBytesLength(layout, |layout.restarts|);
      n := |buffer| + |restarts| * 4 + 4;
    }
  }

  /** Offset of a restart point. */
  function RestartOffset(l: Layout, r: nat): nat
    requires r < |l.restarts|
  {
    if l.restarts[r] < |l.offsets| then l.offsets[l.restarts[r]] else 0
  }

  function RestartBytes(l: Layout, n: nat): Bytes
    requires n <= |l.restarts|
  {
    if n == 0 then [] else RestartBytes(l, n - 1) + EncodeFixed32(RestartOffset(l, n - 1) % WORD)
  }

  function BlockBytes(l: Layout, data: Bytes): Bytes {
    data + RestartBytes(l, |l.restarts|) + EncodeFixed32(|l.restarts| % WORD)
  }

  lemma {:induction false} RestartBytesLength(l: Layout, n: nat)
    requires n <= |l.restarts|
    ensures |RestartBytes(l, n)| == 4 * n
  {
    if n > 0 { RestartBytesLength(l, n - 1); }
  }

  lemma RestartStart(l: Layout)
    ensures RestartBytes(l, 0) == []
  {
  }

  lemma RestartStep(l: Layout, i: nat)
    requires i < |l.restarts| && RestartOffset(l, i) < WORD
    ensures RestartBytes(l, i + 1) == RestartBytes(l, i) + EncodeFixed32(RestartOffset(l, i))
  {
    hide RestartOffset, EncodeFixed32;
    assert RestartOffset(l, i) % WORD == RestartOffset(l, i);
  }

  lemma {:induction false} VarintShort(n: nat, k: nat)
    requires k > 0 && n < Power128(k)
    ensures |EncodeVarint(n)| <= k
  {
    if n >= 128 { VarintShort(n / 128, k - 1); }
  }

  lemma EntryLength(shared: nat, p: Pair)
    requires shared <= |p.key| && |p.key| < WORD && |p.value| < WORD
    ensures |EntryBytes(shared, p)| <= 15 + |p.key| - shared + |p.value|
  {
    assert Power128(5) == 0x8_0000_0000 by { assert Power128(2) == 16384; assert Power128(4) == 16384 * 16384; }
    VarintShort(shared, 5);
    VarintShort(|p.key| - shared, 5);
    VarintShort(|p.value|, 5);
  }

  lemma EntryParts(before: Bytes, shared: nat, p: Pair)
    requires shared <= |p.key|
    ensures before + EncodeVarint(shared) + EncodeVarint(|p.key| - shared) + EncodeVarint(|p.value|) + p.key[shared..] +
            p.value ==
            before + EntryBytes(shared, p)
  {
  }

  lemma EntryKept(l: Layout, l': Layout, data: Bytes, data': Bytes, i: nat)
    requires |l.offsets| == |l.pairs| + 1 && |l'.offsets| == |l'.pairs| + 1 && i < |l.pairs| <= |l'.pairs|
    requires l'.pairs[..|l.pairs|] == l.pairs && l'.offsets[..|l.offsets|] == l.offsets
    requires data <= data' && EntryLaid(l, data, i)
    requires i in l'.restarts <==> i in l.restarts
    ensures EntryLaid(l', data', i)
  {
    assert l'.pairs[i] == l.pairs[i] && (i > 0 ==> l'.pairs[i - 1] == l.pairs[i - 1]);
    assert l'.offsets[i] == l.offsets[i] && l'.offsets[i + 1] == l.offsets[i + 1];
    var shared: nat :| SharedAt(l, i, shared) && l.offsets[i] + |EntryBytes(shared, l.pairs[i])| ==
      l.offsets[i + 1] <= |data| &&
      data[l.offsets[i]..l.offsets[i + 1]] == EntryBytes(shared, l.pairs[i]);
    assert SharedAt(l', i, shared);
    assert data'[l.offsets[i]..l.offsets[i + 1]] == data[l.offsets[i]..l.offsets[i + 1]];
  }

  /** Writing one more entry, perhaps as a new restart point. */
  lemma AddKeeps(was: Layout, l: Layout, data: Bytes, data': Bytes, shared: nat, p: Pair)
    requires Laid(was, data) && was.offsets[|was.pairs|] == |data| && shared <= |p.key|
    requires l.pairs == was.pairs && l.offsets == was.offsets
    requires l.restarts == was.restarts ||
             (l.restarts == was.restarts + [|was.pairs|] && was.pairs != [] && shared == 0)
    requires was.pairs == [] ==> shared == 0
    requires was.pairs != [] ==> var k := was.pairs[|was.pairs| - 1].key;
             shared <= |k| && k[..shared] == p.key[..shared] &&
               (l.restarts == was.restarts ==> Longest(k, p.key, shared))
    requires data' == data + EntryBytes(shared, p) && |data'| < WORD
    ensures Laid(l.(pairs := l.pairs + [p], offsets := l.offsets + [|data'|]), data')
  {
    hide EntryBytes;
    var l' := l.(pairs := l.pairs + [p], offsets := l.offsets + [|data'|]);
    var n := |was.pairs|;
    forall i | 0 <= i < |l'.pairs| ensures EntryLaid(l', data', i) {
      if i < n {
        assert EntryLaid(was, data, i);
        EntryKept(was, l', data, data', i);
      } else {
        assert n !in was.restarts || n == 0;
        assert SharedAt(l', n, shared);
        assert data'[|data|..|data'|] == EntryBytes(shared, p);
      }
    }
  }

  lemma NextRestart(l: Layout, interval: nat)
    requires RestartsEvery(l, interval, interval)
    ensures RestartsEvery(l.(restarts := l.restarts + [|l.pairs|]), interval, 0)
  {
    assert (|l.restarts| - 1) * interval + interval == |l.restarts| * interval;
  }

  lemma LayoutSize(l: Layout, data: Bytes)
    requires Laid(l, data)
    ensures |l.offsets| == |l.pairs| + 1 && |data| < WORD
  {
  }

  /** Restart points lie at entries already written or at the one being written. */
  lemma RestartsKept(was: Layout, l: Layout, l': Layout)
    requires |l.offsets| == |l.pairs| + 1 && l.offsets <= l'.offsets && l'.restarts == l.restarts
    requires |was.offsets| == |l.offsets| && forall r :: 0 <= r < |was.restarts| ==> was.restarts[r] < |was.offsets|
    requires l.restarts == was.restarts || l.restarts == was.restarts + [|l.pairs|]
    ensures forall r :: 0 <= r < |l.restarts| ==> RestartOffset(l', r) == RestartOffset(l, r)
  {
  }

  lemma RestartsFit(l: Layout, data: Bytes)
    requires Laid(l, data)
    ensures forall r :: 0 <= r < |l.restarts| ==> RestartOffset(l, r) <= |data| < WORD
  {
    forall r | 0 <= r < |l.restarts| ensures RestartOffset(l, r) <= |data| {
      if l.restarts[r] < |l.pairs| { OffsetsRise(l, data, l.restarts[r], |l.pairs|); }
    }
  }
}
