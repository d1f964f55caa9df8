/** The two-level iterator (table/two_level_iterator.cc): an index over blocks, some perhaps
    empty, behaves as one cursor over the concatenated blocks. */
module TwoLevelIterators {
  import opened InternalKeys
  import opened VersionReads
  import opened Cursors

  function Concat(blocks: seq<seq<Entry>>): seq<Entry> {
    if blocks == [] then [] else Concat(blocks[..|blocks| - 1]) + blocks[|blocks| - 1]
  }

  /** Position of the first entry of block `i` in the concatenation. */
  function Offset(blocks: seq<seq<Entry>>, i: nat): nat
    requires i <= |blocks|
  {
    |Concat(blocks[..i])|
  }

  /** Index keys separate the blocks: at or after every entry of their own block, before every
      entry of later ones. */
  ghost predicate Separates(seps: seq<InternalKey>, blocks: seq<seq<Entry>>) {
    && |seps| == |blocks|
    && (forall i :: 0 <= i < |blocks| ==> Sorted(blocks[i]))
    && (forall i, j :: 0 <= i < j < |seps| ==> Before(seps[i], seps[j]))
    && (forall i, e :: 0 <= i < |blocks| && e in blocks[i] ==> NotAfter(e.key, seps[i]))
    && (forall i, j, e :: 0 <= i < j < |blocks| && e in blocks[j] ==> Before(seps[i], e.key))
  }

  lemma {:induction false} ConcatAppend(a: seq<seq<Entry>>, b: seq<seq<Entry>>)
    ensures Concat(a + b) == Concat(a) + Concat(b)
  {
    if b == [] {
      assert a + b == a;
    } else {
      assert (a + b)[..|a + b| - 1] == a + b[..|b| - 1];
      ConcatAppend(a, b[..|b| - 1]);
    }
  }

  lemma ConcatSnoc(a: seq<seq<Entry>>, b: seq<Entry>)
    ensures Concat(a + [b]) == Concat(a) + b
  {
    assert (a + [b])[..|a|] == a;
  }

  lemma ConcatAt(blocks: seq<seq<Entry>>, i: nat)
    requires i < |blocks|
    ensures Offset(blocks, i + 1) == Offset(blocks, i) + |blocks[i]| <= |Concat(blocks)|
    ensures forall q :: 0 <= q < |blocks[i]| ==> Concat(blocks)[Offset(blocks, i) + q] == blocks[i][q]
  {
    hide Concat;
    assert blocks[..i + 1] == blocks[..i] + [blocks[i]];
    ConcatSnoc(blocks[..i], blocks[i]);
    assert blocks == blocks[..i + 1] + blocks[i + 1..];
    ConcatAppend(blocks[..i + 1], blocks[i + 1..]);
  }

  lemma OffsetEnds(blocks: seq<seq<Entry>>)
    ensures Offset(blocks, 0) == 0 && Offset(blocks, |blocks|) == |Concat(blocks)|
  {
    assert blocks[..|blocks|] == blocks;
  }

  lemma {:induction false} OffsetMono(blocks: seq<seq<Entry>>, i: nat, j: nat)
    requires i <= j <= |blocks|
    ensures Offset(blocks, i) <= Offset(blocks, j)
  {
    if i < j {
      OffsetMono(blocks, i, j - 1);
      ConcatAt(blocks, j - 1);
    }
  }

  /** The block of a position. */
  lemma {:induction false} Locate(blocks: seq<seq<Entry>>, m: nat, top: nat) returns (j: nat, q: nat)
    requires top <= |blocks| && m < Offset(blocks, top)
    ensures j < top && q < |blocks[j]| && m == Offset(blocks, j) + q
    ensures m < |Concat(blocks)| && Concat(blocks)[m] == blocks[j][q]
  {
    OffsetEnds(blocks);
    assert top > 0;
    ConcatAt(blocks, top - 1);
    if m >= Offset(blocks, top - 1) {
      j, q := top - 1, m - Offset(blocks, top - 1);
    } else {
      j, q := Locate(blocks, m, top - 1);
    }
  }

  /** The concatenation of separated blocks is sorted. */
  lemma ConcatSorted(seps: seq<InternalKey>, blocks: seq<seq<Entry>>)
    requires Separates(seps, blocks)
    ensures Sorted(Concat(blocks))
  {
    hide Concat, Offset;
    var all := Concat(blocks);
    OffsetEnds(blocks);
    forall m, n | 0 <= m < n < |all| ensures Before(all[m].key, all[n].key) {
      var i, p := Locate(blocks, m, |blocks|);
      var j, q := Locate(blocks, n, |blocks|);
      assert blocks[i][p] in blocks[i] && blocks[j][q] in blocks[j];
      if j < i { OffsetMono(blocks, j + 1, i); ConcatAt(blocks, j); }
    }
  }

  function SeekSep(seps: seq<InternalKey>, target: InternalKey): (i: nat)
    ensures i <= |seps|
    ensures forall j :: 0 <= j < i ==> Before(seps[j], target)
    ensures i < |seps| ==> !Before(seps[i], target)
  {
    if seps == [] || !Before(seps[0], target) then 0
    else
      var rest := SeekSep(seps[1..], target);
      assert forall j :: 1 <= j < rest + 1 ==> seps[j] == seps[1..][j - 1];
      rest + 1
  }

  /** Seeking in the index and then in the block finds the place in the concatenation. */
  lemma SeekInBlocks(seps: seq<InternalKey>, blocks: seq<seq<Entry>>, target: InternalKey)
    requires Separates(seps, blocks)
    ensures var i := SeekSep(seps, target);
      SeekIndex(Concat(blocks), target) ==
      if i < |blocks| then Offset(blocks, i) + SeekIndex(blocks[i], target) else |Concat(blocks)|
  {
    hide Concat, Offset, SeekIndex, SeekSep;
    var all, i := Concat(blocks), SeekSep(seps, target);
    OffsetEnds(blocks);
    var n := if i < |blocks| then Offset(blocks, i) + SeekIndex(blocks[i], target) else |all|;
    if i < |blocks| { ConcatAt(blocks, i); }
    forall m | 0 <= m < |all| ensures m < n <==> Before(all[m].key, target) {
      var j, q := Locate(blocks, m, |blocks|);
      assert blocks[j][q] in blocks[j];
      if j < i { OffsetMono(blocks, j + 1, i); ConcatAt(blocks, j); }
      if j > i { OffsetMono(blocks, i + 1, j); }
      if j == i {
        SeekSplits(blocks[i], target, q);
      }
    }
    SeekIs(all, target, n);
  }

  lemma SeekSplits(entries: seq<Entry>, target: InternalKey, q: nat)
    requires Sorted(entries) && q < |entries|
    ensures q < SeekIndex(entries, target) <==> Before(entries[q].key, target)
  {
    var k := SeekIndex(entries, target);
    if k < q { SortedIndex(entries, k, q); }
  }

  lemma SeekIs(entries: seq<Entry>, target: InternalKey, n: nat)
    requires n <= |entries| && forall m :: 0 <= m < |entries| ==> (m < n <==> Before(entries[m].key, target))
    ensures SeekIndex(entries, target) == n
  {
    var k := SeekIndex(entries, target);
    if k < |entries| { assert !Before(entries[k].key, target); }
    if n < |entries| { assert !Before(entries[n].key, target); }
  }

  class TwoLevelIterator {
    const seps: seq<InternalKey>
    const blocks: seq<seq<Entry>> // what the block function reads
    var index: nat
    var data: Option<Cursor>
    var dataBlock: nat // block that `data` reads

    ghost predicate Positioned()
      reads this
    {
      && Separates(seps, blocks) && index <= |blocks|
      && (data.Some? <==> index < |blocks|)
      && (data.Some? ==> dataBlock == index && data.value.entries == blocks[index])
    }

    ghost predicate Valid()
      reads this
    {
      Positioned() && (data.Some? ==> data.value.Valid())
    }

    /** The single cursor this iterator behaves as. */
    ghost function Abstract(): Cursor
      requires Valid()
      reads this
    {
      Cursor(Concat(blocks), if data.Some? then Offset(blocks, index) + data.value.pos else |Concat(blocks)|)
    }

    constructor (seps: seq<InternalKey>, blocks: seq<seq<Entry>>)
      requires Separates(seps, blocks)
      ensures Valid() && Abstract() == Cursor(Concat(blocks), |Concat(blocks)|) && this.blocks == blocks
      ensures this.seps == seps
    {
      this.seps, this.blocks, index, data, dataBlock := seps, blocks, |blocks|, None, 0;
    }

    method IsValid() returns (r: bool)
      requires Valid()
      ensures r == Abstract().Valid()
    {
      if data.Some? { ConcatAt(blocks, index); }
      r := data.Some? && data.value.Valid();
    }

    method Current() returns (e: Entry)
      requires Valid() && Abstract().Valid()
      ensures e == Abstract().entries[Abstract().pos]
    {
      ConcatAt(blocks, index);
      e := data.value.entries[data.value.pos];
    }

    /** Reads the block the index points at, unless it is the one already open. */
    method InitDataBlock()
      requires Separates(seps, blocks) && index <= |blocks|
      requires data.Some? ==> dataBlock < |blocks| && data.value.entries == blocks[dataBlock]
      modifies this`data, this`dataBlock
      ensures Positioned()
    {
      if index >= |blocks| {
        data := None;
      } else if data.Some? && dataBlock == index {
      } else {
        data, dataBlock := Some(Cursor(blocks[index], 0)), index;
      }
    }

    method SkipEmptyDataBlocksForward()
      requires Positioned() && (data.Some? && !data.value.Valid() ==> data.value.pos == |data.value.entries|)
      modifies this`index, this`data, this`dataBlock
      ensures Valid()
      ensures Abstract().pos ==
              (if old(data).Some? then Offset(blocks, old(index)) + old(data).value.pos else |Concat(blocks)|)
    {
      hide Separates, Concat, Offset;
      ghost var n := if data.Some? then Offset(blocks, index) + data.value.pos else |Concat(blocks)|;
      while data.None? || !data.value.Valid()
        invariant Positioned() && (data.Some? && !data.value.Valid() ==> data.value.pos == |data.value.entries|)
        invariant n == (if data.Some? then Offset(blocks, index) + data.value.pos else |Concat(blocks)|)
        decreases |blocks| - index, data.Some?
      {
        if index >= |blocks| {
          data := None;
          return;
        }
        ConcatAt(blocks, index);
        OffsetEnds(blocks);
        index := index + 1;
        InitDataBlock();
        if data.Some? {
          data := Some(data.value.SeekToFirst());
        }
      }
    }

    method SkipEmptyDataBlocksBackward(ghost n: nat)
      requires Positioned()
      requires data.Some? ==> if data.value.Valid() then n == Offset(blocks, index) + data.value.pos + 1
               else n == Offset(blocks, index)
      requires data.None? ==> n == 0
      modifies this`index, this`data, this`dataBlock
      ensures Valid()
      ensures Abstract().pos == (if n == 0 then |Concat(blocks)| else n - 1)
    {
      hide Separates, Concat, Offset;
      OffsetEnds(blocks);
      while data.None? || !data.value.Valid()
        invariant Positioned()
        invariant data.Some? ==> if data.value.Valid() then n == Offset(blocks, index) + data.value.pos + 1
                  else n == Offset(blocks, index)
        invariant data.None? ==> n == 0
        decreases if data.Some? then index + 1 else 0
      {
        if index >= |blocks| {
          data := None;
          return;
        }
        index := if index == 0 then |blocks| else index - 1;
        if index < |blocks| { ConcatAt(blocks, index); }
        InitDataBlock();
        if data.Some? {
          data := Some(data.value.SeekToLast());
        }
      }
    }

    method Seek(target: InternalKey)
      requires Valid()
      modifies this`index, this`data, this`dataBlock
      ensures Valid() && Abstract() == old(Abstract()).Seek(target)
    {
      hide Separates, Concat, Offset;
      SeekInBlocks(seps, blocks, target);
      SepCount(seps, blocks);
      index := SeekSep(seps, target);
      InitDataBlock();
      if data.Some? {
        data := Some(data.value.Seek(target));
      }
      SkipEmptyDataBlocksForward();
    }

    method SeekToFirst()
      requires Valid()
      modifies this`index, this`data, this`dataBlock
      ensures Valid() && Abstract() == old(Abstract()).SeekToFirst()
    {
      hide Separates, Concat, Offset;
      OffsetEnds(blocks);
      index := 0;
      InitDataBlock();
      if data.Some? {
        data := Some(data.value.SeekToFirst());
      }
      SkipEmptyDataBlocksForward();
    }

    method SeekToLast()
      requires Valid()
      modifies this`index, this`data, this`dataBlock
      ensures Valid() && Abstract() == old(Abstract()).SeekToLast()
    {
      hide Separates, Concat, Offset;
      OffsetEnds(blocks);
      index := if blocks == [] then 0 else |blocks| - 1;
      InitDataBlock();
      if data.Some? {
        data := Some(data.value.SeekToLast());
        ConcatAt(blocks, index);
      }
      SkipEmptyDataBlocksBackward(|Concat(blocks)|);
    }

    method Next()
      requires Valid() && Abstract().Valid()
      modifies this`index, this`data, this`dataBlock
      ensures Valid() && Abstract() == old(Abstract()).Next()
    {
      hide Separates, Concat, Offset;
      data := Some(data.value.Next());
      SkipEmptyDataBlocksForward();
    }

    method Prev()
      requires Valid() && Abstract().Valid()
      modifies this`index, this`data, this`dataBlock
      ensures Valid() && Abstract() == old(Abstract()).Prev()
    {
      hide Separates, Concat, Offset;
      ghost var n := Abstract().pos;
      data := Some(data.value.Prev());
      SkipEmptyDataBlocksBackward(n);
    }
  }

  lemma SepCount(seps: seq<InternalKey>, blocks: seq<seq<Entry>>)
    requires Separates(seps, blocks)
    ensures |seps| == |blocks|
  {
  }
}
