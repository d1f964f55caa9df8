/** The hash table of the cache (util/cache.cc, `HandleTable`): buckets of handles chained
    through `nextHash`. */
module HandleTables {
  import opened InternalKeys

  /** What identifies an entry: its key and the hash it was given with. */
  datatype Id = Id(key: string, hash: nat)

  function NextIn(c: seq<nat>, i: nat): Option<nat> {
    if i < |c| then Some(c[i]) else None
  }

  /** `first` and the `nextHash` links lead through exactly the handles of `c`. */
  ghost predicate Bucket(first: Option<nat>, nextHash: seq<Option<nat>>, c: seq<nat>) {
    && first == NextIn(c, 0)
    && (forall i :: 0 <= i < |c| ==> LinkAt(nextHash, c, i))
    && (forall i, j :: 0 <= i < j < |c| ==> c[i] != c[j])
  }

  ghost predicate LinkAt(nextHash: seq<Option<nat>>, c: seq<nat>, i: nat)
    requires i < |c|
  {
    c[i] < |nextHash| && nextHash[c[i]] == NextIn(c, i + 1)
  }

  lemma BucketFrame(first: Option<nat>, nextHash: seq<Option<nat>>, nextHash': seq<Option<nat>>, c: seq<nat>)
    requires Bucket(first, nextHash, c) && |nextHash| <= |nextHash'|
    requires forall h :: h in c && h < |nextHash| ==> nextHash'[h] == nextHash[h]
    ensures Bucket(first, nextHash', c)
  {
    forall i | 0 <= i < |c| ensures LinkAt(nextHash', c, i) { assert LinkAt(nextHash, c, i) && c[i] in c; }
  }

  lemma BucketSuffix(first: Option<nat>, nextHash: seq<Option<nat>>, c: seq<nat>, k: nat)
    requires Bucket(first, nextHash, c) && k <= |c|
    ensures Bucket(NextIn(c, k), nextHash, c[k..])
  {
    forall i | 0 <= i < |c| - k ensures LinkAt(nextHash, c[k..], i) { assert LinkAt(nextHash, c, k + i); }
  }

  lemma BucketCons(first: Option<nat>, nextHash: seq<Option<nat>>, c: seq<nat>, h: nat)
    requires Bucket(first, nextHash, c) && h !in c && h < |nextHash| && nextHash[h] == first
    ensures Bucket(Some(h), nextHash, [h] + c)
  {
    forall i | 0 <= i < |c| + 1 ensures LinkAt(nextHash, [h] + c, i) { assert i > 0 ==> LinkAt(nextHash, c, i - 1); }
  }

  // ---- storing through a slot ----

  /** A slot is the head of a bucket or the link of the handle before. */
  function StoreFirst(first: Option<nat>, c: seq<nat>, pos: nat, v: Option<nat>): Option<nat> {
    if pos == 0 then v else first
  }

  function StoreLink(nextHash: seq<Option<nat>>, c: seq<nat>, pos: nat, v: Option<nat>): seq<Option<nat>>
    requires pos <= |c| && (pos > 0 ==> c[pos - 1] < |nextHash|)
  {
    if pos == 0 then nextHash else nextHash[c[pos - 1] := v]
  }

  /** Storing a chain into the slot at `pos` replaces the rest of the bucket by it. */
  lemma SlotStored(first: Option<nat>, nextHash: seq<Option<nat>>, c: seq<nat>, pos: nat, v: Option<nat>,
                   rest: seq<nat>)
    requires Bucket(first, nextHash, c) && pos <= |c| && Bucket(v, nextHash, rest)
    requires forall h :: h in rest ==> h !in c[..pos]
    ensures pos > 0 ==> c[pos - 1] < |nextHash|
    ensures Bucket(StoreFirst(first, c, pos, v), StoreLink(nextHash, c, pos, v), c[..pos] + rest)
  {
    var d := c[..pos] + rest;
    if pos > 0 { assert LinkAt(nextHash, c, pos - 1) && c[..pos][pos - 1] in c[..pos]; }
    forall i | 0 <= i < |d| ensures LinkAt(StoreLink(nextHash, c, pos, v), d, i) {
      SlotLink(first, nextHash, c, pos, v, rest, i);
    }
    forall i, j | 0 <= i < j < |d| ensures d[i] != d[j] {
      if i < pos <= j { assert c[..pos][i] == d[i] && rest[j - pos] in rest; }
    }
  }

  /** Link `i` of the new chain. */
  lemma SlotLink(first: Option<nat>, nextHash: seq<Option<nat>>, c: seq<nat>, pos: nat, v: Option<nat>, rest: seq<nat>,
                 i: nat)
    requires Bucket(first, nextHash, c) && pos <= |c| && Bucket(v, nextHash, rest) && i < pos + |rest|
    requires forall h :: h in rest ==> h !in c[..pos]
    ensures pos > 0 ==> c[pos - 1] < |nextHash|
    ensures LinkAt(StoreLink(nextHash, c, pos, v), c[..pos] + rest, i)
  {
    hide Bucket;
    BucketLinks(first, nextHash, c);
    BucketLinks(v, nextHash, rest);
    if pos > 0 { assert LinkAt(nextHash, c, pos - 1) && c[..pos][pos - 1] in c[..pos]; }
    if i < pos {
      assert LinkAt(nextHash, c, i);
      assert i < pos - 1 ==> c[i] != c[pos - 1];
    } else {
      assert LinkAt(nextHash, rest, i - pos) && rest[i - pos] in rest;
    }
  }

  lemma BucketLinks(first: Option<nat>, nextHash: seq<Option<nat>>, c: seq<nat>)
    requires Bucket(first, nextHash, c)
    ensures first == NextIn(c, 0)
    ensures forall i :: 0 <= i < |c| ==> LinkAt(nextHash, c, i)
    ensures forall i, j :: 0 <= i < j < |c| ==> c[i] != c[j]
  {
    hide LinkAt;
  }

  // ---- the whole table ----

  /** Bucket `b` holds only handles whose hash selects it. */
  ghost predicate BucketOk(ids: seq<Id>, first: Option<nat>, nextHash: seq<Option<nat>>, c: seq<nat>, b: nat,
                           length: nat)
    requires length > 0
  {
    && Bucket(first, nextHash, c)
    && forall h :: h in c ==> h < |ids| && ids[h].hash % length == b
  }

  ghost predicate TableOk(ids: seq<Id>, list: seq<Option<nat>>, nextHash: seq<Option<nat>>, buckets: seq<seq<nat>>) {
    && |list| == |buckets| > 0 && |nextHash| == |ids|
    && forall b :: 0 <= b < |list| ==> BucketOk(ids, list[b], nextHash, buckets[b], b, |list|)
  }

  /** A handle is in the table if its bucket holds it. */
  ghost predicate InTable(ids: seq<Id>, buckets: seq<seq<nat>>, h: nat) {
    |buckets| > 0 && h < |ids| && h in buckets[ids[h].hash % |buckets|]
  }

  ghost predicate Holds(ids: seq<Id>, buckets: seq<seq<nat>>, contents: set<nat>) {
    forall h: nat :: h in contents <==> InTable(ids, buckets, h)
  }

  ghost predicate Unique(ids: seq<Id>, contents: set<nat>) {
    && (forall h :: h in contents ==> h < |ids|)
    && forall g, h :: g in contents && h in contents && ids[g] == ids[h] ==> g == h
  }

  /** Four, doubled any number of times. */
  predicate Doubled(n: nat) {
    n == 4 || (n > 4 && n % 2 == 0 && Doubled(n / 2))
  }

  lemma DoubledAgain(n: nat)
    requires Doubled(n)
    ensures n >= 4 && Doubled(2 * n)
  {
    assert 2 * n / 2 == n;
  }

  method NewLength(elems: nat) returns (n: nat)
    ensures Doubled(n) && elems <= n && (n == 4 || n < 2 * elems)
  {
    n := 4;
    while n < elems
      invariant Doubled(n) && (n == 4 || n < 2 * elems)
      decreases elems - n
    {
      DoubledAgain(n);
      n := n * 2;
    }
  }

  class HandleTable {
    var elems: nat
    var list: seq<Option<nat>>
    var nextHash: seq<Option<nat>>
    ghost var buckets: seq<seq<nat>>
    ghost var contents: set<nat>

    /** Every handle of the table lies in the bucket of its hash, and no two have the same id. */
    ghost predicate Linked(ids: seq<Id>)
      reads this
    {
      && TableOk(ids, list, nextHash, buckets) && Unique(ids, contents)
      && Holds(ids, buckets, contents)
      && elems == |contents|
    }

    /** The length is a power of two, so that its lower bits choose the bucket, and a bucket
        holds one handle on average at most. */
    ghost predicate Valid(ids: seq<Id>)
      reads this
    {
      Linked(ids) && Doubled(|list|) && elems <= |list|
    }

    constructor ()
      ensures Valid([]) && contents == {}
    {
      elems, list, nextHash := 0, [None, None, None, None], [];
      buckets, contents := [[], [], [], []], {};
    }

    /** Room for the link of a new handle. */
    method Allocate(ghost ids: seq<Id>, ghost id: Id)
      requires Valid(ids)
      modifies this`nextHash
      ensures Valid(ids + [id]) && contents == old(contents)
    {
      nextHash := nextHash + [None];
      AllocateKeeps(ids, id, list, old(nextHash), buckets, contents);
    }

    /** Finds the slot that holds the handle with this id, or the slot at the end of its
        bucket. */
    method FindPointer(ids: seq<Id>, id: Id) returns (b: nat, before: Option<nat>, found: Option<nat>, ghost pos: nat)
      requires Valid(ids)
      ensures |buckets| == |list| > 0 && b == id.hash % |list| && pos <= |buckets[b]|
      ensures found == NextIn(buckets[b], pos)
      ensures before == (if pos == 0 then None else Some(buckets[b][pos - 1]))
      ensures found.Some? ==> found.value in contents && ids[found.value] == id
      ensures found.None? ==> forall h :: h in contents ==> ids[h] != id
    {
      hide InTable, TableOk, Bucket, Unique, LinkAt;
      TableSize(ids, list, nextHash, buckets);
      b := id.hash % |list|;
      BucketFacts(ids, list, nextHash, buckets, b);
      ghost var c := buckets[b];
      before, found, pos := None, list[b], 0;
      while found.Some? && ids[found.value] != id
        invariant pos <= |c| && found == NextIn(c, pos) && before == (if pos == 0 then None else Some(c[pos - 1]))
        invariant forall i :: 0 <= i < pos ==> c[i] < |ids| && ids[c[i]] != id
        decreases |c| - pos
      {
        LinkFollows(nextHash, c, pos);
        before, found, pos := found, nextHash[found.value], pos + 1;
      }
      if found.Some? {
        HolderIn(ids, buckets, b, pos);
        assert InTable(ids, buckets, found.value);
      } else {
        NoHolder(ids, buckets, id);
      }
    }

    method Lookup(ids: seq<Id>, id: Id) returns (found: Option<nat>)
      requires Valid(ids)
      ensures found.Some? ==> found.value in contents && ids[found.value] == id
      ensures found.None? ==> forall h :: h in contents ==> ids[h] != id
    {
      var b, before;
      ghost var pos;
      b, before, found, pos := FindPointer(ids, id);
    }

    /** Takes out the handle with this id. */
    method Remove(ids: seq<Id>, id: Id) returns (result: Option<nat>)
      requires Valid(ids)
      modifies this
      ensures Valid(ids)
      ensures result.Some? ==>
              result.value in old(contents) && ids[result.value] == id && contents == old(contents) - {result.value}
      ensures result.None? ==> contents == old(contents) && forall h :: h in contents ==> ids[h] != id
    {
      hide TableOk, Holds, StoreFirst, StoreLink;
      var b, before;
      ghost var pos;
      b, before, result, pos := FindPointer(ids, id);
      if result.Some? {
        RemoveStores(ids, list, nextHash, buckets, contents, b, pos);
        ghost var c := buckets[b];
        assert contents == (contents - {result.value}) + {result.value};
        Store(b, before, nextHash[result.value], c, pos);
        elems := elems - 1;
        buckets := buckets[b := c[..pos] + c[pos + 1..]];
        contents := contents - {result.value};
      }
    }

    /** Puts a handle in, in place of one with the same id if there is one. */
    method Insert(ids: seq<Id>, h: nat) returns (replaced: Option<nat>)
      requires Valid(ids) && h < |ids| && h !in contents
      modifies this
      ensures Valid(ids)
      ensures contents == old(contents) - Gone(replaced) + {h}
      ensures |list| == old(|list|) || (replaced.None? && old(|contents|) == old(|list|) < |list|)
      ensures replaced.Some? ==> replaced.value in old(contents) && ids[replaced.value] == ids[h]
      ensures replaced.None? ==> forall g :: g in old(contents) ==> ids[g] != ids[h]
    {
      hide TableOk, Holds, Unique, Tail, Gone, StoreFirst, StoreLink;
      var b, before;
      ghost var pos;
      TableSize(ids, list, nextHash, buckets);
      b, before, replaced, pos := FindPointer(ids, ids[h]);
      InsertStores(ids, list, nextHash, buckets, contents, b, pos, h);
      ghost var c := buckets[b];
      nextHash := nextHash[h := if replaced.None? then None else nextHash[replaced.value]];
      Store(b, before, Some(h), c, pos);
      buckets := buckets[b := c[..pos] + ([h] + Tail(c, pos))];
      UniqueInsert(ids, contents, replaced, h);
      contents := contents - Gone(replaced) + {h};
      if replaced.None? {
        elems := elems + 1;
        if elems > |list| {
          Resize(ids);
        }
      }
    }

    /** Moves every handle to a new array of buckets, the length the smallest power of two
        that is at least 4 and at least the number of handles. */
    method Resize(ids: seq<Id>)
      requires Linked(ids)
      modifies this
      ensures Valid(ids) && contents == old(contents) && (|list| == 4 || |list| < 2 * elems)
    {
      hide TableOk, InTable, Bucket, BucketOk, Unique, Holds, MovedTo, Distinct, Doubled;
      TableSize(ids, list, nextHash, buckets);
      var newLength := NewLength(elems);
      var newList: seq<Option<nat>> := seq(newLength, _ => None);
      ghost var newBuckets: seq<seq<nat>> := seq(newLength, _ => []);
      EmptyTable(ids, newList, nextHash, newBuckets);
      var count := 0;
      ghost var moved: set<nat> := {};
      AllUnmoved(ids, list, nextHash, buckets);
      for i := 0 to |list|
        invariant list == old(list) && buckets == old(buckets) && contents == old(contents) && elems == old(elems)
        invariant newLength == |newList| > 0 && elems <= newLength && |nextHash| == |ids| && |list| == |buckets|
        invariant TableOk(ids, newList, nextHash, newBuckets) && Holds(ids, newBuckets, moved) && count == |moved|
        invariant forall j :: i <= j < |list| ==> BucketOk(ids, list[j], nextHash, buckets[j], j, |list|)
        invariant MovedTo(ids, buckets, moved, i, 0)
      {
        var h := list[i];
        ghost var p := 0;
        BucketStart(ids, list[i], nextHash, buckets[i], i, |list|);
        while h.Some?
          invariant list == old(list) && buckets == old(buckets) && contents == old(contents) && elems == old(elems)
          invariant newLength == |newList| > 0 && |nextHash| == |ids| && |list| == |buckets| && p <= |buckets[i]|
          invariant TableOk(ids, newList, nextHash, newBuckets) && Holds(ids, newBuckets, moved) && count == |moved|
          invariant forall j :: i < j < |list| ==> BucketOk(ids, list[j], nextHash, buckets[j], j, |list|)
          invariant h == NextIn(buckets[i], p) && BucketOk(ids, h, nextHash, buckets[i][p..], i, |list|)
          invariant MovedTo(ids, buckets, moved, i, p)
          decreases |buckets[i]| - p
        {
          MoveOne(ids, list, nextHash, buckets, i, p, newList, newBuckets, moved);
          var next := nextHash[h.value];
          var k := ids[h.value].hash % newLength;
          nextHash := nextHash[h.value := newList[k]];
          newList := newList[k := h];
          newBuckets := newBuckets[k := [h.value] + newBuckets[k]];
          moved := moved + {h.value};
          h, p := next, p + 1;
          count := count + 1;
        }
        BucketDone(ids, buckets, moved, i, p);
      }
      AllMoved(ids, old(list), old(nextHash), buckets, moved, contents);
      assert elems == count;
      list, buckets := newList, newBuckets;
    }

    /** `*ptr = v`. */
    method Store(b: nat, before: Option<nat>, v: Option<nat>, ghost c: seq<nat>, ghost pos: nat)
      requires b < |list| && pos <= |c| && (pos > 0 ==> c[pos - 1] < |nextHash|)
      requires before == if pos == 0 then None else Some(c[pos - 1])
      modifies this`list, this`nextHash
      ensures list == old(list)[b := StoreFirst(old(list)[b], c, pos, v)]
      ensures nextHash == StoreLink(old(nextHash), c, pos, v)
    {
      if before.None? {
        list := list[b := v];
      } else {
        nextHash := nextHash[before.value := v];
      }
    }
  }

  lemma LinkFollows(nextHash: seq<Option<nat>>, c: seq<nat>, i: nat)
    requires i < |c| && LinkAt(nextHash, c, i)
    ensures c[i] < |nextHash| && nextHash[c[i]] == NextIn(c, i + 1)
  {
  }

  lemma TableSize(ids: seq<Id>, list: seq<Option<nat>>, nextHash: seq<Option<nat>>, buckets: seq<seq<nat>>)
    requires TableOk(ids, list, nextHash, buckets)
    ensures |list| == |buckets| > 0 && |nextHash| == |ids|
  {
  }

  lemma BucketFacts(ids: seq<Id>, list: seq<Option<nat>>, nextHash: seq<Option<nat>>, buckets: seq<seq<nat>>, b: nat)
    requires TableOk(ids, list, nextHash, buckets) && b < |list|
    ensures list[b] == NextIn(buckets[b], 0)
    ensures forall i :: 0 <= i < |buckets[b]| ==>
            LinkAt(nextHash, buckets[b], i) && buckets[b][i] < |ids| && ids[buckets[b][i]].hash % |list| == b
  {
    hide Bucket, LinkAt;
    assert BucketOk(ids, list[b], nextHash, buckets[b], b, |list|);
    BucketLinks(list[b], nextHash, buckets[b]);
    assert forall i :: 0 <= i < |buckets[b]| ==> buckets[b][i] in buckets[b];
  }

  lemma HolderIn(ids: seq<Id>, buckets: seq<seq<nat>>, b: nat, pos: nat)
    requires b < |buckets| && pos < |buckets[b]| && buckets[b][pos] < |ids|
    requires ids[buckets[b][pos]].hash % |buckets| == b
    ensures InTable(ids, buckets, buckets[b][pos])
  {
  }

  lemma NoHolder(ids: seq<Id>, buckets: seq<seq<nat>>, id: Id)
    requires |buckets| > 0
    requires var c := buckets[id.hash % |buckets|]; forall i :: 0 <= i < |c| ==> c[i] < |ids| && ids[c[i]] != id
    ensures forall h: nat :: InTable(ids, buckets, h) ==> ids[h] != id
  {
  }

  lemma AllocateKeeps(ids: seq<Id>, id: Id, list: seq<Option<nat>>, nextHash: seq<Option<nat>>, buckets: seq<seq<nat>>,
                      contents: set<nat>)
    requires TableOk(ids, list, nextHash, buckets) && Unique(ids, contents)
    requires Holds(ids, buckets, contents)
    ensures TableOk(ids + [id], list, nextHash + [None], buckets) && Unique(ids + [id], contents)
    ensures Holds(ids + [id], buckets, contents)
  {
    forall b | 0 <= b < |list| ensures BucketOk(ids + [id], list[b], nextHash + [None], buckets[b], b, |list|) {
      assert BucketOk(ids, list[b], nextHash, buckets[b], b, |list|);
      BucketFrame(list[b], nextHash, nextHash + [None], buckets[b]);
    }
    forall h: nat ensures InTable(ids + [id], buckets, h) ==> h in contents {
      if InTable(ids + [id], buckets, h) {
        var b := (ids + [id])[h].hash % |buckets|;
        assert BucketOk(ids, list[b], nextHash, buckets[b], b, |list|);
        assert InTable(ids, buckets, h);
      }
    }
    forall h | h in contents ensures InTable(ids + [id], buckets, h) { assert InTable(ids, buckets, h); }
  }

  /** The table after a store through the slot at `pos` of bucket `b`. */
  lemma TableStored(ids: seq<Id>, list: seq<Option<nat>>, nextHash: seq<Option<nat>>, nextHash': seq<Option<nat>>,
                    buckets: seq<seq<nat>>, b: nat, pos: nat, v: Option<nat>, rest: seq<nat>)
    requires TableOk(ids, list, nextHash, buckets) && b < |list| && pos <= |buckets[b]|
    requires |nextHash'| == |nextHash|
    requires forall k, h :: 0 <= k < |buckets| && h in buckets[k] && h < |nextHash| ==> nextHash'[h] == nextHash[h]
    requires Bucket(v, nextHash', rest)
    requires forall h :: h in rest ==> h < |ids| && ids[h].hash % |list| == b && h !in buckets[b][..pos]
    ensures pos > 0 ==> buckets[b][pos - 1] < |nextHash'|
    ensures TableOk(ids, list[b := StoreFirst(list[b], buckets[b], pos, v)], StoreLink(nextHash', buckets[b], pos, v),
                    buckets[b := buckets[b][..pos] + rest])
  {
    hide Bucket;
    var c := buckets[b];
    assert BucketOk(ids, list[b], nextHash, c, b, |list|);
    BucketFrame(list[b], nextHash, nextHash', c);
    SlotStored(list[b], nextHash', c, pos, v, rest);
    var list', buckets', nextHash'' := list[b := StoreFirst(list[b], c, pos, v)], buckets[b := c[..pos] + rest],
      StoreLink(nextHash', c, pos, v);
    forall k | 0 <= k < |list| ensures BucketOk(ids, list'[k], nextHash'', buckets'[k], k, |list|) {
      if k != b {
        assert BucketOk(ids, list[k], nextHash, buckets[k], k, |list|);
        BucketFrame(list[k], nextHash, nextHash', buckets[k]);
        assert pos > 0 ==> c[pos - 1] in c;
        BucketFrame(list[k], nextHash', nextHash'', buckets[k]);
      }
    }
  }

  lemma RemoveStores(ids: seq<Id>, list: seq<Option<nat>>, nextHash: seq<Option<nat>>, buckets: seq<seq<nat>>,
                     contents: set<nat>, b: nat, pos: nat)
    requires TableOk(ids, list, nextHash, buckets) && b < |list| && pos < |buckets[b]|
    requires Holds(ids, buckets, contents)
    ensures pos > 0 ==> buckets[b][pos - 1] < |nextHash|
    ensures var c, e := buckets[b], buckets[b][pos];
      && e < |nextHash| && e in contents
      && var buckets' := buckets[b := c[..pos] + c[pos + 1..]];
         && TableOk(ids, list[b := StoreFirst(list[b], c, pos, nextHash[e])], StoreLink(nextHash, c, pos, nextHash[e]),
                    buckets')
         && Holds(ids, buckets', contents - {e})
  {
    hide Bucket;
    var c, e := buckets[b], buckets[b][pos];
    assert BucketOk(ids, list[b], nextHash, c, b, |list|);
    BucketLinks(list[b], nextHash, c);
    assert LinkAt(nextHash, c, pos) && e in c && InTable(ids, buckets, e);
    BucketSuffix(list[b], nextHash, c, pos + 1);
    AfterPos(c, pos);
    RestInBucket(ids, list[b], nextHash, c, b, |list|, c[pos + 1..]);
    assert Bucket(nextHash[e], nextHash, c[pos + 1..]);
    TableStored(ids, list, nextHash, nextHash, buckets, b, pos, nextHash[e], c[pos + 1..]);
    RemoveContents(ids, buckets, contents, b, pos);
  }

  lemma AfterPos(c: seq<nat>, pos: nat)
    requires pos < |c| && forall i, j :: 0 <= i < j < |c| ==> c[i] != c[j]
    ensures c[pos] !in c[..pos] && c[pos] !in c[pos + 1..]
    ensures forall h :: h in c[pos + 1..] ==> h in c && h !in c[..pos]
  {
    forall h | h in c[pos + 1..] ensures h in c && h !in c[..pos] && h != c[pos] {
      var i :| 0 <= i < |c[pos + 1..]| && c[pos + 1..][i] == h;
      assert c[pos + 1 + i] == h;
    }
  }

  lemma RestInBucket(ids: seq<Id>, first: Option<nat>, nextHash: seq<Option<nat>>, c: seq<nat>, b: nat, length: nat,
                     rest: seq<nat>)
    requires length > 0 && BucketOk(ids, first, nextHash, c, b, length) && forall h :: h in rest ==> h in c
    ensures forall h :: h in rest ==> h < |ids| && ids[h].hash % length == b
  {
    hide Bucket;
  }

  lemma RemoveContents(ids: seq<Id>, buckets: seq<seq<nat>>, contents: set<nat>, b: nat, pos: nat)
    requires b < |buckets| && pos < |buckets[b]| && Holds(ids, buckets, contents)
    requires var c := buckets[b]; c[pos] !in c[pos + 1..]
    requires var c := buckets[b]; c[pos] !in c[..pos] && c[pos] < |ids| && ids[c[pos]].hash % |buckets| == b
    ensures var c := buckets[b]; Holds(ids, buckets[b := c[..pos] + c[pos + 1..]], contents - {c[pos]})
  {
    var c, e := buckets[b], buckets[b][pos];
    var d, buckets' := c[..pos] + c[pos + 1..], buckets[b := c[..pos] + c[pos + 1..]];
    assert c == c[..pos] + [e] + c[pos + 1..];
    forall h ensures h in contents - {e} <==> InTable(ids, buckets', h) {
      assert h in d <==> h in c && h != e by {
        assert h in c[..pos] ==> h in c && h != e;
      }
      assert InTable(ids, buckets, h) <==> h in contents;
    }
  }

  // ---- insert ----

  function Gone(replaced: Option<nat>): set<nat> {
    if replaced.Some? then {replaced.value} else {}
  }

  lemma UniqueInsert(ids: seq<Id>, contents: set<nat>, replaced: Option<nat>, h: nat)
    requires Unique(ids, contents) && h < |ids| && h !in contents
    requires replaced.Some? ==> replaced.value in contents && ids[replaced.value] == ids[h]
    requires replaced.None? ==> forall g :: g in contents ==> ids[g] != ids[h]
    ensures Unique(ids, contents - Gone(replaced) + {h})
    ensures |contents - Gone(replaced) + {h}| == |contents| + (if replaced.Some? then 0 else 1)
  {
    assert contents == (contents - Gone(replaced)) + Gone(replaced);
  }

  /** What follows the handle at `pos` in its bucket. */
  function Tail(c: seq<nat>, pos: nat): seq<nat> {
    if pos < |c| then c[pos + 1..] else []
  }

  lemma InsertStores(ids: seq<Id>, list: seq<Option<nat>>, nextHash: seq<Option<nat>>, buckets: seq<seq<nat>>,
                     contents: set<nat>,
                     b: nat, pos: nat, h: nat)
    requires TableOk(ids, list, nextHash, buckets) && b < |list| && pos <= |buckets[b]|
    requires Holds(ids, buckets, contents)
    requires h < |ids| && h !in contents && b == ids[h].hash % |list|
    ensures pos > 0 ==> buckets[b][pos - 1] < |nextHash|
    ensures pos < |buckets[b]| ==> buckets[b][pos] < |nextHash|
    ensures var c := buckets[b];
      var nextHash' := nextHash[h := if pos == |c| then None else nextHash[c[pos]]];
      var buckets' := buckets[b := c[..pos] + ([h] + Tail(c, pos))];
      && TableOk(ids, list[b := StoreFirst(list[b], c, pos, Some(h))], StoreLink(nextHash', c, pos, Some(h)), buckets')
      && Holds(ids, buckets', contents - Gone(NextIn(c, pos)) + {h})
  {
    hide Bucket, LinkAt;
    var c := buckets[b];
    assert BucketOk(ids, list[b], nextHash, c, b, |list|);
    BucketFacts(ids, list, nextHash, buckets, b);
    BucketParts(list[b], nextHash, c, pos);
    forall k, g | 0 <= k < |buckets| && g in buckets[k] ensures g != h {
      assert BucketOk(ids, list[k], nextHash, buckets[k], k, |list|);
      assert InTable(ids, buckets, g);
    }
    var v := if pos == |c| then None else nextHash[c[pos]];
    var nextHash', tail := nextHash[h := v], Tail(c, pos);
    BucketFrame(v, nextHash, nextHash', tail);
    BucketCons(v, nextHash', tail, h);
    TableStored(ids, list, nextHash, nextHash', buckets, b, pos, Some(h), [h] + tail);
    InsertContents(ids, buckets, contents, b, pos, h);
  }

  lemma InsertContents(ids: seq<Id>, buckets: seq<seq<nat>>, contents: set<nat>, b: nat, pos: nat, h: nat)
    requires b < |buckets| && pos <= |buckets[b]| && h < |ids| && b == ids[h].hash % |buckets|
    requires forall g :: g in buckets[b] ==> g < |ids| && ids[g].hash % |buckets| == b
    requires Holds(ids, buckets, contents)
    requires pos < |buckets[b]| ==> buckets[b][pos] !in buckets[b][..pos] && buckets[b][pos] !in Tail(buckets[b], pos)
    ensures var c := buckets[b];
      Holds(ids, buckets[b := c[..pos] + ([h] + Tail(c, pos))], contents - Gone(NextIn(c, pos)) + {h})
  {
    var c := buckets[b];
    var tail := Tail(c, pos);
    var d := c[..pos] + ([h] + tail);
    assert c == c[..pos] + (if pos < |c| then [c[pos]] else []) + tail;
    forall g ensures g in d <==> g == h || (g in c && !(pos < |c| && g == c[pos])) {
      assert g in c <==> g in c[..pos] || (pos < |c| && g == c[pos]) || g in tail;
    }
    assert pos < |c| ==> c[pos] in c;
    var now := contents - Gone(NextIn(c, pos)) + {h};
    forall g: nat ensures g in now <==> InTable(ids, buckets[b := d], g) {
      assert InTable(ids, buckets, g) <==> g in contents;
    }
  }

  /** The parts of a bucket around position `pos` have nothing in common. */
  lemma BucketParts(first: Option<nat>, nextHash: seq<Option<nat>>, c: seq<nat>, pos: nat)
    requires Bucket(first, nextHash, c) && pos <= |c|
    ensures forall h :: h in Tail(c, pos) ==> h in c && h !in c[..pos] && (pos < |c| ==> h != c[pos])
    ensures pos < |c| ==> c[pos] !in c[..pos] && c[pos] < |nextHash|
    ensures Bucket(if pos == |c| then None else nextHash[c[pos]], nextHash, Tail(c, pos))
  {
    if pos < |c| {
      assert LinkAt(nextHash, c, pos);
      BucketSuffix(first, nextHash, c, pos + 1);
      forall h | h in Tail(c, pos) ensures h in c && h !in c[..pos] && h != c[pos] {
        var i :| 0 <= i < |c[pos + 1..]| && c[pos + 1..][i] == h;
        assert c[pos + 1 + i] == h;
      }
    }
  }

  // ---- resize ----

  /** Moved so far: the handles of the first `i` buckets and the first `p` of bucket `i`. */
  ghost predicate MovedTo(ids: seq<Id>, buckets: seq<seq<nat>>, moved: set<nat>, i: nat, p: nat) {
    forall h: nat :: h in moved <==>
      && InTable(ids, buckets, h)
      && (ids[h].hash % |buckets| < i ||
          (ids[h].hash % |buckets| == i && i < |buckets| && p <= |buckets[i]| && h in buckets[i][..p]))
  }

  lemma EmptyTable(ids: seq<Id>, list: seq<Option<nat>>, nextHash: seq<Option<nat>>, buckets: seq<seq<nat>>)
    requires |list| == |buckets| > 0 && |nextHash| == |ids|
    requires forall b :: 0 <= b < |list| ==> list[b] == None && buckets[b] == []
    ensures TableOk(ids, list, nextHash, buckets) && Holds(ids, buckets, {})
  {
  }

  lemma AllUnmoved(ids: seq<Id>, list: seq<Option<nat>>, nextHash: seq<Option<nat>>, buckets: seq<seq<nat>>)
    requires TableOk(ids, list, nextHash, buckets)
    ensures forall j :: 0 <= j < |list| ==> BucketOk(ids, list[j], nextHash, buckets[j], j, |list|)
    ensures MovedTo(ids, buckets, {}, 0, 0)
    ensures forall j :: 0 <= j < |buckets| ==> Distinct(buckets[j])
  {
    forall j | 0 <= j < |buckets| ensures Distinct(buckets[j]) {
      assert BucketOk(ids, list[j], nextHash, buckets[j], j, |list|);
    }
  }

  lemma BucketStart(ids: seq<Id>, first: Option<nat>, nextHash: seq<Option<nat>>, c: seq<nat>, b: nat, length: nat)
    requires length > 0 && BucketOk(ids, first, nextHash, c, b, length)
    ensures first == NextIn(c, 0) && BucketOk(ids, first, nextHash, c[0..], b, length)
  {
    assert c[0..] == c;
  }

  lemma BucketDone(ids: seq<Id>, buckets: seq<seq<nat>>, moved: set<nat>, i: nat, p: nat)
    requires MovedTo(ids, buckets, moved, i, p) && i < |buckets| && p == |buckets[i]|
    ensures MovedTo(ids, buckets, moved, i + 1, 0)
  {
    assert buckets[i][..p] == buckets[i];
  }

  lemma AllMoved(ids: seq<Id>, list: seq<Option<nat>>, nextHash: seq<Option<nat>>, buckets: seq<seq<nat>>,
                 moved: set<nat>, contents: set<nat>)
    requires |buckets| > 0 && MovedTo(ids, buckets, moved, |buckets|, 0)
    requires Holds(ids, buckets, contents)
    ensures moved == contents
  {
    forall h: nat ensures h in moved <==> h in contents { }
    assert moved == contents;
  }

  lemma MoveOne(ids: seq<Id>, list: seq<Option<nat>>, nextHash: seq<Option<nat>>, buckets: seq<seq<nat>>, i: nat,
                p: nat,
                newList: seq<Option<nat>>, newBuckets: seq<seq<nat>>, moved: set<nat>)
    requires |nextHash| == |ids| && |list| == |buckets| && i < |list| && p < |buckets[i]|
    requires TableOk(ids, newList, nextHash, newBuckets) && Holds(ids, newBuckets, moved)
    requires MovedTo(ids, buckets, moved, i, p)
    requires forall j :: i < j < |list| ==> BucketOk(ids, list[j], nextHash, buckets[j], j, |list|)
    requires BucketOk(ids, Some(buckets[i][p]), nextHash, buckets[i][p..], i, |list|) && Distinct(buckets[i])
    ensures var h := buckets[i][p];
      && h < |ids| && h !in moved && |newList| == |newBuckets| > 0
      && var k := ids[h].hash % |newList|;
         var nextHash', newBuckets' := nextHash[h := newList[k]], newBuckets[k := [h] + newBuckets[k]];
         && TableOk(ids, newList[k := Some(h)], nextHash', newBuckets') && Holds(ids, newBuckets', moved + {h})
         && MovedTo(ids, buckets, moved + {h}, i, p + 1)
         && (forall j :: i < j < |list| ==> BucketOk(ids, list[j], nextHash', buckets[j], j, |list|))
         && nextHash[h] == NextIn(buckets[i], p + 1)
         && BucketOk(ids, nextHash[h], nextHash', buckets[i][p + 1..], i, |list|)
  {
    hide Bucket;
    var c := buckets[i];
    var h := c[p];
    RestOfBucket(ids, nextHash, c, p, i, |list|);
    var k := ids[h].hash % |newList|;
    var nextHash' := nextHash[h := newList[k]];
    var d := newBuckets[k];
    assert !InTable(ids, newBuckets, h) by { NotYetMoved(ids, nextHash, buckets, moved, i, p, |list|); }
    forall b, g | 0 <= b < |newBuckets| && g in newBuckets[b] ensures g != h {
      assert BucketOk(ids, newList[b], nextHash, newBuckets[b], b, |newList|);
      assert InTable(ids, newBuckets, g);
    }
    assert BucketOk(ids, newList[k], nextHash, d, k, |newList|);
    BucketFrame(newList[k], nextHash, nextHash', d);
    BucketCons(newList[k], nextHash', d, h);
    TableStored(ids, newList, nextHash, nextHash', newBuckets, k, 0, Some(h), [h] + d);
    assert d[..0] + ([h] + d) == [h] + d;
    forall j | i < j < |list| ensures BucketOk(ids, list[j], nextHash', buckets[j], j, |list|) {
      assert BucketOk(ids, list[j], nextHash, buckets[j], j, |list|);
      BucketFrame(list[j], nextHash, nextHash', buckets[j]);
    }
    BucketFrame(nextHash[h], nextHash, nextHash', c[p + 1..]);
    MovedGrows(ids, newBuckets, moved, k, h);
    MovedOneMore(ids, buckets, moved, i, p);
  }

  lemma LinkOf(nextHash: seq<Option<nat>>, c: seq<nat>, i: nat)
    requires i < |c| && LinkAt(nextHash, c, i)
    ensures c[i] < |nextHash| && nextHash[c[i]] == NextIn(c, i + 1)
  {
  }

  lemma RestOfBucket(ids: seq<Id>, nextHash: seq<Option<nat>>, c: seq<nat>, p: nat, b: nat, length: nat)
    requires p < |c| && length > 0 && BucketOk(ids, Some(c[p]), nextHash, c[p..], b, length)
    ensures c[p] < |ids| && ids[c[p]].hash % length == b && c[p] < |nextHash| && c[p] !in c[p + 1..]
    ensures nextHash[c[p]] == NextIn(c, p + 1) && BucketOk(ids, nextHash[c[p]], nextHash, c[p + 1..], b, length)
  {
    hide Bucket, LinkAt;
    var rest, tail := c[p..], c[p + 1..];
    assert rest[0] == c[p] && rest[0] in rest && rest[1..] == tail;
    BucketLinks(Some(c[p]), nextHash, rest);
    LinkOf(nextHash, rest, 0);
    BucketSuffix(Some(c[p]), nextHash, rest, 1);
    forall h | h in tail ensures h != c[p] && h in rest {
      var i :| 0 <= i < |tail| && tail[i] == h;
      assert rest[i + 1] == h;
    }
  }

  lemma NotYetMoved(ids: seq<Id>, nextHash: seq<Option<nat>>, buckets: seq<seq<nat>>, moved: set<nat>, i: nat, p: nat,
                    length: nat)
    requires length == |buckets| && i < |buckets| && p < |buckets[i]| && buckets[i][p] < |ids|
    requires ids[buckets[i][p]].hash % |buckets| == i
    requires MovedTo(ids, buckets, moved, i, p) && Distinct(buckets[i])
    ensures buckets[i][p] !in moved
  {
  }

  ghost predicate Distinct(c: seq<nat>) {
    forall i, j :: 0 <= i < j < |c| ==> c[i] != c[j]
  }

  lemma MovedGrows(ids: seq<Id>, newBuckets: seq<seq<nat>>, moved: set<nat>, k: nat, h: nat)
    requires Holds(ids, newBuckets, moved) && |newBuckets| > 0 && h < |ids| && k == ids[h].hash % |newBuckets|
    ensures Holds(ids, newBuckets[k := [h] + newBuckets[k]], moved + {h})
  {
    var newBuckets' := newBuckets[k := [h] + newBuckets[k]];
    forall g: nat ensures g in moved + {h} <==> InTable(ids, newBuckets', g) {
      assert g in moved <==> InTable(ids, newBuckets, g);
    }
  }

  lemma MovedOneMore(ids: seq<Id>, buckets: seq<seq<nat>>, moved: set<nat>, i: nat, p: nat)
    requires MovedTo(ids, buckets, moved, i, p) && i < |buckets| && p < |buckets[i]|
    requires buckets[i][p] < |ids| && ids[buckets[i][p]].hash % |buckets| == i
    ensures MovedTo(ids, buckets, moved + {buckets[i][p]}, i, p + 1)
  {
    var c := buckets[i];
    assert c[..p + 1] == c[..p] + [c[p]];
    forall h: nat ensures h in moved + {c[p]} <==>
      InTable(ids, buckets, h) && (ids[h].hash % |buckets| < i || (ids[h].hash % |buckets| == i && h in c[..p + 1]))
    {
      assert h in moved <==>
        InTable(ids, buckets, h) && (ids[h].hash % |buckets| < i || (ids[h].hash % |buckets| == i && h in c[..p]));
    }
  }
}
