/** One shard of the block and table cache (util/cache.cc, `LRUCache`).

    A handle is an index; its fields are kept in sequences of the cache.  Handles 0 and 1 are
    the dummy heads of the LRU list and of the in-use list. */
module LruCaches {
  import opened InternalKeys
  import opened LruLists
  import opened HandleTables

  const LRU: nat := 0
  const IN_USE: nat := 1

  function IndexOf(c: seq<nat>, e: nat): (k: nat)
    requires e in c
    ensures k < |c| && c[k] == e
  {
    if c[0] == e then 0 else IndexOf(c[1..], e) + 1
  }

  /** The list without `e`, the others in the same order. */
  function Unlisted(c: seq<nat>, e: nat): seq<nat> {
    if e in c then Without(c, IndexOf(c, e)) else c
  }

  function SumCharges(charges: seq<nat>, c: seq<nat>): nat {
    if c == [] then 0
    else (if c[|c| - 1] < |charges| then charges[c[|c| - 1]] else 0) + SumCharges(charges, c[..|c| - 1])
  }

  lemma {:induction false} SumConcat(charges: seq<nat>, a: seq<nat>, b: seq<nat>)
    ensures SumCharges(charges, a + b) == SumCharges(charges, a) + SumCharges(charges, b)
  {
    if b == [] {
      assert a + b == a;
    } else {
      assert (a + b)[..|a + b| - 1] == a + b[..|b| - 1];
      SumConcat(charges, a, b[..|b| - 1]);
    }
  }

  lemma SumUnlisted(charges: seq<nat>, c: seq<nat>, e: nat)
    requires e < |charges|
    ensures SumCharges(charges, Unlisted(c, e)) == SumCharges(charges, c) - (if e in c then charges[e] else 0)
  {
    if e in c {
      var k := IndexOf(c, e);
      assert c == c[..k] + ([e] + c[k + 1..]);
      SumConcat(charges, c[..k], [e] + c[k + 1..]);
      SumConcat(charges, [e], c[k + 1..]);
      SumConcat(charges, c[..k], c[k + 1..]);
    }
  }

  lemma SumAppend(charges: seq<nat>, c: seq<nat>, e: nat)
    requires e < |charges|
    ensures SumCharges(charges, c + [e]) == SumCharges(charges, c) + charges[e]
  {
    assert (c + [e])[..|c|] == c;
  }

  lemma {:induction false} SumExtend(charges: seq<nat>, charge: nat, c: seq<nat>)
    requires forall h :: h in c ==> h < |charges|
    ensures SumCharges(charges + [charge], c) == SumCharges(charges, c)
  {
    if c != [] {
      var init := c[..|c| - 1];
      forall h | h in init ensures h < |charges| { assert h in c; }
      assert c[|c| - 1] in c;
      SumExtend(charges, charge, init);
    }
  }

  /** Both lists are rings over different handles. */
  ghost predicate Lists(next: seq<nat>, prev: seq<nat>, lru: seq<nat>, inUse: seq<nat>) {
    Ring(next, prev, LRU, lru) && Ring(next, prev, IN_USE, inUse) && Apart(LRU, lru, IN_USE, inUse)
  }

  ghost predicate Distinct(c: seq<nat>) {
    forall i, j :: 0 <= i < j < |c| ==> c[i] != c[j]
  }

  lemma UnlistedMembers(c: seq<nat>, e: nat)
    requires Distinct(c)
    ensures Distinct(Unlisted(c, e)) && forall h :: h in Unlisted(c, e) <==> h in c && h != e
  {
    if e in c { WithoutMembers(c, IndexOf(c, e)); }
  }

  lemma ListsDistinct(next: seq<nat>, prev: seq<nat>, lru: seq<nat>, inUse: seq<nat>)
    requires Lists(next, prev, lru, inUse)
    ensures Distinct(lru) && Distinct(inUse) && |next| == |prev| > 1
    ensures forall h :: h in lru || h in inUse ==> 2 <= h < |next|
    ensures forall h :: h in lru ==> h !in inUse
  {
    forall h | h in lru || h in inUse ensures 2 <= h < |next| {
      if h in lru { var i :| 0 <= i < |lru| && lru[i] == h; } else { var i :| 0 <= i < |inUse| && inUse[i] == h; }
    }
  }

  lemma RemoveKeepsLists(next: seq<nat>, prev: seq<nat>, lru: seq<nat>, inUse: seq<nat>, e: nat)
    requires Lists(next, prev, lru, inUse) && (e in lru || e in inUse)
    ensures e < |next| == |prev| && next[e] < |next| && prev[e] < |next|
    ensures Lists(RemoveNext(next, prev, e), RemovePrev(next, prev, e), Unlisted(lru, e), Unlisted(inUse, e))
  {
    hide Ring;
    ListsDistinct(next, prev, lru, inUse);
    UnlistedMembers(lru, e);
    UnlistedMembers(inUse, e);
    if e in lru {
      RemoveKeepsRing(next, prev, LRU, lru, IndexOf(lru, e));
      RemoveKeepsOther(next, prev, LRU, lru, IndexOf(lru, e), IN_USE, inUse);
    } else {
      RemoveKeepsRing(next, prev, IN_USE, inUse, IndexOf(inUse, e));
      RemoveKeepsOther(next, prev, IN_USE, inUse, IndexOf(inUse, e), LRU, lru);
    }
  }

  lemma AppendKeepsLists(next: seq<nat>, prev: seq<nat>, lru: seq<nat>, inUse: seq<nat>, e: nat)
    requires Lists(next, prev, lru, inUse) && e !in lru && e !in inUse && 2 <= e < |next|
    ensures |next| == |prev| > 1 && prev[LRU] < |next| && prev[IN_USE] < |next|
    ensures Lists(AppendNext(next, prev, LRU, e), AppendPrev(next, prev, LRU, e), lru + [e], inUse)
    ensures Lists(AppendNext(next, prev, IN_USE, e), AppendPrev(next, prev, IN_USE, e), lru, inUse + [e])
  {
    hide Ring;
    ListsDistinct(next, prev, lru, inUse);
    AppendKeepsRing(next, prev, LRU, lru, e);
    AppendKeepsOther(next, prev, LRU, lru, e, IN_USE, inUse);
    AppendKeepsRing(next, prev, IN_USE, inUse, e);
    AppendKeepsOther(next, prev, IN_USE, inUse, e, LRU, lru);
  }

  /** What the reference counts, the lists and the table say of a handle. */
  datatype View = View(inCache: bool, refs: nat, clients: nat, inLru: bool, inUse: bool, inTable: bool, deleted: bool)

  /** A settled handle: cached handles are those in the table; one that no client holds is on
      the LRU list, the others are on the in-use list; a handle is deleted exactly when its
      last reference is gone. */
  predicate Settled(v: View) {
    && v.refs == v.clients + (if v.inCache then 1 else 0)
    && v.inTable == v.inCache
    && v.inLru == (v.inCache && v.refs == 1)
    && v.inUse == (v.inCache && v.refs >= 2)
    && v.deleted == (v.refs == 0)
  }

  /** One reference is about to be dropped. */
  predicate Dropping(v: View) {
    && v.refs == v.clients + (if v.inCache then 1 else 0) + 1
    && v.inTable == v.inCache && !v.inLru && v.inUse == v.inCache && !v.deleted
  }

  /** Taken out of the table, still on its list and counted. */
  predicate Erasing(v: View) {
    && v.inCache && !v.inTable && v.refs == v.clients + 1 && !v.deleted
    && v.inLru == (v.clients == 0) && v.inUse == (v.clients > 0)
  }

  class LRUCache {
    const capacity: nat
    const table: HandleTable
    var usage: nat
    var ids: seq<Id>
    var charges: seq<nat>
    var inCache: seq<bool>
    var refs: seq<nat>
    var next: seq<nat>
    var prev: seq<nat>
    var deleted: set<nat> // handles passed to their deleter
    ghost var clients: seq<nat> // references held by clients
    ghost var lru: seq<nat> // least recently released first
    ghost var inUse: seq<nat>

    ghost predicate Shape()
      reads this, table
    {
      && |ids| == |charges| == |inCache| == |refs| == |next| == |prev| == |clients| && |ids| >= 2
      && table.Valid(ids) && Lists(next, prev, lru, inUse)
      && usage == SumCharges(charges, lru) + SumCharges(charges, inUse)
      && (forall h :: h in table.contents || h in deleted ==> 2 <= h < |ids|)
    }

    ghost function ViewOf(h: nat): View
      requires h < |inCache| && h < |refs| && h < |clients|
      reads this, table
    {
      View(inCache[h], refs[h], clients[h], h in lru, h in inUse, h in table.contents, h in deleted)
    }

    ghost predicate SettledBut(x: nat)
      requires |ids| == |inCache| == |refs| == |clients|
      reads this, table
    {
      forall h :: 2 <= h < |ids| && h != x ==> Settled(ViewOf(h))
    }

    ghost predicate Valid()
      reads this, table
    {
      Shape() && SettledBut(0)
    }

    constructor (capacity: nat)
      ensures Valid() && fresh(table) && this.capacity == capacity && lru == [] && inUse == [] && table.contents == {}
    {
      hide Lists, HandleTable.Valid;
      this.capacity, usage := capacity, 0;
      table := new HandleTable();
      var head := Id("", 0);
      ids, charges, inCache, refs, deleted := [head, head], [0, 0], [false, false], [0, 0], {};
      next, prev := [LRU, IN_USE], [LRU, IN_USE];
      clients, lru, inUse := [0, 0], [], [];
      new;
      table.Allocate([], head);
      assert [] + [head] == [head] && [head] + [head] == ids;
      table.Allocate([head], head);
      EmptyLists();
    }

    /** Total charge of the cached entries. */
    method TotalCharge() returns (r: nat)
      requires Valid()
      ensures r == SumCharges(charges, lru) + SumCharges(charges, inUse)
    {
      r := usage;
    }

    method LRU_Remove(e: nat)
      requires Lists(next, prev, lru, inUse) && (e in lru || e in inUse)
      modifies this`next, this`prev, this`lru, this`inUse
      ensures Lists(next, prev, lru, inUse) && |next| == |prev| == old(|next|)
      ensures lru == Unlisted(old(lru), e) && inUse == Unlisted(old(inUse), e)
    {
      RemoveKeepsLists(next, prev, lru, inUse, e);
      next, prev := RemoveNext(next, prev, e), RemovePrev(next, prev, e);
      lru, inUse := Unlisted(lru, e), Unlisted(inUse, e);
    }

    /** Makes `e` the newest entry of the list with this head. */
    method LRU_Append(head: nat, e: nat)
      requires Lists(next, prev, lru, inUse) && e !in lru && e !in inUse && 2 <= e < |next|
      requires (head == LRU || head == IN_USE)
      modifies this`next, this`prev, this`lru, this`inUse
      ensures Lists(next, prev, lru, inUse) && |next| == |prev| == old(|next|)
      ensures lru == (if head == LRU then old(lru) + [e] else old(lru))
      ensures inUse == (if head == IN_USE then old(inUse) + [e] else old(inUse))
    {
      AppendKeepsLists(next, prev, lru, inUse, e);
      next, prev := AppendNext(next, prev, head, e), AppendPrev(next, prev, head, e);
      if head == LRU { lru := lru + [e]; } else { inUse := inUse + [e]; }
    }

    /** A client gets one more reference. */
    method Ref(e: nat)
      requires Valid() && e in table.contents
      modifies this`next, this`prev, this`lru, this`inUse, this`refs, this`clients
      ensures Valid() && clients == old(clients)[e := old(clients[e]) + 1]
      ensures lru == Unlisted(old(lru), e)
      ensures inUse == (if e in old(lru) then old(inUse) + [e] else old(inUse))
    {
      hide Lists, SumCharges, Unlisted, HandleTable.Valid;
      ListsDistinct(next, prev, lru, inUse);
      assert Settled(ViewOf(e));
      UnlistedMembers(lru, e);
      UnlistedMembers(inUse, e);
      NothingUnlisted(lru, inUse, e);
      if refs[e] == 1 && inCache[e] {
        SumUnlisted(charges, lru, e);
        SumAppend(charges, inUse, e);
        LRU_Remove(e);
        LRU_Append(IN_USE, e);
      }
      refs := refs[e := refs[e] + 1];
      clients := clients[e := clients[e] + 1];
      AppendMembers(old(inUse), e);
      forall h | 2 <= h < |ids| ensures Settled(ViewOf(h)) { assert old(Settled(ViewOf(h))); }
    }

    /** Drops one reference: the last one deletes the entry, the last client's moves it to the
        LRU list as the newest. */
    method Unref(e: nat)
      requires Shape() && 2 <= e < |ids| && SettledBut(e) && Dropping(ViewOf(e))
      modifies this`next, this`prev, this`lru, this`inUse, this`refs, this`deleted
      ensures Valid()
      ensures deleted == old(deleted) + (if !inCache[e] && clients[e] == 0 then {e} else {})
      ensures lru == (if inCache[e] && clients[e] == 0 then old(lru) + [e] else old(lru))
      ensures inUse == (if inCache[e] && clients[e] == 0 then Unlisted(old(inUse), e) else old(inUse))
    {
      hide Lists, SumCharges, Unlisted, HandleTable.Valid;
      ListsDistinct(next, prev, lru, inUse);
      UnlistedMembers(inUse, e);
      NothingUnlisted(inUse, lru, e);
      refs := refs[e := refs[e] - 1];
      if refs[e] == 0 {
        deleted := deleted + {e};
      } else if inCache[e] && refs[e] == 1 {
        SumUnlisted(charges, inUse, e);
        SumAppend(charges, lru, e);
        LRU_Remove(e);
        LRU_Append(LRU, e);
      }
      AppendMembers(old(lru), e);
      forall h | 2 <= h < |ids| ensures Settled(ViewOf(h)) { assert h != e ==> old(Settled(ViewOf(h))); }
    }

    /** Finishes the removal of an entry that is already out of the table. */
    method FinishErase(e: Option<nat>) returns (erased: bool)
      requires e.None? ==> Valid()
      requires e.Some? ==> Shape() && 2 <= e.value < |ids| && SettledBut(e.value) && Erasing(ViewOf(e.value))
      modifies this`next, this`prev, this`lru, this`inUse, this`refs, this`deleted, this`inCache, this`usage
      ensures Valid() && erased == e.Some?
      ensures lru == UnlistedIf(old(lru), e) && inUse == UnlistedIf(old(inUse), e)
      ensures deleted == old(deleted) + (if e.Some? && clients[e.value] == 0 then {e.value} else {})
      ensures usage == old(usage) - (if e.Some? then charges[e.value] else 0)
      ensures inCache == (if e.Some? then old(inCache)[e.value := false] else old(inCache))
    {
      hide Lists, SumCharges, Unlisted, HandleTable.Valid;
      if e.Some? {
        ghost var h := e.value;
        ListsDistinct(next, prev, lru, inUse);
        UnlistedMembers(lru, h);
        UnlistedMembers(inUse, h);
        SumUnlisted(charges, lru, h);
        SumUnlisted(charges, inUse, h);
        LRU_Remove(e.value);
        inCache := inCache[e.value := false];
        usage := usage - charges[e.value];
        forall g | 2 <= g < |ids| && g != h ensures Settled(ViewOf(g)) { assert old(Settled(ViewOf(g))); }
        Unref(e.value);
      }
      erased := e.Some?;
    }

    /** A cached entry with this id, one reference for the caller added; None if there is none. */
    method Lookup(id: Id) returns (e: Option<nat>)
      requires Valid()
      modifies this`next, this`prev, this`lru, this`inUse, this`refs, this`clients
      ensures Valid()
      ensures e.Some? ==>
        && e.value in table.contents && ids[e.value] == id
        && clients == old(clients)[e.value := old(clients[e.value]) + 1]
        && lru == Unlisted(old(lru), e.value)
      ensures e.None? ==>
              (forall h :: h in table.contents ==> ids[h] != id) && clients == old(clients) && lru == old(lru)
    {
      e := table.Lookup(ids, id);
      if e.Some? {
        Ref(e.value);
      }
    }

    /** A client gives a reference back. */
    method Release(e: nat)
      requires Valid() && 2 <= e < |ids| && clients[e] > 0
      modifies this`next, this`prev, this`lru, this`inUse, this`refs, this`deleted, this`clients
      ensures Valid() && clients == old(clients)[e := old(clients[e]) - 1]
      ensures deleted == old(deleted) + (if !inCache[e] && old(clients[e]) == 1 then {e} else {})
      ensures lru == (if inCache[e] && old(clients[e]) == 1 then old(lru) + [e] else old(lru))
    {
      assert Settled(ViewOf(e));
      clients := clients[e := clients[e] - 1];
      forall g | 2 <= g < |ids| && g != e ensures Settled(ViewOf(g)) { assert old(Settled(ViewOf(g))); }
      Unref(e);
    }

    /** Takes the entry with this id out of the cache; clients that hold it keep it. */
    method Erase(id: Id) returns (ghost removed: Option<nat>)
      requires Valid()
      modifies this`next, this`prev, this`lru, this`inUse, this`refs, this`deleted, this`inCache, this`usage, table
      ensures Valid()
      ensures removed.Some? ==> removed.value in old(table.contents) && ids[removed.value] == id
      ensures removed.None? ==> forall h :: h in old(table.contents) ==> ids[h] != id
      ensures table.contents == old(table.contents) - Gone(removed)
      ensures deleted == old(deleted) + (if removed.Some? && clients[removed.value] == 0 then {removed.value} else {})
      ensures lru == UnlistedIf(old(lru), removed)
    {
      hide Lists, SumCharges, Unlisted, HandleTable.Valid;
      var e := table.Remove(ids, id);
      removed := e;
      if e.Some? { assert old(Settled(ViewOf(e.value))); }
      forall g | 2 <= g < |ids| && e != Some(g) ensures Settled(ViewOf(g)) { assert old(Settled(ViewOf(g))); }
      var erased := FinishErase(e);
    }

    /** Evicts the entry released longest ago. */
    method EvictOldest() returns (ghost e: nat)
      requires Valid() && |next| > 0 && next[LRU] != LRU
      modifies this`next, this`prev, this`lru, this`inUse, this`refs, this`deleted, this`inCache, this`usage, table
      ensures Valid() && old(lru) == [e] + lru && inUse == old(inUse) && e < |charges|
      ensures deleted == old(deleted) + {e} && table.contents == old(table.contents) - {e}
      ensures usage == old(usage) - charges[e]
    {
      hide SumCharges, Unlisted, HandleTable.Valid, Unique;
      ListsDistinct(next, prev, lru, inUse);
      HeadLinks(next, prev, LRU, lru);
      var oldest := next[LRU];
      e := oldest;
      assert lru[0] == e && lru == [e] + lru[1..] && e in lru;
      assert Settled(ViewOf(e));
      UniqueIn(table, ids);
      var removed := table.Remove(ids, ids[oldest]);
      OnlyHolder(ids, old(table.contents), e, removed);
      forall g | 2 <= g < |ids| && g != e ensures Settled(ViewOf(g)) { assert old(Settled(ViewOf(g))); }
      UnlistedFirst(lru, inUse, e);
      var erased := FinishErase(removed);
      assert erased;
    }

    /** A new handle, not cached, with one reference for the caller. */
    method Allocate(id: Id, charge: nat)
      requires Valid()
      modifies this, table
      ensures Valid() && ids == old(ids) + [id] && charges == old(charges) + [charge]
      ensures inCache == old(inCache) + [false] && refs == old(refs) + [1] && clients == old(clients) + [1]
      ensures lru == old(lru) && inUse == old(inUse) && usage == old(usage) && deleted == old(deleted)
      ensures table.contents == old(table.contents)
    {
      hide Lists, SumCharges, HandleTable.Valid;
      ListsDistinct(next, prev, lru, inUse);
      SumExtend(charges, charge, lru);
      SumExtend(charges, charge, inUse);
      ListsExtend(next, prev, lru, inUse);
      table.Allocate(ids, id);
      ids, charges, inCache, refs := ids + [id], charges + [charge], inCache + [false], refs + [1];
      next, prev := next + [0], prev + [0];
      clients := clients + [1];
      forall g | 2 <= g < |ids| ensures Settled(ViewOf(g)) { assert g < old(|ids|) ==> old(Settled(ViewOf(g))); }
    }

    /** The entry becomes a cached one, in place of one with the same id. */
    method AddToCache(e: nat) returns (ghost replaced: Option<nat>)
      requires Valid() && 2 <= e < |ids| && !inCache[e] && clients[e] == 1
      modifies this`next, this`prev, this`lru, this`inUse, this`refs, this`deleted, this`inCache, this`usage, table
      ensures Valid() && inCache[e]
      ensures replaced.Some? ==> replaced.value in old(table.contents) && ids[replaced.value] == ids[e]
      ensures replaced.None? ==> forall h :: h in old(table.contents) ==> ids[h] != ids[e]
      ensures lru == UnlistedIf(old(lru), replaced)
      ensures table.contents == old(table.contents) - Gone(replaced) + {e}
      ensures deleted == old(deleted) + (if replaced.Some? && clients[replaced.value] == 0 then Gone(replaced) else {})
    {
      hide Lists, SumCharges, Unlisted, HandleTable.Valid;
      assert Settled(ViewOf(e));
      refs := refs[e := refs[e] + 1];
      inCache := inCache[e := true];
      ListsDistinct(next, prev, lru, inUse);
      SumAppend(charges, inUse, e);
      AppendMembers(inUse, e);
      LRU_Append(IN_USE, e);
      usage := usage + charges[e];
      var old' := table.Insert(ids, e);
      replaced := old';
      forall g | 2 <= g < |ids| && old' != Some(g) ensures Settled(ViewOf(g)) {
        assert g != e ==> old(Settled(ViewOf(g)));
      }
      if old'.Some? { assert old(Settled(ViewOf(old'.value))); }
      var erased := FinishErase(old');
    }

    /** Evicts entries that no client holds while the cache is too full. */
    method EvictWhileFull() returns (ghost evicted: nat)
      requires Valid()
      modifies this`next, this`prev, this`lru, this`inUse, this`refs, this`deleted, this`inCache, this`usage, table
      ensures Valid() && inUse == old(inUse) && evicted <= |old(lru)| && lru == old(lru)[evicted..]
      ensures table.contents == old(table.contents) - Set(old(lru)[..evicted])
      ensures deleted == old(deleted) + Set(old(lru)[..evicted])
      ensures usage <= capacity || lru == []
      ensures evicted > 0 ==> old(lru)[evicted - 1] < |charges| && usage + charges[old(lru)[evicted - 1]] > capacity
    {
      hide Valid;
      ghost var idle := lru;
      evicted := 0;
      assert lru[0..] == lru && Set(lru[..0]) == {};
      RingHead();
      while usage > capacity && next[LRU] != LRU
        invariant Valid() && |next| > 0 && (next[LRU] == LRU <==> lru == []) && inUse == old(inUse)
        invariant evicted <= |idle| && lru == idle[evicted..]
        invariant table.contents == old(table.contents) - Set(idle[..evicted])
        invariant deleted == old(deleted) + Set(idle[..evicted])
        invariant evicted > 0 ==> idle[evicted - 1] < |charges| && usage + charges[idle[evicted - 1]] > capacity
        decreases |lru|
      {
        ghost var gone := EvictOldest();
        assert idle[..evicted + 1] == idle[..evicted] + [idle[evicted]];
        evicted := evicted + 1;
        RingHead();
      }
    }

    /** Drops every entry that no client holds. */
    method Prune()
      requires Valid()
      modifies this`next, this`prev, this`lru, this`inUse, this`refs, this`deleted, this`inCache, this`usage, table
      ensures Valid() && lru == [] && inUse == old(inUse)
      ensures table.contents == old(table.contents) - Set(old(lru)) && deleted == old(deleted) + Set(old(lru))
    {
      hide Valid;
      ghost var idle := lru;
      ghost var pruned := 0;
      assert lru[0..] == lru && Set(lru[..0]) == {};
      RingHead();
      while next[LRU] != LRU
        invariant Valid() && |next| > 0 && (next[LRU] == LRU <==> lru == []) && inUse == old(inUse)
        invariant pruned <= |idle| && lru == idle[pruned..]
        invariant table.contents == old(table.contents) - Set(idle[..pruned])
        invariant deleted == old(deleted) + Set(idle[..pruned])
        decreases |lru|
      {
        ghost var gone := EvictOldest();
        assert idle[..pruned + 1] == idle[..pruned] + [idle[pruned]];
        pruned := pruned + 1;
        RingHead();
      }
      assert idle[..pruned] == idle;
    }

    lemma RingHead()
      requires Valid()
      ensures |next| > 0 && (next[LRU] == LRU <==> lru == [])
    {
      HeadOfEmpty(next, prev, lru, inUse);
    }

    /** Adds an entry and returns it with one reference for the caller.  With a capacity it
        replaces an entry with the same id, and then evicts entries that no client holds, the
        one released longest ago first, while the cache is too full.  `replaced` is the old
        entry; `idle` the LRU list before eviction; the first `evicted` of it were evicted. */
    method Insert(id: Id, charge: nat)
      returns (e: nat, ghost replaced: Option<nat>, ghost idle: seq<nat>, ghost evicted: nat)
      requires Valid()
      modifies this, table
      ensures Valid() && e == |old(ids)| && ids == old(ids) + [id] && charges == old(charges) + [charge]
      ensures clients == old(clients) + [1]
      ensures inCache[e] == (capacity > 0)
      ensures replaced.Some? ==> replaced.value in old(table.contents) && ids[replaced.value] == id
      ensures capacity == 0 ==> replaced == None
      ensures replaced.None? && capacity > 0 ==> forall h :: h in old(table.contents) ==> ids[h] != id
      ensures idle == UnlistedIf(old(lru), replaced) && evicted <= |idle| && lru == idle[evicted..]
      ensures table.contents == old(table.contents) - Gone(replaced) +
              (if capacity > 0 then {e} else {}) - Set(idle[..evicted])
      ensures deleted == old(deleted) +
              (if replaced.Some? && clients[replaced.value] == 0 then Gone(replaced) else {}) + Set(idle[..evicted])
      ensures usage <= capacity || lru == []
      ensures evicted > 0 ==> idle[evicted - 1] < |charges| && usage + charges[idle[evicted - 1]] > capacity
    {
      hide Lists, SumCharges, Unlisted, HandleTable.Valid, Set, Gone;
      e := |ids|;
      Allocate(id, charge);
      assert Settled(ViewOf(e));
      replaced := None;
      GoneNothing();
      if capacity > 0 {
        replaced := AddToCache(e);
      }
      assert Settled(ViewOf(e));
      idle := lru;
      evicted := EvictWhileFull();
      NotInPrefix(idle, evicted, e);
      StillHeld(e);
    }

    /** An entry that a client holds and that was cached is still in the table. */
    lemma StillHeld(e: nat)
      requires Valid() && 2 <= e < |ids|
      ensures inCache[e] <==> e in table.contents
    {
      assert Settled(ViewOf(e));
    }
  }

  /** A handle on one list is not on the other. */
  lemma NothingUnlisted(c: seq<nat>, d: seq<nat>, e: nat)
    ensures e !in d ==> Unlisted(d, e) == d
    ensures e !in c ==> Unlisted(c, e) == c
  {
  }

  lemma AppendMembers(c: seq<nat>, e: nat)
    ensures forall h :: h in c + [e] <==> h in c || h == e
  {
  }

  lemma NotInPrefix(c: seq<nat>, k: nat, e: nat)
    requires k <= |c|
    ensures e !in c ==> e !in Set(c[..k])
  {
  }

  lemma GoneNothing()
    ensures Gone(None) == {}
  {
  }

  function UnlistedIf(c: seq<nat>, e: Option<nat>): seq<nat> {
    if e.Some? then Unlisted(c, e.value) else c
  }

  ghost function Set(c: seq<nat>): set<nat> {
    set h | h in c
  }

  lemma EmptyLists()
    ensures Lists([LRU, IN_USE], [LRU, IN_USE], [], [])
  {
  }

  lemma ListsExtend(next: seq<nat>, prev: seq<nat>, lru: seq<nat>, inUse: seq<nat>)
    requires Lists(next, prev, lru, inUse)
    ensures Lists(next + [0], prev + [0], lru, inUse)
  {
    RingExtend(next, prev, LRU, lru);
    RingExtend(next, prev, IN_USE, inUse);
  }

  lemma UnlistedFirst(c: seq<nat>, d: seq<nat>, e: nat)
    requires c != [] && c[0] == e && e !in d
    ensures Unlisted(c, e) == c[1..] && Unlisted(d, e) == d
  {
  }

  lemma HeadOfEmpty(next: seq<nat>, prev: seq<nat>, lru: seq<nat>, inUse: seq<nat>)
    requires Lists(next, prev, lru, inUse)
    ensures |next| > 0 && (next[LRU] == LRU <==> lru == [])
  {
    HeadLinks(next, prev, LRU, lru);
  }

  lemma UniqueIn(table: HandleTable, ids: seq<Id>)
    requires table.Valid(ids)
    ensures Unique(ids, table.contents)
  {
  }

  /** No two handles in the table have the same id. */
  lemma OnlyHolder(ids: seq<Id>, contents: set<nat>, e: nat, found: Option<nat>)
    requires Unique(ids, contents) && e in contents
    requires found.Some? ==> found.value in contents && ids[found.value] == ids[e]
    requires found.None? ==> forall h :: h in contents ==> ids[h] != ids[e]
    ensures found == Some(e)
  {
  }
}
