/** The list of snapshots (db/snapshot.h): a circular doubly linked list, oldest first, behind the
    snapshots of the store's states. */
module SnapshotLists {
  import opened InternalKeys
  import opened LruLists
  import opened StoreState
  import opened StoreSteps

  const HEAD: nat := 0

  /** The sequence numbers of these nodes. */
  function NumbersOf(sequences: seq<nat>, list: seq<nat>): (r: seq<nat>)
    requires forall i :: 0 <= i < |list| ==> list[i] < |sequences|
    ensures |r| == |list| && forall i :: 0 <= i < |list| ==> r[i] == sequences[list[i]]
  {
    seq(|list|, i requires 0 <= i < |list| => sequences[list[i]])
  }

  class SnapshotList {
    var sequences: seq<nat>
    var next: seq<nat>
    var prev: seq<nat>
    ghost var list: seq<nat> // the nodes, oldest first

    ghost predicate Valid()
      reads this
    {
      && |sequences| == |next| && Ring(next, prev, HEAD, list)
      && forall i :: 0 <= i < |list| ==> list[i] < |sequences|
    }

    ghost function Numbers(): seq<nat>
      requires Valid()
      reads this
    {
      NumbersOf(sequences, list)
    }

    constructor ()
      ensures Valid() && Numbers() == []
    {
      sequences, next, prev, list := [0], [HEAD], [HEAD], [];
    }

    predicate Empty()
      requires |next| > 0
      reads this
    {
      next[HEAD] == HEAD
    }

    /** Appends a snapshot: four stores make it the newest of the ring. */
    method New(sequence: nat) returns (snapshot: nat)
      requires Valid()
      modifies this
      ensures Valid() && Numbers() == old(Numbers()) + [sequence]
      ensures list == old(list) + [snapshot] && snapshot !in old(list)
    {
      hide Ring;
      RingBounds(next, prev, list);
      snapshot := |next|;
      RingExtend(next, prev, HEAD, list);
      sequences, next, prev := sequences + [sequence], next + [0], prev + [0];
      AppendKeepsRing(next, prev, HEAD, list, snapshot);
      next, prev := AppendNext(next, prev, HEAD, snapshot), AppendPrev(next, prev, HEAD, snapshot);
      list := list + [snapshot];
      assert Numbers() == old(Numbers()) + [sequence];
    }

    /** Takes a snapshot out: two stores close the ring over it. */
    method Delete(snapshot: nat, ghost i: nat)
      requires Valid() && i < |list| && list[i] == snapshot
      modifies this
      ensures Valid() && Numbers() == old(Numbers()[..i] + Numbers()[i + 1..]) && list == Without(old(list), i)
    {
      hide Ring;
      RingBounds(next, prev, list);
      RemoveKeepsRing(next, prev, HEAD, list, i);
      next, prev := RemoveNext(next, prev, snapshot), RemovePrev(next, prev, snapshot);
      list := Without(list, i);
      assert Numbers() == old(Numbers()[..i] + Numbers()[i + 1..]);
    }

    /** The smallest snapshot that a compaction keeps: the oldest of the list, or the last sequence
        number if there is none. */
    method Smallest(r: Ram) returns (smallest: nat)
      requires Valid() && Numbers() == r.snapshots
      ensures smallest == SmallestSnapshot(r)
    {
      HeadLinks(next, prev, HEAD, list);
      smallest := if Empty() then r.last else sequences[next[HEAD]];
    }

    /** `GetSnapshot` is a step of the store, and the list follows it. */
    method Take(s: Store) returns (snapshot: nat, ghost s': Store)
      requires Valid() && s.ram.Some? && Numbers() == s.ram.value.snapshots
      modifies this
      ensures Valid() && TakeSnapshotStep(s, s') && Numbers() == s'.ram.value.snapshots
      ensures list == old(list) + [snapshot]
    {
      snapshot := New(s.ram.value.last);
      s' := s.(ram := Some(s.ram.value.(snapshots := s.ram.value.snapshots + [s.ram.value.last])));
    }

    /** `ReleaseSnapshot` likewise, for any snapshot in the list. */
    method Release(s: Store, snapshot: nat) returns (ghost i: nat, ghost s': Store)
      requires Valid() && s.ram.Some? && Numbers() == s.ram.value.snapshots && snapshot in list
      modifies this
      ensures Valid() && ReleaseSnapshotStep(s, s', i) && Numbers() == s'.ram.value.snapshots
      ensures i < |old(list)| && old(list)[i] == snapshot && list == Without(old(list), i)
    {
      i :| 0 <= i < |list| && list[i] == snapshot;
      ghost var sn := s.ram.value.snapshots;
      Delete(snapshot, i);
      s' := s.(ram := Some(s.ram.value.(snapshots := sn[..i] + sn[i + 1..])));
    }
  }

  lemma RingBounds(next: seq<nat>, prev: seq<nat>, list: seq<nat>)
    requires Ring(next, prev, HEAD, list)
    ensures |next| == |prev| > 0 && |next| !in list && HEAD !in list
    ensures forall i :: 0 <= i < |list| ==> list[i] < |next|
  {
  }
}
