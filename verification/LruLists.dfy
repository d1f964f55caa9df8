/** Circular doubly linked lists of cache handles (util/cache.cc, `LRU_Remove` and
    `LRU_Append`).  A handle is an index; `next` and `prev` hold the links of all handles.
    The first handles are the dummy heads of the lists. */
module LruLists {

  /** Position `i` on the way round: the head, then the members, then the head again. */
  function At(head: nat, c: seq<nat>, i: nat): nat
    requires i <= |c| + 1
  {
    if 1 <= i <= |c| then c[i - 1] else head
  }

  /** Following `next` from the head visits the members in order and comes back; `prev` goes
      the other way. */
  ghost predicate Ring(next: seq<nat>, prev: seq<nat>, head: nat, c: seq<nat>) {
    && |next| == |prev| && head < |next| && head !in c
    && (forall i :: 0 <= i < |c| ==> c[i] < |next|)
    && (forall i, j :: 0 <= i < j < |c| ==> c[i] != c[j])
    && (forall i :: 0 <= i <= |c| ==> Linked(next, prev, At(head, c, i), At(head, c, i + 1)))
  }

  ghost predicate Linked(next: seq<nat>, prev: seq<nat>, a: nat, b: nat) {
    a < |next| && b < |prev| && next[a] == b && prev[b] == a
  }

  function Without(c: seq<nat>, k: nat): seq<nat>
    requires k < |c|
  {
    c[..k] + c[k + 1..]
  }

  lemma WithoutMembers(c: seq<nat>, k: nat)
    requires k < |c| && forall i, j :: 0 <= i < j < |c| ==> c[i] != c[j]
    ensures forall h :: h in Without(c, k) <==> h in c && h != c[k]
    ensures forall i, j :: 0 <= i < j < |Without(c, k)| ==> Without(c, k)[i] != Without(c, k)[j]
  {
    var d := Without(c, k);
    forall h | h in c && h != c[k] ensures h in d {
      var i :| 0 <= i < |c| && c[i] == h;
      assert d[if i < k then i else i - 1] == h;
    }
  }

  // ---- LRU_Remove ----

  function RemoveNext(next: seq<nat>, prev: seq<nat>, e: nat): seq<nat>
    requires e < |next| && e < |prev| && prev[e] < |next|
  {
    next[prev[e] := next[e]]
  }

  function RemovePrev(next: seq<nat>, prev: seq<nat>, e: nat): seq<nat>
    requires e < |next| && e < |prev| && next[e] < |prev|
  {
    prev[next[e] := prev[e]]
  }

  lemma MemberLinks(next: seq<nat>, prev: seq<nat>, head: nat, c: seq<nat>, k: nat)
    requires Ring(next, prev, head, c) && k < |c|
    ensures c[k] < |next| && next[c[k]] == At(head, c, k + 2) && prev[c[k]] == At(head, c, k)
    ensures At(head, c, k) < |next| && At(head, c, k + 2) < |next|
  {
    assert Linked(next, prev, At(head, c, k), At(head, c, k + 1)) &&
      Linked(next, prev, At(head, c, k + 1), At(head, c, k + 2));
  }

  /** Positions on the way round are different handles. */
  lemma AtInjective(next: seq<nat>, prev: seq<nat>, head: nat, c: seq<nat>, i: nat, j: nat)
    requires Ring(next, prev, head, c) && i <= |c| && j <= |c| && i != j
    ensures At(head, c, i) != At(head, c, j)
  {
    assert (i > 0 ==> c[i - 1] in c) && (j > 0 ==> c[j - 1] in c);
  }

  lemma RemoveKeepsRing(next: seq<nat>, prev: seq<nat>, head: nat, c: seq<nat>, k: nat)
    requires Ring(next, prev, head, c) && k < |c|
    ensures var e := c[k];
      && next[e] < |next| && prev[e] < |next|
      && Ring(RemoveNext(next, prev, e), RemovePrev(next, prev, e), head, Without(c, k))
  {
    MemberLinks(next, prev, head, c, k);
    WithoutMembers(c, k);
    var e, d := c[k], Without(c, k);
    var next', prev' := RemoveNext(next, prev, e), RemovePrev(next, prev, e);
    forall i | 0 <= i <= |d| ensures Linked(next', prev', At(head, d, i), At(head, d, i + 1)) {
      var a := if i <= k then i else i + 1;
      var b := if i < k then i + 1 else i + 2;
      assert At(head, d, i) == At(head, c, a) && At(head, d, i + 1) == At(head, c, b);
      assert Linked(next, prev, At(head, c, a), At(head, c, a + 1));
      if i != k {
        AtInjective(next, prev, head, c, a, k);
        AtInjectiveNext(next, prev, head, c, b, k + 2);
      }
    }
  }

  lemma AtInjectiveNext(next: seq<nat>, prev: seq<nat>, head: nat, c: seq<nat>, i: nat, j: nat)
    requires Ring(next, prev, head, c) && 1 <= i <= |c| + 1 && 1 <= j <= |c| + 1 && i != j
    ensures At(head, c, i) != At(head, c, j)
  {
    AtInjective(next, prev, head, c, if i == |c| + 1 then 0 else i, if j == |c| + 1 then 0 else j);
  }

  ghost predicate Apart(head: nat, c: seq<nat>, other: nat, d: seq<nat>) {
    head != other && head !in d && other !in c && forall h :: h in c ==> h !in d
  }

  ghost predicate SameLinks(next: seq<nat>, prev: seq<nat>, next': seq<nat>, prev': seq<nat>, h: nat) {
    h < |next| <= |next'| && h < |prev| <= |prev'| && next'[h] == next[h] && prev'[h] == prev[h]
  }

  /** Stores to the links of handles that are not in a ring leave it as it is. */
  lemma OtherRing(next: seq<nat>, prev: seq<nat>, next': seq<nat>, prev': seq<nat>, head: nat, c: seq<nat>)
    requires Ring(next, prev, head, c) && |next'| == |prev'| >= |next|
    requires forall i :: 0 <= i <= |c| ==> SameLinks(next, prev, next', prev', At(head, c, i))
    ensures Ring(next', prev', head, c)
  {
    forall i | 0 <= i <= |c| ensures Linked(next', prev', At(head, c, i), At(head, c, i + 1)) {
      assert Linked(next, prev, At(head, c, i), At(head, c, i + 1));
      var j := if i == |c| then 0 else i + 1;
      assert At(head, c, j) == At(head, c, i + 1);
      assert SameLinks(next, prev, next', prev', At(head, c, i)) && SameLinks(next, prev, next', prev', At(head, c, j));
    }
  }

  lemma AtMember(head: nat, c: seq<nat>, i: nat)
    requires i <= |c| + 1
    ensures At(head, c, i) == head || At(head, c, i) in c
  {
  }

  /** A new handle that nothing links to yet. */
  lemma RingExtend(next: seq<nat>, prev: seq<nat>, head: nat, c: seq<nat>)
    requires Ring(next, prev, head, c)
    ensures Ring(next + [0], prev + [0], head, c)
  {
    forall i | 0 <= i <= |c| ensures SameLinks(next, prev, next + [0], prev + [0], At(head, c, i)) {
      AtMember(head, c, i);
    }
    OtherRing(next, prev, next + [0], prev + [0], head, c);
  }

  lemma RemoveKeepsOther(next: seq<nat>, prev: seq<nat>, head: nat, c: seq<nat>, k: nat, other: nat, d: seq<nat>)
    requires Ring(next, prev, head, c) && Ring(next, prev, other, d) && k < |c| && Apart(head, c, other, d)
    ensures var e := c[k];
      && next[e] < |next| && prev[e] < |next|
      && Ring(RemoveNext(next, prev, e), RemovePrev(next, prev, e), other, d)
  {
    MemberLinks(next, prev, head, c, k);
    AtMember(head, c, k);
    AtMember(head, c, k + 2);
    var e := c[k];
    var next', prev' := RemoveNext(next, prev, e), RemovePrev(next, prev, e);
    forall i | 0 <= i <= |d| ensures SameLinks(next, prev, next', prev', At(other, d, i))
    {
      AtMember(other, d, i);
    }
    OtherRing(next, prev, next', prev', other, d);
  }

  // ---- LRU_Append ----

  function AppendNext(next: seq<nat>, prev: seq<nat>, head: nat, e: nat): seq<nat>
    requires e < |next| && head < |next| && head < |prev| && prev[head] < |next|
  {
    next[e := head][prev[head] := e]
  }

  function AppendPrev(next: seq<nat>, prev: seq<nat>, head: nat, e: nat): seq<nat>
    requires e < |prev| && head < |prev|
  {
    prev[e := prev[head]][head := e]
  }

  lemma HeadLinks(next: seq<nat>, prev: seq<nat>, head: nat, c: seq<nat>)
    requires Ring(next, prev, head, c)
    ensures prev[head] == At(head, c, |c|) < |next| && next[head] == At(head, c, 1)
    ensures next[head] == head <==> c == []
  {
    assert Linked(next, prev, At(head, c, |c|), At(head, c, |c| + 1)) &&
      Linked(next, prev, At(head, c, 0), At(head, c, 1));
    if c != [] { assert c[0] in c; }
  }

  lemma AppendKeepsRing(next: seq<nat>, prev: seq<nat>, head: nat, c: seq<nat>, e: nat)
    requires Ring(next, prev, head, c) && e < |next| && e != head && e !in c
    ensures prev[head] < |next| && Ring(AppendNext(next, prev, head, e), AppendPrev(next, prev, head, e), head, c + [e])
  {
    HeadLinks(next, prev, head, c);
    var d := c + [e];
    var next', prev' := AppendNext(next, prev, head, e), AppendPrev(next, prev, head, e);
    forall i | 0 <= i <= |d| ensures Linked(next', prev', At(head, d, i), At(head, d, i + 1)) {
      if i < |c| {
        assert Linked(next, prev, At(head, c, i), At(head, c, i + 1));
        AtInjective(next, prev, head, c, i, |c|);
        AtMember(head, c, i);
        AtMember(head, c, i + 1);
        AtInjective(next, prev, head, c, i + 1, 0);
      }
    }
  }

  lemma AppendKeepsOther(next: seq<nat>, prev: seq<nat>, head: nat, c: seq<nat>, e: nat, other: nat, d: seq<nat>)
    requires Ring(next, prev, head, c) && Ring(next, prev, other, d) && Apart(head, c, other, d)
    requires e < |next| && e != other && e !in d
    ensures prev[head] < |next| && Ring(AppendNext(next, prev, head, e), AppendPrev(next, prev, head, e), other, d)
  {
    HeadLinks(next, prev, head, c);
    AtMember(head, c, |c|);
    var next', prev' := AppendNext(next, prev, head, e), AppendPrev(next, prev, head, e);
    forall i | 0 <= i <= |d| ensures SameLinks(next, prev, next', prev', At(other, d, i))
    {
      AtMember(other, d, i);
    }
    OtherRing(next, prev, next', prev', other, d);
  }
}
