/** Internal keys, entries and the write history (db/dbformat.h, db/dbformat.cc).

    A user key is an integer.  The store looks at user keys only through the order given by
    the user comparator, and the finitely many keys of one run embed into the integers in
    that order. */
module InternalKeys {

  const NUM_LEVELS: nat := 7
  const MAX_SEQUENCE: nat := 0x100_0000_0000_0000 - 1

  type UserKey = int

  datatype Kind = Deletion | Value

  datatype InternalKey = InternalKey(user: UserKey, sequence: nat, kind: Kind)

  datatype Entry = Entry(key: InternalKey, value: string)

  /** The 64-bit trailer of an internal key: sequence number and type packed together. */
  function Packed(k: InternalKey): nat {
    k.sequence * 256 + (if k.kind.Value? then 1 else 0)
  }

  /** The internal key order: user keys ascending, then packed trailers descending. */
  predicate Before(a: InternalKey, b: InternalKey) {
    a.user < b.user || (a.user == b.user && Packed(a) > Packed(b))
  }

  predicate NotAfter(a: InternalKey, b: InternalKey) {
    a == b || Before(a, b)
  }

  /** The key a lookup of `user` at snapshot `s` seeks to; the type is kValueTypeForSeek. */
  function LookupKey(user: UserKey, s: nat): InternalKey {
    InternalKey(user, s, Value)
  }

  ghost predicate Sorted(entries: seq<Entry>) {
    forall i, j :: 0 <= i < j < |entries| ==> Before(entries[i].key, entries[j].key)
  }

  lemma SortedIndex(entries: seq<Entry>, i: nat, j: nat)
    requires Sorted(entries) && i < |entries| && j < |entries|
    ensures i < j <==> Before(entries[i].key, entries[j].key)
  {
    assert j < i ==> Before(entries[j].key, entries[i].key);
  }

  /** An entry a reader of `user` at snapshot `s` may see. */
  predicate Visible(e: Entry, user: UserKey, s: nat) {
    e.key.user == user && e.key.sequence <= s
  }

  /** `r` is the newest entry of `entries` that a reader of `user` at `s` may see. */
  ghost predicate NewestIn(entries: seq<Entry>, user: UserKey, s: nat, r: Option<Entry>) {
    match r
    case None => forall e :: e in entries ==> !Visible(e, user, s)
    case Some(n) =>
      && n in entries && Visible(n, user, s)
      && forall e :: e in entries && Visible(e, user, s) ==> e.key.sequence <= n.key.sequence
  }

  datatype Option<+T> = None | Some(value: T)

  /** What a lookup reports for the entry it stopped at. */
  function Answer(r: Option<Entry>): Option<string> {
    if r.Some? && r.value.key.kind.Value? then Some(r.value.value) else None
  }

  // ---- the write history: the plain multi-version map ----

  datatype Op = Put(key: UserKey, value: string) | Delete(key: UserKey)

  /** The entry an operation produces under sequence number `n`. */
  function EntryOf(op: Op, n: nat): Entry {
    match op
    case Put(k, v) => Entry(InternalKey(k, n, Value), v)
    case Delete(k) => Entry(InternalKey(k, n, Deletion), "")
  }

  /** The entry of the n-th operation of the history; numbers start at 1. */
  function EntryAt(hist: seq<Op>, n: nat): Entry
    requires 1 <= n <= |hist|
  {
    EntryOf(hist[n - 1], n)
  }

  /** Number of the last operation on `user` among the first `s`, or 0. */
  function LastOp(hist: seq<Op>, user: UserKey, s: nat): (n: nat)
    requires s <= |hist|
    ensures n <= s
    ensures n > 0 ==> hist[n - 1].key == user
    ensures forall i :: n <= i < s ==> hist[i].key != user
  {
    if s == 0 then 0
    else if hist[s - 1].key == user then s
    else LastOp(hist, user, s - 1)
  }

  /** The reference answer: the effect of the last operation on `user` up to `s`. */
  function Read(hist: seq<Op>, user: UserKey, s: nat): Option<string>
    requires s <= |hist|
  {
    var n := LastOp(hist, user, s);
    if n > 0 && hist[n - 1].Put? then Some(hist[n - 1].value) else None
  }

  /** Reading at `s` depends on the first `s` operations only. */
  lemma {:induction false} ReadPrefix(hist: seq<Op>, more: seq<Op>, user: UserKey, s: nat)
    requires s <= |hist| <= |more| && more[..|hist|] == hist
    ensures Read(hist, user, s) == Read(more, user, s)
    ensures LastOp(hist, user, s) == LastOp(more, user, s)
  {
    if s > 0 {
      assert more[s - 1] == hist[s - 1];
      ReadPrefix(hist, more, user, s - 1);
    }
    assert forall i :: 0 <= i < |hist| ==> more[i] == hist[i];
  }
}
