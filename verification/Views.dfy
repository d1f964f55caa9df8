/** What a set of stored entries answers to readers, and which removals keep every answer.

    The invariant of the store is local to one operation of the history: an operation that
    some reader may still see is stored, or it is a deletion with nothing older left for it
    to hide. */
module Views {
  import opened InternalKeys
  import opened VersionReads
  import opened Compactions

  /** `r` is the newest stored entry visible to a reader of `user` at `s`. */
  ghost predicate NewestStored(stored: set<Entry>, user: UserKey, s: nat, r: Option<Entry>) {
    match r
    case None => forall e :: e in stored ==> !Visible(e, user, s)
    case Some(n) =>
      && n in stored && Visible(n, user, s)
      && forall e :: e in stored && Visible(e, user, s) ==> e.key.sequence <= n.key.sequence
  }

  /** Every stored entry is an operation of the history. */
  ghost predicate Genuine(hist: seq<Op>, stored: set<Entry>) {
    forall e :: e in stored ==> 1 <= e.key.sequence <= |hist| && e == EntryAt(hist, e.key.sequence)
  }

  /** No operation up to `smallest` overwrites operation `n`: some reader at or after
      `smallest` may see it. */
  ghost predicate Live(hist: seq<Op>, n: nat, smallest: nat)
    requires 1 <= n <= |hist|
  {
    forall i :: n <= i < smallest && i < |hist| ==> hist[i].key != hist[n - 1].key
  }

  ghost predicate NothingOlder(stored: set<Entry>, k: InternalKey) {
    forall e :: e in stored && e.key.user == k.user ==> e.key.sequence >= k.sequence
  }

  ghost predicate Covers(hist: seq<Op>, stored: set<Entry>, n: nat)
    requires 1 <= n <= |hist|
  {
    var e := EntryAt(hist, n);
    e in stored || (e.key.kind.Deletion? && NothingOlder(stored, e.key))
  }

  ghost predicate Covered(hist: seq<Op>, stored: set<Entry>, smallest: nat) {
    forall n :: 1 <= n <= |hist| && Live(hist, n, smallest) ==> Covers(hist, stored, n)
  }

  /** The invariant gives every reader at or after `smallest` the reference answer. */
  lemma CoveredAnswers(hist: seq<Op>, stored: set<Entry>, smallest: nat, user: UserKey, s: nat, r: Option<Entry>)
    requires Genuine(hist, stored) && Covered(hist, stored, smallest)
    requires smallest <= s <= |hist|
    requires NewestStored(stored, user, s, r)
    ensures Answer(r) == Read(hist, user, s)
  {
    var n := LastOp(hist, user, s);
    if r.Some? {
      var q := r.value.key.sequence;
      assert hist[q - 1].key == user;
      assert q <= n;
    }
    if n > 0 {
      assert Live(hist, n, smallest);
      assert Covers(hist, stored, n);
      var e := EntryAt(hist, n);
      assert Visible(e, user, s);
    }
  }

  /** A larger smallest snapshot asks for less. */
  lemma CoveredMono(hist: seq<Op>, stored: set<Entry>, smallest: nat, larger: nat)
    requires Covered(hist, stored, smallest) && smallest <= larger
    ensures Covered(hist, stored, larger)
  {
    forall n | 1 <= n <= |hist| && Live(hist, n, larger) ensures Covers(hist, stored, n) {
      assert Live(hist, n, smallest);
    }
  }

  /** Appending operations to the history and storing their entries. */
  lemma CoveredExtend(hist: seq<Op>, more: seq<Op>, stored: set<Entry>, stored': set<Entry>, smallest: nat)
    requires smallest <= |hist| <= |more| && more[..|hist|] == hist
    requires Genuine(hist, stored) && Covered(hist, stored, smallest)
    requires stored <= stored' && Genuine(more, stored')
    requires forall e :: e in stored' && e !in stored ==> e.key.sequence > |hist|
    requires forall n :: |hist| < n <= |more| ==> EntryAt(more, n) in stored'
    ensures Covered(more, stored', smallest)
  {
    assert forall i :: 0 <= i < |hist| ==> more[i] == hist[i];
    forall n | 1 <= n <= |more| && Live(more, n, smallest) ensures Covers(more, stored', n) {
      if n <= |hist| {
        assert EntryAt(more, n) == EntryAt(hist, n);
        assert Live(hist, n, smallest);
        assert Covers(hist, stored, n);
      }
    }
  }

  /** Cutting the history back to a prefix and forgetting the entries after it. */
  lemma CoveredTruncate(hist: seq<Op>, stored: set<Entry>, stored': set<Entry>, smallest: nat, last: nat)
    requires smallest <= last <= |hist|
    requires Genuine(hist, stored) && Covered(hist, stored, smallest)
    requires forall e :: e in stored' <==> e in stored && e.key.sequence <= last
    ensures Genuine(hist[..last], stored') && Covered(hist[..last], stored', smallest)
  {
    var h := hist[..last];
    forall e | e in stored' ensures 1 <= e.key.sequence <= |h| && e == EntryAt(h, e.key.sequence) {
      assert h[e.key.sequence - 1] == hist[e.key.sequence - 1];
    }
    forall n | 1 <= n <= |h| && Live(h, n, smallest) ensures Covers(h, stored', n) {
      assert h[n - 1] == hist[n - 1];
      forall i | n <= i < smallest && i < |hist| ensures hist[i].key != hist[n - 1].key {
        assert h[i] == hist[i];
      }
      assert Covers(hist, stored, n);
    }
  }

  // ---- compaction ----

  /** Every deletion marker the compaction may drop has nothing older outside the inputs. */
  ghost predicate MarkersSafe(stored: set<Entry>, input: seq<Entry>, smallest: nat, v: Levels, level: nat)
    requires |v| == NUM_LEVELS
  {
    forall d, e ::
      (d in input && d.key.kind.Deletion? && d.key.sequence <= smallest && BaseLevel(v, level, d.key.user) &&
       e in stored && e !in input && e.key.user == d.key.user) ==>
      e.key.sequence > d.key.sequence
  }

  /** Stored entries after the inputs are replaced by what the loop kept. */
  ghost function AfterCompaction(stored: set<Entry>, input: seq<Entry>, smallest: nat, v: Levels,
                                 level: nat): set<Entry>
    requires |v| == NUM_LEVELS
  {
    (set e | e in stored && e !in input) + (set e | e in Kept(input, |input|, smallest, v, level))
  }

  lemma AfterIsSubset(stored: set<Entry>, input: seq<Entry>, smallest: nat, v: Levels, level: nat)
    requires |v| == NUM_LEVELS
    requires forall e :: e in input ==> e in stored
    ensures AfterCompaction(stored, input, smallest, v, level) <= stored
  {
    KeptMembers(input, |input|, smallest, v, level);
  }

  /** Same user key at positions i <= j of a sorted input: every entry between has it too. */
  lemma SameUserRun(input: seq<Entry>, i: nat, j: nat)
    requires Sorted(input) && i < j < |input| && input[i].key.user == input[j].key.user
    ensures input[j - 1].key.user == input[j].key.user
    ensures input[j - 1].key.sequence <= input[i].key.sequence
  {
    if j - 1 > i {
      assert Before(input[i].key, input[j - 1].key);
    }
    assert Before(input[j - 1].key, input[j].key);
  }

  /** The loop's variables decide what they are for: an entry is dropped exactly if an entry of its
      user key comes before it that every reader left can see, or if it is a deletion marker that
      every reader left can see and no deeper file covers its user key. */
  lemma DroppedIs(input: seq<Entry>, i: nat, smallest: nat, v: Levels, level: nat)
    requires |v| == NUM_LEVELS && Sorted(input) && i < |input| && smallest < MAX_SEQUENCE
    ensures var k := input[i].key;
      Dropped(input, i, smallest, v, level) <==>
      || (exists j :: 0 <= j < i && input[j].key.user == k.user && input[j].key.sequence <= smallest)
      || (k.kind.Deletion? && k.sequence <= smallest && BaseLevel(v, level, k.user))
  {
    hide BaseLevel;
    var k := input[i].key;
    if j :| 0 <= j < i && input[j].key.user == k.user && input[j].key.sequence <= smallest {
      SameUserRun(input, j, i);
    }
  }

  /** Rule (A) fires because of a strictly newer entry of the same user key. */
  lemma PreviousIsNewer(hist: seq<Op>, input: seq<Entry>, i: nat, smallest: nat)
    requires Sorted(input) && i < |input| && smallest < MAX_SEQUENCE
    requires forall e :: e in input ==> 1 <= e.key.sequence <= |hist| && e == EntryAt(hist, e.key.sequence)
    requires LastSequenceForKey(input, i) <= smallest
    ensures i > 0 && input[i - 1].key.user == input[i].key.user
    ensures input[i].key.sequence < input[i - 1].key.sequence <= smallest
  {
    var p, e := input[i - 1], input[i];
    assert p in input && e in input;
    assert Before(p.key, e.key);
  }

  /** Rule (A) drops only operations that a newer one hides from every reader. */
  lemma HiddenIsNotLive(hist: seq<Op>, input: seq<Entry>, i: nat, smallest: nat)
    requires Sorted(input) && i < |input| && smallest < MAX_SEQUENCE
    requires forall e :: e in input ==> 1 <= e.key.sequence <= |hist| && e == EntryAt(hist, e.key.sequence)
    requires LastSequenceForKey(input, i) <= smallest
    ensures !Live(hist, input[i].key.sequence, smallest)
  {
    PreviousIsNewer(hist, input, i, smallest);
    var p, e := input[i - 1], input[i];
    assert p in input && e in input;
    assert hist[p.key.sequence - 1].key == hist[e.key.sequence - 1].key;
  }

  lemma LowerSequenceIsLater(input: seq<Entry>, i: nat, j: nat)
    requires Sorted(input) && i < |input| && j < |input|
    requires input[i].key.user == input[j].key.user && input[j].key.sequence < input[i].key.sequence
    ensures i < j
  {
    assert j == i || Before(input[j].key, input[i].key) || Before(input[i].key, input[j].key);
  }

  /** An entry older than a dropped marker of the same key is dropped as well. */
  lemma OlderIsDropped(input: seq<Entry>, i: nat, j: nat, smallest: nat, v: Levels, level: nat)
    requires |v| == NUM_LEVELS && Sorted(input) && i < |input| && j < |input|
    requires input[i].key.user == input[j].key.user
    requires input[i].key.sequence <= smallest && input[j].key.sequence < input[i].key.sequence
    ensures Dropped(input, j, smallest, v, level)
  {
    LowerSequenceIsLater(input, i, j);
    SameUserRun(input, i, j);
  }

  lemma CoversAfter(hist: seq<Op>, stored: set<Entry>, input: seq<Entry>, smallest: nat, v: Levels, level: nat, n: nat)
    requires |v| == NUM_LEVELS && smallest < MAX_SEQUENCE
    requires Genuine(hist, stored) && Sorted(input)
    requires forall e :: e in input ==> e in stored
    requires MarkersSafe(stored, input, smallest, v, level)
    requires 1 <= n <= |hist| && Live(hist, n, smallest) && Covers(hist, stored, n)
    ensures Covers(hist, AfterCompaction(stored, input, smallest, v, level), n)
  {
    KeptMembers(input, |input|, smallest, v, level);
    var d := EntryAt(hist, n);
    if d in input {
      var i :| 0 <= i < |input| && input[i] == d;
      if Dropped(input, i, smallest, v, level) {
        if LastSequenceForKey(input, i) <= smallest {
          HiddenIsNotLive(hist, input, i, smallest);
          assert false;
        }
        forall e | e in AfterCompaction(stored, input, smallest, v, level) && e.key.user == d.key.user
          ensures e.key.sequence >= d.key.sequence
        {
          if e in input && e.key.sequence < d.key.sequence {
            forall j | 0 <= j < |input| && input[j] == e ensures Dropped(input, j, smallest, v, level) {
              OlderIsDropped(input, i, j, smallest, v, level);
            }
          }
        }
      }
    } else {
      AfterIsSubset(stored, input, smallest, v, level);
    }
  }

  /** Compaction keeps the invariant, although hidden entries and markers are dropped. */
  lemma CompactionCovered(hist: seq<Op>, stored: set<Entry>, input: seq<Entry>, smallest: nat, v: Levels, level: nat)
    requires |v| == NUM_LEVELS && smallest < MAX_SEQUENCE
    requires Genuine(hist, stored) && Covered(hist, stored, smallest)
    requires Sorted(input) && forall e :: e in input ==> e in stored
    requires MarkersSafe(stored, input, smallest, v, level)
    ensures Genuine(hist, AfterCompaction(stored, input, smallest, v, level))
    ensures Covered(hist, AfterCompaction(stored, input, smallest, v, level), smallest)
  {
    AfterIsSubset(stored, input, smallest, v, level);
    forall n | 1 <= n <= |hist| && Live(hist, n, smallest)
      ensures Covers(hist, AfterCompaction(stored, input, smallest, v, level), n)
    {
      CoversAfter(hist, stored, input, smallest, v, level, n);
    }
  }

  // ---- exactly when a compaction keeps every answer ----

  ghost function Outside(stored: set<Entry>, input: seq<Entry>): set<Entry> {
    set e | e in stored && e !in input
  }

  /** The compaction drops the newest entry of `user` at the smallest snapshot, a deletion
      marker, while the newest older entry outside the inputs is a value. */
  ghost predicate Resurfaces(stored: set<Entry>, input: seq<Entry>, smallest: nat, v: Levels, level: nat,
                             user: UserKey, d: Entry, r: Entry)
    requires |v| == NUM_LEVELS
  {
    && d in input && d.key.kind.Deletion? && BaseLevel(v, level, user)
    && NewestStored(stored, user, smallest, Some(d))
    && NewestStored(Outside(stored, input), user, d.key.sequence, Some(r))
    && r.key.kind.Value?
  }

  ghost predicate SameAnswers(before: set<Entry>, after: set<Entry>, smallest: nat) {
    forall user, s, r, q ::
      smallest <= s && NewestStored(before, user, s, r) && NewestStored(after, user, s, q) ==> Answer(r) == Answer(q)
  }

  lemma DroppedNewestIsMarker(hist: seq<Op>, stored: set<Entry>, input: seq<Entry>, smallest: nat, v: Levels,
                              level: nat,
                              user: UserKey, s: nat, n: Entry)
    requires |v| == NUM_LEVELS && smallest < MAX_SEQUENCE && smallest <= s
    requires Genuine(hist, stored) && Sorted(input) && forall e :: e in input ==> e in stored
    requires NewestStored(stored, user, s, Some(n)) && n !in AfterCompaction(stored, input, smallest, v, level)
    ensures n in input && n.key.kind.Deletion? && n.key.sequence <= smallest && BaseLevel(v, level, user)
  {
    KeptMembers(input, |input|, smallest, v, level);
    var i :| 0 <= i < |input| && input[i] == n;
    assert Dropped(input, i, smallest, v, level);
    if LastSequenceForKey(input, i) <= smallest {
      PreviousIsNewer(hist, input, i, smallest);
      assert input[i - 1] in stored && Visible(input[i - 1], user, s);
      assert false;
    }
  }

  /** Nothing of a dropped marker's key that is older survives among the kept entries. */
  lemma OlderKeptIsOutside(stored: set<Entry>, input: seq<Entry>, smallest: nat, v: Levels, level: nat, d: Entry,
                           e: Entry)
    requires |v| == NUM_LEVELS && Sorted(input)
    requires d in input && d.key.sequence <= smallest && d.key.kind.Deletion? && BaseLevel(v, level, d.key.user)
    requires e in AfterCompaction(stored, input, smallest, v, level)
    requires e.key.user == d.key.user && (e == d || e.key.sequence < d.key.sequence)
    ensures e in Outside(stored, input)
  {
    KeptMembers(input, |input|, smallest, v, level);
    if e in input {
      var i :| 0 <= i < |input| && input[i] == d;
      forall j | 0 <= j < |input| && input[j] == e ensures Dropped(input, j, smallest, v, level) {
        if e != d { OlderIsDropped(input, i, j, smallest, v, level); }
      }
    }
  }

  lemma NoResurfaceSame(hist: seq<Op>, stored: set<Entry>, input: seq<Entry>, smallest: nat, v: Levels, level: nat,
                        user: UserKey, s: nat, r: Option<Entry>, q: Option<Entry>)
    requires |v| == NUM_LEVELS && smallest < MAX_SEQUENCE && smallest <= s
    requires Genuine(hist, stored) && Sorted(input) && forall e :: e in input ==> e in stored
    requires NewestStored(stored, user, s, r)
    requires NewestStored(AfterCompaction(stored, input, smallest, v, level), user, s, q)
    ensures Answer(r) == Answer(q) ||
            (r.Some? && q.Some? && Resurfaces(stored, input, smallest, v, level, user, r.value, q.value))
  {
    var after := AfterCompaction(stored, input, smallest, v, level);
    AfterIsSubset(stored, input, smallest, v, level);
    if r.Some? && r.value in after {
      assert Visible(r.value, user, s) && q.Some?;
      assert q.value in stored && q.value.key.sequence == r.value.key.sequence;
    } else if r.Some? {
      DroppedNewestIsMarker(hist, stored, input, smallest, v, level, user, s, r.value);
    }
    if r.Some? && r.value !in after && q.Some? {
      var d, m := r.value, q.value;
      assert m in stored && m.key.sequence <= d.key.sequence;
      assert m.key.sequence < d.key.sequence;
      OlderKeptIsOutside(stored, input, smallest, v, level, d, m);
      forall e | e in stored && Visible(e, user, smallest) ensures e.key.sequence <= d.key.sequence {
        assert Visible(e, user, s);
      }
      forall e | e in Outside(stored, input) && Visible(e, user, d.key.sequence)
        ensures e.key.sequence <= m.key.sequence
      {
        assert e in after && Visible(e, user, s);
      }
    }
  }

  lemma ResurfaceChanges(stored: set<Entry>, input: seq<Entry>, smallest: nat, v: Levels, level: nat,
                         user: UserKey, d: Entry, r: Entry)
    requires |v| == NUM_LEVELS && Sorted(input)
    requires forall e :: e in input ==> e in stored
    requires forall a, b :: a in stored && b in stored && a.key.sequence == b.key.sequence ==> a == b
    requires Resurfaces(stored, input, smallest, v, level, user, d, r)
    ensures NewestStored(AfterCompaction(stored, input, smallest, v, level), user, smallest, Some(r))
  {
    var after := AfterCompaction(stored, input, smallest, v, level);
    AfterIsSubset(stored, input, smallest, v, level);
    forall e | e in after && Visible(e, user, smallest) ensures e.key.sequence <= r.key.sequence {
      assert e in stored;
      OlderKeptIsOutside(stored, input, smallest, v, level, d, e);
    }
  }

  /** A compaction keeps every answer at or after the smallest snapshot if and only if no
      dropped marker uncovers a value that was left out of its inputs. */
  lemma CompactionKeepsViewsExactly(hist: seq<Op>, stored: set<Entry>, input: seq<Entry>, smallest: nat, v: Levels,
                                    level: nat)
    requires |v| == NUM_LEVELS && smallest < MAX_SEQUENCE
    requires Genuine(hist, stored) && Sorted(input) && forall e :: e in input ==> e in stored
    ensures SameAnswers(stored, AfterCompaction(stored, input, smallest, v, level), smallest) <==>
            forall user, d, r :: !Resurfaces(stored, input, smallest, v, level, user, d, r)
  {
    var after := AfterCompaction(stored, input, smallest, v, level);
    if SameAnswers(stored, after, smallest) {
      forall user, d, r ensures !Resurfaces(stored, input, smallest, v, level, user, d, r) {
        if Resurfaces(stored, input, smallest, v, level, user, d, r) {
          ResurfaceChanges(stored, input, smallest, v, level, user, d, r);
        }
      }
    }
    if forall user, d, r :: !Resurfaces(stored, input, smallest, v, level, user, d, r) {
      forall user, s, r, q | smallest <= s && NewestStored(stored, user, s, r) && NewestStored(after, user, s, q)
        ensures Answer(r) == Answer(q)
      {
        NoResurfaceSame(hist, stored, input, smallest, v, level, user, s, r, q);
      }
    }
  }
}
