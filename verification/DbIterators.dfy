/** The snapshot iterator (db/db_iter.cc): over all entries of the store it shows, for each
    user key, the newest entry at its snapshot, deletions left out. */
module DbIterators {
  import opened InternalKeys
  import opened VersionReads
  import opened Cursors
  import opened MemIterators
  import opened MergingIterators

  // ---- what an iterator at a snapshot shows ----

  /** Entry `i` is the newest of its user key at snapshot `s`, and a value. */
  ghost predicate Shown(entries: seq<Entry>, s: nat, i: nat) {
    && i < |entries| && entries[i].key.sequence <= s && entries[i].key.kind.Value?
    && forall j :: 0 <= j < i && entries[j].key.sequence <= s ==> entries[j].key.user != entries[i].key.user
  }

  /** First shown entry at or after position `from`. */
  ghost function NextShown(entries: seq<Entry>, s: nat, from: nat): (r: Option<nat>)
    ensures r.Some? ==> from <= r.value && Shown(entries, s, r.value)
    ensures forall i :: from <= i && Shown(entries, s, i) ==> r.Some? && r.value <= i
    decreases |entries| - from
  {
    if from >= |entries| then None
    else if Shown(entries, s, from) then Some(from)
    else NextShown(entries, s, from + 1)
  }

  /** Last shown entry before position `to`. */
  ghost function PrevShown(entries: seq<Entry>, s: nat, to: nat): (r: Option<nat>)
    ensures r.Some? ==> r.value < to && Shown(entries, s, r.value)
    ensures forall i :: 0 <= i < to && Shown(entries, s, i) ==> r.Some? && i <= r.value
  {
    if to == 0 then None
    else if Shown(entries, s, to - 1) then Some(to - 1)
    else PrevShown(entries, s, to - 1)
  }

  /** What is shown is exactly the snapshot map: a user key is shown with a value if and only
      if reading it at the snapshot answers that value. */
  lemma ShownIsSnapshotMap(entries: seq<Entry>, s: nat, user: UserKey, value: string)
    requires Sorted(entries)
    ensures (exists i: nat :: Shown(entries, s, i) && entries[i].key.user == user && entries[i].value == value) <==>
            Answer(TableGet(entries, user, s)) == Some(value)
  {
    var k := SeekIndex(entries, LookupKey(user, s));
    forall i: nat | Shown(entries, s, i) && entries[i].key.user == user ensures i == k {
      if k < i { SortedIndex(entries, k, i); }
    }
    if Answer(TableGet(entries, user, s)) == Some(value) {
      assert Shown(entries, s, k);
    }
  }

  /** Shown entries have rising user keys. */
  lemma ShownAscend(entries: seq<Entry>, s: nat, i: nat, j: nat)
    requires Sorted(entries) && Shown(entries, s, i) && Shown(entries, s, j) && i < j
    ensures entries[i].key.user < entries[j].key.user
  {
    SortedIndex(entries, i, j);
  }

  lemma UsersAscend(entries: seq<Entry>, i: nat, j: nat)
    requires Sorted(entries) && i <= j < |entries|
    ensures entries[i].key.user <= entries[j].key.user
  {
    if i < j { SortedIndex(entries, i, j); }
  }

  // ---- the iterator ----

  /** Where the internal cursor stands.  Moving forward, it is on the entry itself.  Moving
      backward, it is before it on a smaller user key, with no visible entry in between. */
  ghost predicate Standing(entries: seq<Entry>, s: nat, iter: Cursor, valid: bool, direction: Direction, at: nat,
                           savedKey: UserKey, savedValue: string)
  {
    && iter.entries == entries && Sorted(entries)
    && (valid ==> Shown(entries, s, at))
    && (valid && direction.Forward? ==> iter.pos == at)
    && (valid && direction.Reverse? ==>
          && savedKey == entries[at].key.user && savedValue == entries[at].value
          && JustBefore(entries, s, iter, at))
  }

  class DbIterator {
    const iter: MergingIterator
    const snapshot: nat
    var savedKey: UserKey // empty when not in use: then its value is not looked at
    var savedValue: string
    var direction: Direction
    var valid: bool
    ghost var entries: seq<Entry> // what the internal iterator merges
    ghost var runs: seq<seq<Entry>> // and from where
    ghost var at: nat // the shown entry the iterator is on

    /** All that moves with this iterator. */
    ghost function Parts(): set<object> {
      {iter} + iter.Parts()
    }

    /** The internal iterator behaves as a cursor over entries that lack only some newer than the
        snapshot. */
    ghost predicate Ready()
      reads this`entries, this`runs, Parts()
    {
      && this !in Parts() && iter.Valid() && iter.full == entries && iter.runs == runs
      && GrownBy(iter.union, entries, snapshot)
    }

    /** Where the internal iterator stands among all entries. */
    ghost function Internal(): (c: Cursor)
      reads this`entries, iter
      ensures c.entries == entries
    {
      Regrown(iter.Abstract(), entries)
    }

    ghost predicate Valid()
      reads this, Parts()
    {
      Ready() && Standing(entries, snapshot, Internal(), valid, direction, at, savedKey, savedValue)
    }

    /** Position as a shown entry; None when the iterator is not valid. */
    ghost function Position(): Option<nat>
      reads this
    {
      if valid then Some(at) else None
    }

    constructor (iter: MergingIterator, snapshot: nat)
      requires iter.Valid() && iter.union == iter.full
      ensures Valid() && Position() == None && this.snapshot == snapshot && this.iter == iter
      ensures entries == iter.full && runs == iter.runs
    {
      hide GrownBy, SeekIndex, Merged, IsUnion, AllBehind, MergingIterator.Linked;
      FullSorted(iter);
      this.iter, this.snapshot, entries, runs := iter, snapshot, iter.full, iter.runs;
      savedKey, savedValue, direction, valid, at := 0, "", Forward, false, 0;
      new;
      AllMet(entries, iter.Abstract(), snapshot);
      MakeReady();
    }

    lemma ReadyParts()
      requires Ready()
      ensures this !in Parts() && Sorted(entries) && Internal().pos <= |entries|
    {
      IterParts();
    }

    lemma IterParts()
      requires Ready()
      ensures this !in Parts() && Sorted(entries) && iter.Valid() && iter.full == entries && iter.runs == runs
      ensures GrownBy(iter.union, entries, snapshot) && Internal().pos <= |entries|
      ensures Internal().Valid() == iter.Abstract().Valid()
      ensures Internal().Valid() ==> entries[Internal().pos] == iter.union[iter.at]
    {
      hide MergingIterator.Valid, GrownBy;
      GrownParts(iter.union, entries, snapshot);
      if iter.Abstract().Valid() { RegrownOn(iter.Abstract(), entries); }
    }

    lemma MakeReady()
      requires this !in Parts() && iter.Valid() && iter.full == entries && iter.runs == runs
      requires GrownBy(iter.union, entries, snapshot)
      ensures Ready()
    {
    }

    // ---- the internal iterator ----

    method HasCurrent() returns (r: bool)
      requires Ready()
      ensures r == Internal().Valid()
    {
      hide Ready, MergingIterator.Valid, GrownBy;
      IterParts();
      r := iter.IsValid();
    }

    method CurrentEntry() returns (e: Entry)
      requires Ready() && Internal().Valid()
      ensures Internal().pos < |entries| && e == entries[Internal().pos]
    {
      hide Ready, MergingIterator.Valid, GrownBy;
      IterParts();
      e := iter.Current();
    }

    method MoveToFirst()
      requires Ready()
      modifies Parts()
      ensures Ready() && Internal() == Cursor(entries, 0).SeekToFirst()
    {
      hide Ready, MergingIterator.Valid, GrownBy;
      IterParts();
      iter.SeekToFirst();
      AllMet(entries, iter.Abstract(), snapshot);
      MakeReady();
    }

    method MoveToLast()
      requires Ready()
      modifies Parts()
      ensures Ready() && Internal() == Cursor(entries, 0).SeekToLast()
    {
      hide Ready, MergingIterator.Valid, GrownBy;
      IterParts();
      iter.SeekToLast();
      AllMet(entries, iter.Abstract(), snapshot);
      MakeReady();
    }

    method MoveTo(target: InternalKey)
      requires Ready()
      modifies Parts()
      ensures Ready() && Internal() == Cursor(entries, 0).Seek(target)
    {
      hide Ready, MergingIterator.Valid, GrownBy, SeekIndex;
      IterParts();
      iter.Seek(target);
      AllMet(entries, iter.Abstract(), snapshot);
      MakeReady();
    }

    /** To the next entry, perhaps over some that are newer than the snapshot. */
    method StepForward()
      requires Ready() && Internal().Valid()
      modifies Parts()
      ensures Ready() && old(Internal()).pos < Internal().pos <= |entries|
      ensures PassedOver(entries, snapshot, old(Internal()).pos + 1, Internal().pos)
    {
      hide Ready, MergingIterator.Valid, GrownBy, SeekIndex;
      IterParts();
      ghost var was, direction := iter.Abstract(), iter.direction;
      iter.Next();
      if direction.Forward? {
        StepOver(entries, was, iter.Abstract(), snapshot);
      } else {
        SteppedOn(entries, was, iter.Abstract(), snapshot);
      }
      MakeReady();
    }

    method StepBack()
      requires Ready() && Internal().Valid()
      modifies Parts()
      ensures Ready() && Remaining(Internal()) <= old(Internal()).pos && Internal().pos <= |entries|
      ensures PassedOver(entries, snapshot, Remaining(Internal()), old(Internal()).pos)
    {
      hide Ready, MergingIterator.Valid, GrownBy, SeekIndex;
      IterParts();
      ghost var was, direction := iter.Abstract(), iter.direction;
      iter.Prev();
      if direction.Reverse? {
        StepBackOver(entries, was, iter.Abstract(), snapshot);
      } else {
        SteppedBack(entries, was, iter.Abstract(), snapshot);
      }
      MakeReady();
    }

    // ---- a memtable that grows under the iterator ----

    /** Entries newer than the snapshot are put into the memtable under child `c` between two
        calls: the iterator stays valid and on its shown entry. */
    method Grow(c: nat, later: seq<Entry>, ghost more: seq<Entry>)
      requires Valid() && c < |iter.children| && iter.children[c].Mem? && c < |runs|
      requires Sorted(later) && forall e :: e in runs[c] ==> e in later
      requires forall e :: e in later && e !in runs[c] ==> e.key.sequence > snapshot
      requires IsUnion(more, runs[c := later])
      modifies this`entries, this`runs, this`at, Parts()
      ensures Valid() && entries == more && runs == old(runs)[c := later] && valid == old(valid)
      ensures GrownBy(old(entries), entries, snapshot)
      ensures valid ==> at < |entries| && entries[at] == old(entries[at])
    {
      hide IsUnion, Standing, Ready, MergingIterator.Valid, Shown, SeekIndex, GrownBy;
      IterParts();
      iter.UnionOfRuns();
      FullGrown(entries, more, runs, c, later, snapshot);
      ghost var was, old', union := Internal(), entries, iter.union;
      if valid { StandingParts(entries, snapshot, was, direction, at, savedKey, savedValue); }
      iter.Grow(c, later, more);
      iter.UnionInFull();
      GrownTwice(union, old', iter.union, more, snapshot);
      entries, runs := more, runs[c := later];
      MakeReady();
      IterParts();
      StandingGrown(old', more, snapshot, was, Internal(), valid, direction, at, savedKey, savedValue);
      if valid { MemberIndex(more, old'[at]); }
      at := if valid then SeekIndex(more, old'[at].key) else at;
    }

    // ---- reading ----

    lemma StandingHere()
      requires Valid() && valid && direction.Forward?
      ensures Ready() && Internal().Valid() && Internal().pos == at
    {
      hide MergingIterator.Valid, GrownBy;
    }

    method Key() returns (key: UserKey)
      requires Valid() && valid
      ensures key == entries[at].key.user
    {
      if direction == Forward {
        StandingHere();
        var e := CurrentEntry();
        key := e.key.user;
      } else {
        key := savedKey;
      }
    }

    method Value() returns (value: string)
      requires Valid() && valid
      ensures value == entries[at].value
    {
      if direction == Forward {
        StandingHere();
        var e := CurrentEntry();
        value := e.value;
      } else {
        value := savedValue;
      }
    }

    /** The forward loop: from the current position to the next shown entry, past user keys up
        to `skip` if asked. */
    method FindNextUserEntry(skipping: bool, skip: UserKey)
      requires Ready() && Internal().Valid() && direction.Forward?
      requires NothingSplit(entries, snapshot, Internal().pos, skipping, skip)
      modifies this`savedKey, this`valid, this`at, Parts()
      ensures Valid()
      ensures Position() == FirstWanted(entries, snapshot, old(Internal()).pos, skipping, skip)
    {
      hide NothingSplit, Skimmed, Shown, FirstWanted, Ready, Sorted, Standing, Internal, PassedOver;
      ReadyParts();
      ghost var from := Internal().pos;
      var skipping', skip' := skipping, skip;
      NothingSkimmed(entries, snapshot, from, skipping, skip);
      var more := true;
      while more
        invariant Ready() && from <= Internal().pos <= |entries| && more == Internal().Valid()
        invariant Skimmed(entries, snapshot, from, Internal().pos, skipping, skip, skipping', skip')
        decreases |entries| - Internal().pos
      {
        ghost var i := Internal().pos;
        var e := CurrentEntry();
        var ikey := e.key;
        SkimStep(entries, snapshot, from, i, skipping, skip, skipping', skip');
        if ikey.sequence <= snapshot {
          if ikey.kind.Deletion? {
            skip' := ikey.user;
            skipping' := true;
          } else if !(skipping' && ikey.user <= skip') {
            StandsOn(entries, snapshot, Internal(), savedKey, savedValue);
            valid := true;
            savedKey := 0;
            at := Internal().pos;
            return;
          }
        }
        StepForward();
        SkimOver(entries, snapshot, from, i + 1, Internal().pos, skipping, skip, skipping', skip');
        more := HasCurrent();
        ReadyParts();
      }
      savedKey := 0;
      valid := false;
      AllSkimmed(entries, snapshot, from, skipping, skip, skipping', skip');
      StandsNowhere(entries, snapshot, Internal(), direction, at, savedKey, savedValue);
    }

    /** The backward loop: saves the last value it has passed that nothing visible hides, and
        stops on a visible entry of a smaller user key. */
    method ScanBack() returns (valueType: Kind, ghost k: nat)
      requires Ready() && direction.Reverse?
      modifies this`savedKey, this`savedValue, Parts()
      ensures Ready() && Internal().pos <= |entries|
      ensures Scanned(entries, snapshot, Remaining(Internal()), Remaining(old(Internal())), valueType, k, savedKey,
                      savedValue)
      ensures Internal().Valid() ==>
                valueType.Value? && Internal().Key().user < savedKey && Internal().Key().sequence <= snapshot
    {
      hide Scanned, Ready, Sorted, Internal, PassedOver;
      ReadyParts();
      ghost var top := Remaining(Internal());
      valueType, k := Deletion, 0;
      NothingScanned(entries, snapshot, top, savedKey, savedValue);
      var searching := HasCurrent();
      while searching
        invariant Ready() && Remaining(Internal()) <= top && Internal().pos <= |entries|
        invariant searching ==> Internal().Valid()
        invariant Scanned(entries, snapshot, Remaining(Internal()), top, valueType, k, savedKey, savedValue)
        invariant !searching && Internal().Valid() ==>
                    valueType.Value? && Internal().Key().user < savedKey && Internal().Key().sequence <= snapshot
        decreases Remaining(Internal()), searching
      {
        var e := CurrentEntry();
        var ikey := e.key;
        ghost var c := Internal().pos;
        ScanStep(entries, snapshot, c, top, valueType, k, savedKey, savedValue);
        if ikey.sequence <= snapshot && valueType != Deletion && ikey.user < savedKey {
          searching := false;
        } else {
          if ikey.sequence <= snapshot {
            valueType := ikey.kind;
            if valueType == Deletion {
              savedKey := 0;
              savedValue := "";
            } else {
              savedKey := ikey.user;
              savedValue := e.value;
              k := c;
            }
          }
          StepBack();
          ScanOver(entries, snapshot, Remaining(Internal()), c, top, valueType, k, savedKey, savedValue);
          searching := HasCurrent();
        }
      }
    }

    /** The last shown entry at or before the internal position. */
    method FindPrevUserEntry()
      requires Ready() && direction.Reverse?
      modifies this`savedKey, this`savedValue, this`valid, this`at, this`direction, Parts()
      ensures Valid() && (valid ==> direction.Reverse?)
      ensures Position() == PrevShown(entries, snapshot, Remaining(old(Internal())))
    {
      hide Shown, Scanned, Standing, Ready, Sorted, PrevShown, Internal, PassedOver;
      ghost var top := Remaining(Internal());
      var valueType, k := ScanBack();
      ReadyParts();
      if valueType == Deletion {
        NothingFound(entries, snapshot, Internal(), top, k, savedKey, savedValue);
        valid := false;
        savedKey := 0;
        savedValue := "";
        direction := Forward;
      } else {
        EntryFound(entries, snapshot, Internal(), top, k, savedKey, savedValue);
        valid := true;
        at := k;
      }
    }

    method SeekToFirst()
      requires Valid()
      modifies this, Parts()
      ensures Valid() && Position() == NextShown(entries, snapshot, 0) && direction.Forward?
      ensures entries == old(entries) && runs == old(runs)
    {
      hide NextShown, FirstWanted, NothingSplit, Ready, Sorted, Standing, Internal, PassedOver;
      ReadyParts();
      direction := Forward;
      savedValue := "";
      MoveToFirst();
      var ok := HasCurrent();
      FromTheStart(entries, snapshot, savedKey);
      if ok {
        FindNextUserEntry(false, savedKey);
      } else {
        valid := false;
        StandsNowhere(entries, snapshot, Internal(), direction, at, savedKey, savedValue);
      }
    }

    method SeekToLast()
      requires Valid()
      modifies this, Parts()
      ensures Valid() && Position() == PrevShown(entries, snapshot, |entries|) && (valid ==> direction.Reverse?)
      ensures entries == old(entries) && runs == old(runs)
    {
      hide Ready, Standing, Sorted, Internal, PassedOver;
      ReadyParts();
      direction := Reverse;
      savedValue := "";
      MoveToLast();
      FindPrevUserEntry();
    }

    /** To the first shown entry whose user key is at or after `target`. */
    method Seek(target: UserKey)
      requires Valid()
      modifies this, Parts()
      ensures Valid() && FirstFrom(entries, snapshot, target, Position()) && direction.Forward?
      ensures entries == old(entries) && runs == old(runs)
    {
      hide SeekIndex, Ready, Sorted, Standing, FirstWanted, NothingSplit, NextShown, FirstFrom, Internal, PassedOver;
      ReadyParts();
      direction := Forward;
      savedValue := "";
      savedKey := 0;
      var key := LookupKey(target, snapshot);
      ghost var from := SeekIndex(entries, key);
      MoveTo(key);
      SoughtFrom(entries, snapshot, target);
      var ok := HasCurrent();
      if ok {
        FindNextUserEntry(false, savedKey);
        WantedUnskipped(entries, snapshot, from, 0);
      } else {
        valid := false;
        StandsNowhere(entries, snapshot, Internal(), direction, at, savedKey, savedValue);
      }
    }

    /** Change of direction: to the first entry past the smaller user keys, which is the current
        one or newer than the snapshot. */
    method TurnAhead()
      requires Valid() && valid && direction.Reverse?
      modifies this`direction, Parts()
      ensures Ready() && direction.Forward? && Internal().pos <= at < |entries| && Shown(entries, snapshot, at)
      ensures PassedOver(entries, snapshot, Internal().pos, at)
    {
      hide Shown, Ready, Standing, Sorted, Internal, PassedOver;
      ReadyParts();
      StandingParts(entries, snapshot, Internal(), direction, at, savedKey, savedValue);
      ghost var was := Internal();
      direction := Forward;
      var ok := HasCurrent();
      if !ok {
        MoveToFirst();
      } else {
        StepForward();
      }
      NextToAt(entries, snapshot, was, Internal().pos, at);
    }

    method Next()
      requires Valid() && valid
      modifies this, Parts()
      ensures Valid() && Position() == NextShown(entries, snapshot, old(at) + 1) && direction.Forward?
      ensures entries == old(entries) && runs == old(runs)
    {
      hide Shown, NextShown, FirstWanted, NothingSplit, Ready, Standing, Sorted, Internal, PassedOver;
      ReadyParts();
      StandingParts(entries, snapshot, Internal(), direction, at, savedKey, savedValue);
      if direction == Reverse {
        TurnAhead();
        ReadyParts();
      } else {
        var e := CurrentEntry();
        savedKey := e.key.user;
        NonePassed(entries, snapshot, at);
      }
      WantedAfter(entries, snapshot, at, Internal().pos);
      FindNextUserEntry(true, savedKey);
    }

    /** From the current entry back to a smaller user key, or off the front. */
    method LeaveKey(ghost p: nat)
      requires Ready() && Internal().pos == p < |entries| && savedKey == entries[p].key.user
      modifies Parts()
      ensures Ready() && Remaining(Internal()) <= p
      ensures SameKeyOrHidden(entries, snapshot, Remaining(Internal()), p, savedKey)
    {
      hide Ready, Sorted, Internal, PassedOver, SameKeyOrHidden;
      ReadyParts();
      StepBack();
      LeftBehind(entries, snapshot, Remaining(Internal()), p, p, savedKey);
      var back := AtKey();
      while back
        invariant Ready() && Remaining(Internal()) <= p
        invariant SameKeyOrHidden(entries, snapshot, Remaining(Internal()), p, savedKey)
        invariant back ==> Internal().Valid() && Internal().Key().user >= savedKey
        decreases Remaining(Internal())
      {
        UsersAscend(entries, Internal().pos, p);
        ghost var c := Internal().pos;
        StepBack();
        LeftBehind(entries, snapshot, Remaining(Internal()), c, p, savedKey);
        back := AtKey();
      }
    }

    /** Whether the internal iterator is still on the saved user key. */
    method AtKey() returns (r: bool)
      requires Ready()
      ensures r == (Internal().Valid() && Internal().Key().user >= savedKey)
    {
      hide Ready, Internal;
      ReadyParts();
      r := HasCurrent();
      if r {
        var e := CurrentEntry();
        r := e.key.user >= savedKey;
      }
    }

    /** Change of direction: from the current entry, on which the internal iterator stands, back
        to a smaller user key; off the front there is nothing more. */
    method TurnBack() returns (more: bool)
      requires Valid() && valid && direction.Forward?
      modifies this, Parts()
      ensures Ready() && entries == old(entries) && runs == old(runs)
      ensures PrevShown(entries, snapshot, Remaining(Internal())) == PrevShown(entries, snapshot, old(at))
      ensures if more then direction.Reverse?
              else Valid() && Position() == None && PrevShown(entries, snapshot, old(at)) == None
    {
      hide PrevShown, Shown, Ready, Sorted, JustBefore, Standing, Internal, PassedOver;
      ReadyParts();
      StandingParts(entries, snapshot, Internal(), direction, at, savedKey, savedValue);
      var e := CurrentEntry();
      savedKey := e.key.user;
      LeaveKey(at);
      SameKeyNotShown(entries, snapshot, Remaining(Internal()), at);
      more := HasCurrent();
      if more {
        direction := Reverse;
      } else {
        valid := false;
        savedKey := 0;
        savedValue := "";
        NoneAtAll(entries, snapshot);
        StandsNowhere(entries, snapshot, Internal(), direction, at, savedKey, savedValue);
      }
    }

    method Prev()
      requires Valid() && valid
      modifies this, Parts()
      ensures Valid() && Position() == PrevShown(entries, snapshot, old(at)) && (valid ==> direction.Reverse?)
      ensures entries == old(entries) && runs == old(runs)
    {
      hide PrevShown, Shown, Ready, Sorted, JustBefore, Standing, Internal, PassedOver;
      ReadyParts();
      var more := true;
      if direction == Forward {
        more := TurnBack();
      } else {
        StandingParts(entries, snapshot, Internal(), direction, at, savedKey, savedValue);
        BetweenNotShown(entries, snapshot, Internal(), at);
      }
      if more {
        FindPrevUserEntry();
      }
    }
  }

  // ---- scanning backward ----

  /** How many entries are at or before the position of a cursor moving backward. */
  function Remaining(c: Cursor): nat {
    if c.Valid() then c.pos + 1 else 0
  }

  ghost predicate NoneShown(entries: seq<Entry>, s: nat, from: nat, to: nat) {
    forall i :: from <= i < to ==> !Shown(entries, s, i)
  }

  /** Entry `k` is a visible value, no entry from `from` up to it is visible, and nothing
      after it is shown. */
  ghost predicate Candidate(entries: seq<Entry>, s: nat, from: nat, k: nat, to: nat) {
    && from <= k < to <= |entries|
    && entries[k].key.sequence <= s && entries[k].key.kind.Value?
    && (forall j :: from <= j < k ==> entries[j].key.sequence > s)
    && NoneShown(entries, s, k + 1, to)
  }

  /** The scan passes entry `c`. */
  lemma CandidateStep(entries: seq<Entry>, s: nat, c: nat, k: nat, to: nat)
    requires Sorted(entries) && c < to <= |entries|
    ensures NoneShown(entries, s, c + 1, to) && !(entries[c].key.sequence <= s && entries[c].key.kind.Value?) ==>
            NoneShown(entries, s, c, to)
    ensures NoneShown(entries, s, c + 1, to) && entries[c].key.sequence <= s && entries[c].key.kind.Value? ==>
              Candidate(entries, s, c, c, to)
    ensures Candidate(entries, s, c + 1, k, to) && entries[c].key.sequence > s ==> Candidate(entries, s, c, k, to)
    ensures Candidate(entries, s, c + 1, k, to) && entries[c].key.sequence <= s &&
            entries[c].key.user >= entries[k].key.user ==>
              NoneShown(entries, s, c + 1, to)
  {
    if Candidate(entries, s, c + 1, k, to) { UsersAscend(entries, c, k); }
  }

  /** What the backward loop knows once it has passed all entries from `n` on up to `top`. */
  ghost predicate Scanned(entries: seq<Entry>, s: nat, n: nat, top: nat, kind: Kind, k: nat, key: UserKey,
                          value: string)
  {
    && n <= top <= |entries|
    && (kind.Deletion? ==> NoneShown(entries, s, n, top))
    && (kind.Value? ==>
          Candidate(entries, s, n, k, top) && key == entries[k].key.user && value == entries[k].value)
  }

  lemma NothingScanned(entries: seq<Entry>, s: nat, top: nat, key: UserKey, value: string)
    requires top <= |entries|
    ensures Scanned(entries, s, top, top, Deletion, 0, key, value)
  {
  }

  /** The scan passes entry `c`. */
  lemma ScanStep(entries: seq<Entry>, s: nat, c: nat, top: nat, kind: Kind, k: nat, key: UserKey, value: string)
    requires Sorted(entries) && c < |entries| && Scanned(entries, s, c + 1, top, kind, k, key, value)
    ensures var e := entries[c];
      && (e.key.sequence > s ==> Scanned(entries, s, c, top, kind, k, key, value))
      && (e.key.sequence <= s && !(kind.Value? && e.key.user < key) ==>
            if e.key.kind.Deletion? then Scanned(entries, s, c, top, Deletion, k, 0, "")
            else Scanned(entries, s, c, top, Value, c, e.key.user, e.value))
  {
    hide Shown, Sorted;
    CandidateStep(entries, s, c, k, top);
  }

  lemma NothingFound(entries: seq<Entry>, s: nat, iter: Cursor, top: nat, k: nat, key: UserKey, value: string)
    requires Sorted(entries) && iter.entries == entries && !iter.Valid()
    requires Scanned(entries, s, 0, top, Deletion, k, key, value)
    ensures PrevShown(entries, s, top) == None && Standing(entries, s, iter, false, Forward, k, 0, "")
    ensures forall at :: Standing(entries, s, iter, false, Forward, at, 0, "")
  {
    hide Shown, Sorted;
    NoneBefore(entries, s, top);
  }

  lemma EntryFound(entries: seq<Entry>, s: nat, iter: Cursor, top: nat, k: nat, key: UserKey, value: string)
    requires Sorted(entries) && iter.entries == entries
    requires Scanned(entries, s, Remaining(iter), top, Value, k, key, value)
    requires iter.Valid() ==> iter.Key().user < key && iter.Key().sequence <= s
    ensures PrevShown(entries, s, top) == Some(k) && Standing(entries, s, iter, true, Reverse, k, key, value)
  {
    hide Shown, Sorted, PrevShown, NoneShown;
    CandidateShown(entries, s, iter, k, top);
  }

  // ---- growing runs ----

  /** The union gains entries newer than the snapshot only. */
  ghost predicate GrownBy(entries: seq<Entry>, more: seq<Entry>, s: nat) {
    && Sorted(entries) && Sorted(more) && (forall e :: e in entries ==> e in more)
    && forall e :: e in more && e !in entries ==> e.key.sequence > s
  }

  lemma GrownParts(entries: seq<Entry>, more: seq<Entry>, s: nat)
    requires GrownBy(entries, more, s)
    ensures Sorted(entries) && Sorted(more) && forall e :: e in entries ==> e in more
    ensures forall e :: e in more && e.key.sequence <= s ==> e in entries
  {
  }

  lemma FullSorted(iter: MergingIterator)
    requires iter.Valid() && iter.union == iter.full
    ensures Sorted(iter.full) && iter.at <= |iter.union|
  {
  }

  lemma FullGrown(entries: seq<Entry>, more: seq<Entry>, runs: seq<seq<Entry>>, c: nat, later: seq<Entry>, s: nat)
    requires IsUnion(entries, runs) && c < |runs| && IsUnion(more, runs[c := later])
    requires (forall e :: e in runs[c] ==> e in later) && forall e :: e in later && e !in runs[c] ==> e.key.sequence > s
    ensures GrownBy(entries, more, s)
  {
    hide Sorted;
    var runs' := runs[c := later];
    forall e | e in entries ensures e in more {
      var i :| 0 <= i < |runs| && e in runs[i];
      assert e in runs'[i];
    }
    forall e | e in more && e !in entries ensures e.key.sequence > s {
      var i :| 0 <= i < |runs'| && e in runs'[i];
      if i == c { assert e !in runs[c]; }
    }
  }

  /** More entries are met, and more there are to meet. */
  lemma GrownTwice(met: seq<Entry>, entries: seq<Entry>, met': seq<Entry>, more: seq<Entry>, s: nat)
    requires GrownBy(met, entries, s) && GrownBy(entries, more, s)
    requires Sorted(met') && (forall e :: e in met ==> e in met') && forall e :: e in met' ==> e in more
    ensures GrownBy(met', more, s)
  {
    hide Sorted;
  }

  // ---- steps of the internal iterator among all entries ----

  ghost predicate PassedOver(entries: seq<Entry>, s: nat, from: nat, to: nat) {
    forall j :: from <= j < to && j < |entries| ==> entries[j].key.sequence > s
  }

  lemma NonePassed(entries: seq<Entry>, s: nat, at: nat)
    ensures PassedOver(entries, s, at, at)
  {
  }

  /** A step forward from just before a visible entry does not pass it. */
  lemma NextToAt(entries: seq<Entry>, s: nat, was: Cursor, now: nat, at: nat)
    requires was.entries == entries && at < |entries| && entries[at].key.sequence <= s
    requires Remaining(was) <= at && PassedOver(entries, s, Remaining(was), at)
    requires if was.Valid() then was.pos < now && PassedOver(entries, s, was.pos + 1, now) else now == 0
    ensures now <= at && PassedOver(entries, s, now, at)
  {
    assert was.Valid() ==> !(was.pos + 1 <= at < now);
  }

  /** When it meets all entries. */
  lemma AllMet(entries: seq<Entry>, c: Cursor, s: nat)
    requires c.entries == entries && Sorted(entries) && c.pos <= |entries|
    ensures Regrown(c, entries) == c && GrownBy(entries, entries, s)
  {
    if c.Valid() { SeekIndexOfMember(entries, c.pos); }
  }

  lemma StepOver(entries: seq<Entry>, was: Cursor, now: Cursor, s: nat)
    requires GrownBy(was.entries, entries, s) && was.Valid() && now == was.Next()
    ensures var i, j := Regrown(was, entries).pos, Regrown(now, entries).pos;
      i < j <= |entries| && PassedOver(entries, s, i + 1, j)
  {
    hide GrownBy, SeekIndex, Sorted;
    GrownParts(was.entries, entries, s);
    var i, j := Regrown(was, entries).pos, Regrown(now, entries).pos;
    RegrownOn(was, entries);
    if now.Valid() {
      RegrownOn(now, entries);
      Ordered(was.entries, was.pos, now.pos);
      Ordered(entries, i, j);
    }
    forall k | i + 1 <= k < j && k < |entries| && entries[k].key.sequence <= s ensures false {
      assert entries[k] in entries;
      var m :| 0 <= m < |was.entries| && was.entries[m] == entries[k];
      Ordered(entries, i, k);
      Ordered(was.entries, was.pos, m);
      if now.Valid() {
        Ordered(entries, k, j);
        Ordered(was.entries, m, now.pos);
      }
    }
  }

  /** After a change of direction it meets all entries. */
  lemma SteppedOn(entries: seq<Entry>, was: Cursor, now: Cursor, s: nat)
    requires GrownBy(was.entries, entries, s) && was.Valid()
    requires now == Cursor(entries, SeekIndex(entries, was.Key()) + 1)
    ensures var i, j := Regrown(was, entries).pos, Regrown(now, entries).pos;
      i < j <= |entries| && PassedOver(entries, s, i + 1, j)
    ensures GrownBy(entries, entries, s)
  {
    hide GrownBy, SeekIndex, Sorted;
    GrownParts(was.entries, entries, s);
    RegrownOn(was, entries);
    AllMet(entries, now, s);
  }

  lemma StepBackOver(entries: seq<Entry>, was: Cursor, now: Cursor, s: nat)
    requires GrownBy(was.entries, entries, s) && was.Valid() && now == was.Prev()
    ensures var i, n := Regrown(was, entries).pos, Remaining(Regrown(now, entries));
      n <= i <= |entries| && PassedOver(entries, s, n, i)
  {
    hide GrownBy, SeekIndex, Sorted;
    GrownParts(was.entries, entries, s);
    var i, n := Regrown(was, entries).pos, Remaining(Regrown(now, entries));
    RegrownOn(was, entries);
    if now.Valid() {
      RegrownOn(now, entries);
      Ordered(was.entries, now.pos, was.pos);
      Ordered(entries, n - 1, i);
    }
    forall k | n <= k < i && k < |entries| && entries[k].key.sequence <= s ensures false {
      assert entries[k] in entries;
      var m :| 0 <= m < |was.entries| && was.entries[m] == entries[k];
      Ordered(entries, k, i);
      Ordered(was.entries, m, was.pos);
      if now.Valid() {
        Ordered(entries, n - 1, k);
        Ordered(was.entries, now.pos, m);
      }
    }
  }

  lemma SteppedBack(entries: seq<Entry>, was: Cursor, now: Cursor, s: nat)
    requires GrownBy(was.entries, entries, s) && was.Valid()
    requires var n := SeekIndex(entries, was.Key()); now == Cursor(entries, if n == 0 then |entries| else n - 1)
    ensures var i, n := Regrown(was, entries).pos, Remaining(Regrown(now, entries));
      n <= i <= |entries| && PassedOver(entries, s, n, i)
    ensures GrownBy(entries, entries, s)
  {
    hide GrownBy, SeekIndex, Sorted;
    GrownParts(was.entries, entries, s);
    RegrownOn(was, entries);
    AllMet(entries, now, s);
  }

  lemma SkimOver(entries: seq<Entry>, s: nat, from: nat, i: nat, j: nat, skipping: bool, skip: UserKey,
                 skipping': bool, skip': UserKey)
    requires Skimmed(entries, s, from, i, skipping, skip, skipping', skip') && i <= j && PassedOver(entries, s, i, j)
    ensures Skimmed(entries, s, from, j, skipping, skip, skipping', skip')
  {
    var a, b := FirstWanted(entries, s, i, skipping, skip), FirstWanted(entries, s, j, skipping, skip);
    assert a.Some? ==> Shown(entries, s, a.value) && a.value >= j;
    assert b.Some? ==> Shown(entries, s, b.value);
  }

  lemma ScanOver(entries: seq<Entry>, s: nat, n: nat, c: nat, top: nat, kind: Kind, k: nat, key: UserKey, value: string)
    requires Scanned(entries, s, c, top, kind, k, key, value) && n <= c && PassedOver(entries, s, n, c)
    ensures Scanned(entries, s, n, top, kind, k, key, value)
  {
    assert forall j :: n <= j < c && j < |entries| ==> !Shown(entries, s, j);
  }

  /** Newer entries hide nothing at the snapshot and are not shown: what is shown stays shown. */
  lemma ShownGrown(entries: seq<Entry>, more: seq<Entry>, s: nat, i: nat, j: nat)
    requires GrownBy(entries, more, s) && i < |entries| && j < |more| && more[j] == entries[i]
    ensures Shown(entries, s, i) <==> Shown(more, s, j)
  {
    hide GrownBy;
    GrownParts(entries, more, s);
    if Shown(entries, s, i) {
      forall k | 0 <= k < j && more[k].key.sequence <= s ensures more[k].key.user != more[j].key.user {
        assert more[k] in more;
        var m :| 0 <= m < |entries| && entries[m] == more[k];
        SortedIndex(more, k, j);
        SortedIndex(entries, m, i);
      }
    }
    if Shown(more, s, j) {
      forall k | 0 <= k < i && entries[k].key.sequence <= s ensures entries[k].key.user != entries[i].key.user {
        assert entries[k] in entries;
        var m :| 0 <= m < |more| && more[m] == entries[k];
        SortedIndex(entries, k, i);
        SortedIndex(more, m, j);
      }
    }
  }

  /** The internal cursor on its old entry, or off the end if it was. */
  ghost predicate SameSpot(was: Cursor, now: Cursor) {
    && was.Valid() == now.Valid()
    && (was.Valid() ==> now.entries[now.pos] == was.entries[was.pos])
  }

  /** In both directions the iterator still stands on its entry after the union has grown. */
  lemma StandingGrown(entries: seq<Entry>, more: seq<Entry>, s: nat, was: Cursor, now: Cursor, valid: bool,
                      direction: Direction, at: nat, key: UserKey, value: string)
    requires GrownBy(entries, more, s) && Standing(entries, s, was, valid, direction, at, key, value)
    requires now.entries == more && SameSpot(was, now) && (valid ==> at < |entries|)
    ensures valid ==> entries[at] in more
    ensures Standing(more, s, now, valid, direction, if valid then SeekIndex(more, entries[at].key) else at, key, value)
  {
    hide Shown, SeekIndex, GrownBy;
    GrownParts(entries, more, s);
    if valid {
      assert entries[at] in entries;
      MemberIndex(more, entries[at]);
      var at' := SeekIndex(more, entries[at].key);
      ShownGrown(entries, more, s, at, at');
      if direction.Forward? {
        assert was.Valid() by { ShownIndex(entries, s, at); }
        SortedIndex(more, now.pos, at');
        SortedIndex(more, at', now.pos);
      } else {
        BeforeGrown(entries, more, s, was, now, at, at');
      }
    }
  }

  lemma ShownIndex(entries: seq<Entry>, s: nat, i: nat)
    requires Shown(entries, s, i)
    ensures i < |entries|
  {
  }

  lemma BeforeGrown(entries: seq<Entry>, more: seq<Entry>, s: nat, was: Cursor, now: Cursor, at: nat, at': nat)
    requires GrownBy(entries, more, s) && was.entries == entries && now.entries == more && SameSpot(was, now)
    requires at < |entries| && at' < |more| && more[at'] == entries[at] && JustBefore(entries, s, was, at)
    ensures JustBefore(more, s, now, at')
  {
    hide GrownBy;
    GrownParts(entries, more, s);
    if now.Valid() { SortedIndex(more, now.pos, at'); }
    forall j | (if now.pos < |more| then now.pos else -1) < j < at' ensures more[j].key.sequence > s {
      assert more[j] in more;
      if more[j].key.sequence <= s {
        var m :| 0 <= m < |entries| && entries[m] == more[j];
        SortedIndex(more, j, at');
        SortedIndex(entries, m, at);
        if now.Valid() {
          SortedIndex(more, now.pos, j);
          SortedIndex(entries, was.pos, m);
        }
      }
    }
  }

  // ---- standing somewhere ----

  lemma StandingParts(entries: seq<Entry>, s: nat, iter: Cursor, direction: Direction, at: nat, key: UserKey,
                      value: string)
    requires Standing(entries, s, iter, true, direction, at, key, value)
    ensures Shown(entries, s, at) && at < |entries| && entries[at].key.sequence <= s
    ensures direction.Forward? ==> iter.pos == at
    ensures direction.Reverse? ==> key == entries[at].key.user && JustBefore(entries, s, iter, at)
    ensures direction.Reverse? ==>
              (iter.Valid() ==> iter.pos < at) && PassedOver(entries, s, Remaining(iter), at)
  {
  }

  lemma StandsOn(entries: seq<Entry>, s: nat, iter: Cursor, key: UserKey, value: string)
    requires Sorted(entries) && iter.entries == entries && Shown(entries, s, iter.pos)
    ensures forall k: UserKey :: Standing(entries, s, iter, true, Forward, iter.pos, k, value)
  {
  }

  lemma StandsNowhere(entries: seq<Entry>, s: nat, iter: Cursor, direction: Direction, at: nat, key: UserKey,
                      value: string)
    requires Sorted(entries) && iter.entries == entries
    ensures Standing(entries, s, iter, false, direction, at, key, value)
  {
  }

  lemma NoneAtAll(entries: seq<Entry>, s: nat)
    ensures PrevShown(entries, s, 0) == None
  {
  }

  lemma NoneBefore(entries: seq<Entry>, s: nat, to: nat)
    ensures NoneShown(entries, s, 0, to) ==> PrevShown(entries, s, to) == None
  {
  }

  lemma CandidateShown(entries: seq<Entry>, s: nat, iter: Cursor, k: nat, to: nat)
    requires Sorted(entries) && iter.entries == entries && Candidate(entries, s, Remaining(iter), k, to)
    requires iter.Valid() ==> iter.Key().user < entries[k].key.user && iter.Key().sequence <= s
    ensures Shown(entries, s, k) && JustBefore(entries, s, iter, k) && PrevShown(entries, s, to) == Some(k)
  {
    forall j | 0 <= j < k && entries[j].key.sequence <= s ensures entries[j].key.user != entries[k].key.user {
      if iter.Valid() && j <= iter.pos { UsersAscend(entries, j, iter.pos); }
    }
    assert Shown(entries, s, k);
  }

  ghost predicate SameKeyOrHidden(entries: seq<Entry>, s: nat, from: nat, to: nat, user: UserKey) {
    forall j :: from <= j < to && j < |entries| ==> entries[j].key.user == user || entries[j].key.sequence > s
  }

  /** One step further back. */
  lemma LeftBehind(entries: seq<Entry>, s: nat, r: nat, c: nat, p: nat, user: UserKey)
    requires r <= c <= p && PassedOver(entries, s, r, c)
    requires c < p ==> c < |entries| && entries[c].key.user == user && SameKeyOrHidden(entries, s, c + 1, p, user)
    ensures SameKeyOrHidden(entries, s, r, p, user)
  {
  }

  lemma SameKeyNotShown(entries: seq<Entry>, s: nat, from: nat, p: nat)
    requires Shown(entries, s, p) && from <= p
    requires SameKeyOrHidden(entries, s, from, p, entries[p].key.user)
    ensures PrevShown(entries, s, p) == PrevShown(entries, s, from)
  {
    forall j | from <= j < p ensures !Shown(entries, s, j) { }
  }

  lemma BetweenNotShown(entries: seq<Entry>, s: nat, iter: Cursor, p: nat)
    requires Shown(entries, s, p) && iter.entries == entries && JustBefore(entries, s, iter, p)
    ensures PrevShown(entries, s, p) == PrevShown(entries, s, Remaining(iter))
  {
    forall j | Remaining(iter) <= j < p ensures !Shown(entries, s, j) { }
  }

  // ---- where the internal iterator is when moving backward ----

  /** It is before every entry of the current user key, visible at the snapshot or not. */
  lemma BeforeWholeKey(it: DbIterator, j: nat)
    requires it.Valid() && it.valid && it.direction.Reverse?
    requires j < |it.entries| && it.entries[j].key.user == it.entries[it.at].key.user
    ensures Remaining(it.Internal()) <= j
  {
    if it.Internal().Valid() && j <= it.Internal().pos { UsersAscend(it.entries, j, it.Internal().pos); }
  }

  /** Entry `j` has a smaller user key than entry `at`, and from that key up to that of `at`
      there is nothing but entries newer than the snapshot. */
  ghost predicate HiddenUpTo(entries: seq<Entry>, s: nat, j: nat, at: nat) {
    && j < |entries| && at < |entries| && entries[j].key.user < entries[at].key.user
    && forall i :: 0 <= i < |entries| && entries[j].key.user <= entries[i].key.user < entries[at].key.user ==>
       entries[i].key.sequence > s
  }

  lemma NextKeyIff(entries: seq<Entry>, s: nat, iter: Cursor, at: nat)
    requires Sorted(entries) && at < |entries| && iter.entries == entries && JustBefore(entries, s, iter, at)
    ensures Remaining(iter) <= at
    ensures entries[Remaining(iter)].key.user == entries[at].key.user <==> !exists j :: HiddenUpTo(entries, s, j, at)
  {
    hide Sorted;
    var r := Remaining(iter);
    UsersAscend(entries, r, at);
    if entries[r].key.user == entries[at].key.user {
      forall j | HiddenUpTo(entries, s, j, at) ensures false {
        if r <= j { UsersAscend(entries, r, j); } else { UsersAscend(entries, j, iter.pos); }
      }
    } else {
      forall i | 0 <= i < |entries| && entries[r].key.user <= entries[i].key.user < entries[at].key.user
        ensures entries[i].key.sequence > s
      {
        HiddenFromNext(entries, s, iter, at, i);
      }
      assert HiddenUpTo(entries, s, r, at);
    }
  }

  /** The next entry behind the internal iterator has the current user key exactly when the
      user key before the current one, if any, has an entry that is visible at the snapshot. */
  lemma JustBeforeKeyIff(it: DbIterator)
    requires it.Valid() && it.valid && it.direction.Reverse?
    ensures Remaining(it.Internal()) <= it.at
    ensures it.entries[Remaining(it.Internal())].key.user == it.entries[it.at].key.user <==>
            !exists j :: HiddenUpTo(it.entries, it.snapshot, j, it.at)
  {
    hide DbIterator.Ready, DbIterator.Internal, Standing, Shown, JustBefore, Sorted, HiddenUpTo;
    it.ReadyParts();
    StandingParts(it.entries, it.snapshot, it.Internal(), it.direction, it.at, it.savedKey, it.savedValue);
    NextKeyIff(it.entries, it.snapshot, it.Internal(), it.at);
  }

  lemma HiddenFromNext(entries: seq<Entry>, s: nat, iter: Cursor, at: nat, i: nat)
    requires Sorted(entries) && at < |entries| && i < |entries| && iter.entries == entries
    requires JustBefore(entries, s, iter, at)
    requires entries[Remaining(iter)].key.user <= entries[i].key.user < entries[at].key.user
    ensures entries[i].key.sequence > s
  {
    if at <= i {
      UsersAscend(entries, at, i);
    } else if iter.Valid() && i <= iter.pos {
      UsersAscend(entries, i, iter.pos);
      SortedIndex(entries, iter.pos, iter.pos + 1);
    }
  }

  /** An iterator at snapshot 3 on user key 3, with user key 2 between it and the internal
      iterator, since the only entry of that key has sequence number 5. */
  method HiddenKeyBetween() returns (it: DbIterator)
    ensures it.Valid() && it.valid && it.direction.Reverse? && it.snapshot == 3
    ensures it.entries[it.at].key.user == 3 && it.Internal().pos == 0 && it.entries[1].key == InternalKey(2, 5, Value)
  {
    hide MergingIterator.Valid, Shown, PrevShown, IsUnionOf, DbIterator.Ready, Standing;
    var entries := [Entry(InternalKey(1, 1, Value), "a"), Entry(InternalKey(2, 5, Value), "b"),
      Entry(InternalKey(3, 2, Value), "c")];
    SingleRun(entries);
    var run := new MemIterator(entries);
    var iter := new MergingIterator([Mem(run)], [Cursor(entries, |entries|)], entries);
    it := new DbIterator(iter, 3);
    it.SeekToLast();
    ThirdShown(entries);
    it.ReadyParts();
    StandingParts(entries, 3, it.Internal(), it.direction, it.at, it.savedKey, it.savedValue);
    FirstBeforeThird(entries, it.Internal());
  }

  lemma FirstBeforeThird(entries: seq<Entry>, iter: Cursor)
    requires entries == [Entry(InternalKey(1, 1, Value), "a"), Entry(InternalKey(2, 5, Value), "b"),
                         Entry(InternalKey(3, 2, Value), "c")]
    requires JustBefore(entries, 3, iter, 2)
    ensures iter.pos == 0
  {
    assert entries[0].key.sequence == 1 && entries[1].key.sequence == 5;
  }

  lemma ThirdShown(entries: seq<Entry>)
    requires entries == [Entry(InternalKey(1, 1, Value), "a"), Entry(InternalKey(2, 5, Value), "b"),
                         Entry(InternalKey(3, 2, Value), "c")]
    ensures PrevShown(entries, 3, |entries|) == Some(2)
  {
    var r := PrevShown(entries, 3, |entries|);
    assert |entries| == 3 && Shown(entries, 3, 2);
    assert r.Some? && r.value == 2;
  }

  lemma SingleRun(entries: seq<Entry>)
    requires Sorted(entries)
    ensures IsUnionOf(entries, [Cursor(entries, |entries|)])
  {
    assert RunsOf([Cursor(entries, |entries|)])[0] == entries;
  }

  // ---- scanning forward ----

  lemma FromTheStart(entries: seq<Entry>, s: nat, skip: UserKey)
    ensures NothingSplit(entries, s, 0, false, skip)
    ensures FirstWanted(entries, s, 0, false, skip) == NextShown(entries, s, 0)
    ensures entries == [] ==> NextShown(entries, s, 0) == None
  {
    WantedUnskipped(entries, s, 0, skip);
  }

  lemma WantedUnskipped(entries: seq<Entry>, s: nat, from: nat, skip: UserKey)
    ensures FirstWanted(entries, s, from, false, skip) == NextShown(entries, s, from)
  {
  }

  /** From the current entry, or from just after the internal position behind it. */
  lemma WantedAfter(entries: seq<Entry>, s: nat, at: nat, from: nat)
    requires Sorted(entries) && Shown(entries, s, at) && from <= at
    requires PassedOver(entries, s, from, at)
    ensures NothingSplit(entries, s, from, true, entries[at].key.user)
    ensures FirstWanted(entries, s, from, true, entries[at].key.user) == NextShown(entries, s, at + 1)
  {
    var user := entries[at].key.user;
    forall j | from <= j < |entries| && entries[j].key.sequence <= s ensures user <= entries[j].key.user {
      UsersAscend(entries, at, j);
    }
    forall i | 0 <= i < from ensures entries[i].key.user <= user { UsersAscend(entries, i, at); }
    forall i: nat | Shown(entries, s, i) ensures i > at <==> entries[i].key.user > user {
      if i > at { ShownAscend(entries, s, at, i); } else { UsersAscend(entries, i, at); }
    }
  }

  /** The first shown entry with a user key at or after `target`. */
  ghost predicate FirstFrom(entries: seq<Entry>, s: nat, target: UserKey, r: Option<nat>) {
    match r
    case None => forall i: nat :: Shown(entries, s, i) ==> entries[i].key.user < target
    case Some(i) =>
      && Shown(entries, s, i) && entries[i].key.user >= target
      && forall j :: 0 <= j < i && Shown(entries, s, j) ==> entries[j].key.user < target
  }

  lemma SoughtFrom(entries: seq<Entry>, s: nat, target: UserKey)
    requires Sorted(entries)
    ensures var from := SeekIndex(entries, LookupKey(target, s));
      NothingSplit(entries, s, from, false, 0) && FirstFrom(entries, s, target, NextShown(entries, s, from))
  {
    var from := SeekIndex(entries, LookupKey(target, s));
    forall i: nat | i < |entries| && entries[i].key.sequence <= s ensures i < from <==> entries[i].key.user < target {
      if i > from { UsersAscend(entries, from, i); SortedIndex(entries, from, i); }
    }
  }

  /** Just before entry `at` on the way back: on a visible entry of a smaller user key or off
      the front, and no entry in between is visible. */
  ghost predicate JustBefore(entries: seq<Entry>, s: nat, iter: Cursor, at: nat)
    requires at < |entries|
  {
    && (iter.pos < |entries| ==>
        iter.pos < at && entries[iter.pos].key.user < entries[at].key.user && entries[iter.pos].key.sequence <= s)
    && forall j :: (if iter.pos < |entries| then iter.pos else -1) < j < at ==> entries[j].key.sequence > s
  }

  /** No visible entry before `from` has the user key of one at or after it, except keys the
      caller asks to skip; and those come first. */
  ghost predicate NothingSplit(entries: seq<Entry>, s: nat, from: nat, skipping: bool, skip: UserKey) {
    && (skipping ==> forall j :: from <= j < |entries| && entries[j].key.sequence <= s ==> skip <= entries[j].key.user)
    && forall i, j ::
      0 <= i < from <= j < |entries| && entries[i].key.sequence <= s && entries[i].key.user == entries[j].key.user ==>
      skipping && entries[i].key.user <= skip
  }

  /** First shown entry at or after `from`, with a user key past `skip` if asked. */
  ghost function FirstWanted(entries: seq<Entry>, s: nat, from: nat, skipping: bool, skip: UserKey): (r: Option<nat>)
    ensures r.Some? ==> from <= r.value && Shown(entries, s, r.value) && (skipping ==> entries[r.value].key.user > skip)
    ensures forall i :: from <= i && Shown(entries, s, i) && (skipping ==> entries[i].key.user > skip) ==>
            r.Some? && r.value <= i
    decreases |entries| - from
  {
    if from >= |entries| then None
    else if Shown(entries, s, from) && (skipping ==> entries[from].key.user > skip) then Some(from)
    else FirstWanted(entries, s, from + 1, skipping, skip)
  }

  /** All visible entries passed so far have user keys up to `skip`, or there are none. */
  ghost predicate HiddenTo(entries: seq<Entry>, s: nat, from: nat, to: nat, skipping: bool, skip: UserKey) {
    forall j :: from <= j < to && j < |entries| && entries[j].key.sequence <= s ==>
      skipping && entries[j].key.user <= skip
  }

  /** A deletion passed on the way hides the rest of its user key. */
  ghost predicate Hider(entries: seq<Entry>, s: nat, from: nat, to: nat, skip: UserKey) {
    exists d :: from <= d < to && d < |entries| && entries[d].key.sequence <= s && entries[d].key.user == skip
  }

  /** What the forward loop knows once it has passed the entries from `from` up to `to`. */
  ghost predicate Skimmed(entries: seq<Entry>, s: nat, from: nat, to: nat, skipping: bool, skip: UserKey,
                          skipping': bool, skip': UserKey)
  {
    && (skipping ==> skipping' && skip <= skip')
    && HiddenTo(entries, s, from, to, skipping', skip')
    && (skipping' ==> (skipping && skip' == skip) || Hider(entries, s, from, to, skip'))
    && FirstWanted(entries, s, to, skipping, skip) == FirstWanted(entries, s, from, skipping, skip)
  }

  lemma NothingSkimmed(entries: seq<Entry>, s: nat, from: nat, skipping: bool, skip: UserKey)
    ensures Skimmed(entries, s, from, from, skipping, skip, skipping, skip)
  {
    NothingPassed(entries, s, from, skipping, skip);
  }

  lemma AllSkimmed(entries: seq<Entry>, s: nat, from: nat, skipping: bool, skip: UserKey, skipping': bool,
                   skip': UserKey)
    requires Skimmed(entries, s, from, |entries|, skipping, skip, skipping', skip')
    ensures FirstWanted(entries, s, from, skipping, skip) == None
  {
    hide HiddenTo, Hider;
    NothingPassed(entries, s, from, skipping, skip);
  }

  /** The forward loop at entry `i`: it hides its user key, or is the answer, or is passed. */
  lemma SkimStep(entries: seq<Entry>, s: nat, from: nat, i: nat, skipping: bool, skip: UserKey, skipping': bool,
                 skip': UserKey)
    requires Sorted(entries) && from <= i < |entries| && NothingSplit(entries, s, from, skipping, skip)
    requires Skimmed(entries, s, from, i, skipping, skip, skipping', skip')
    ensures var e := entries[i].key;
      if e.sequence <= s && e.kind.Deletion? then Skimmed(entries, s, from, i + 1, skipping, skip, true, e.user)
      else if e.sequence <= s && !(skipping' && e.user <= skip') then
        Shown(entries, s, i) && FirstWanted(entries, s, from, skipping, skip) == Some(i)
      else Skimmed(entries, s, from, i + 1, skipping, skip, skipping', skip')
  {
    hide NothingSplit, HiddenTo, Hider, Shown, FirstWanted, Sorted;
    WantedHere(entries, s, from, i, skipping, skip, skipping', skip');
    Passed(entries, s, from, i, skipping, skip, skipping', skip');
  }

  lemma NothingPassed(entries: seq<Entry>, s: nat, from: nat, skipping: bool, skip: UserKey)
    ensures HiddenTo(entries, s, from, from, skipping, skip)
    ensures FirstWanted(entries, s, |entries|, skipping, skip) == None
  {
  }

  /** What is known after the loop passes entry `i`. */
  lemma Passed(entries: seq<Entry>, s: nat, from: nat, i: nat, skipping: bool, skip: UserKey, skipping': bool,
               skip': UserKey)
    requires Sorted(entries) && from <= i < |entries|
    requires NothingSplit(entries, s, from, skipping, skip) && HiddenTo(entries, s, from, i, skipping', skip')
    requires skipping ==> skipping' && skip <= skip'
    requires skipping' ==> (skipping && skip' == skip) || Hider(entries, s, from, i, skip')
    ensures var e := entries[i].key;
      if e.sequence <= s && e.kind.Deletion?
      then HiddenTo(entries, s, from, i + 1, true, e.user) && Hider(entries, s, from, i + 1, e.user) &&
        (skipping ==> skip <= e.user)
      else
        && ((e.sequence <= s ==> skipping' && e.user <= skip') ==> HiddenTo(entries, s, from, i + 1, skipping', skip'))
        && (Hider(entries, s, from, i, skip') ==> Hider(entries, s, from, i + 1, skip'))
  {
    forall j | from <= j < i ensures entries[j].key.user <= entries[i].key.user { UsersAscend(entries, j, i); }
  }

  /** The test of the loop accepts exactly the wanted shown entries. */
  lemma WantedHere(entries: seq<Entry>, s: nat, from: nat, i: nat, skipping: bool, skip: UserKey, skipping': bool,
                   skip': UserKey)
    requires Sorted(entries) && from <= i < |entries|
    requires NothingSplit(entries, s, from, skipping, skip) && HiddenTo(entries, s, from, i, skipping', skip')
    requires skipping ==> skipping' && skip <= skip'
    requires skipping' ==> (skipping && skip' == skip) || Hider(entries, s, from, i, skip')
    ensures (entries[i].key.sequence <= s && entries[i].key.kind.Value? &&
             !(skipping' && entries[i].key.user <= skip')) <==>
            (Shown(entries, s, i) && (skipping ==> entries[i].key.user > skip))
    ensures FirstWanted(entries, s, i, skipping, skip) ==
            if Shown(entries, s, i) && (skipping ==> entries[i].key.user > skip) then Some(i)
            else FirstWanted(entries, s, i + 1, skipping, skip)
    ensures skipping' && entries[i].key.sequence <= s ==> skip' <= entries[i].key.user || (skipping && skip' == skip)
  {
    if skipping' && Hider(entries, s, from, i, skip') {
      var d :| from <= d < i && d < |entries| && entries[d].key.sequence <= s && entries[d].key.user == skip';
      UsersAscend(entries, d, i);
    }
  }
}
