/** The compaction loop (db/db_impl.cc, `DoCompactionWork`) and the base-level test with its
    level pointers (db/version_set.cc, `Compaction::IsBaseLevelForKey`). */
module Compactions {
  import opened InternalKeys
  import opened VersionReads

  /** An output table: its metadata and what was written to it. */
  datatype Output = Output(meta: FileMeta, entries: seq<Entry>)

  /** No file of a level below the output level covers `user`. */
  ghost predicate BaseLevel(v: Levels, level: nat, user: UserKey)
    requires |v| == NUM_LEVELS
  {
    forall l, f :: level + 2 <= l < NUM_LEVELS && f in v[l] ==> !OverlapsUser(f, user)
  }

  // ---- which entries survive ----

  /** Value of `last_sequence_for_key` when the loop reaches entry `i`. */
  function LastSequenceForKey(input: seq<Entry>, i: nat): nat
    requires i < |input|
  {
    if i > 0 && input[i - 1].key.user == input[i].key.user then input[i - 1].key.sequence else MAX_SEQUENCE
  }

  /** Rule (A) and the deletion-marker rule. */
  ghost predicate Dropped(input: seq<Entry>, i: nat, smallest: nat, v: Levels, level: nat)
    requires i < |input| && |v| == NUM_LEVELS
  {
    var e := input[i].key;
    || LastSequenceForKey(input, i) <= smallest
    || (e.kind.Deletion? && e.sequence <= smallest && BaseLevel(v, level, e.user))
  }

  /** What the loop has kept of the first `n` entries. */
  ghost function Kept(input: seq<Entry>, n: nat, smallest: nat, v: Levels, level: nat): seq<Entry>
    requires n <= |input| && |v| == NUM_LEVELS
  {
    if n == 0 then []
    else if Dropped(input, n - 1, smallest, v, level) then Kept(input, n - 1, smallest, v, level)
    else Kept(input, n - 1, smallest, v, level) + [input[n - 1]]
  }

  lemma {:induction false} KeptMembers(input: seq<Entry>, n: nat, smallest: nat, v: Levels, level: nat)
    requires n <= |input| && |v| == NUM_LEVELS
    ensures forall e :: e in Kept(input, n, smallest, v, level) ==>
              exists i :: 0 <= i < n && input[i] == e && !Dropped(input, i, smallest, v, level)
    ensures forall i :: 0 <= i < n && !Dropped(input, i, smallest, v, level) ==>
              input[i] in Kept(input, n, smallest, v, level)
  {
    if n > 0 {
      KeptMembers(input, n - 1, smallest, v, level);
    }
  }

  lemma {:induction false} KeptSorted(input: seq<Entry>, n: nat, smallest: nat, v: Levels, level: nat)
    requires n <= |input| && |v| == NUM_LEVELS && Sorted(input)
    ensures Sorted(Kept(input, n, smallest, v, level))
    ensures forall e, j :: e in Kept(input, n, smallest, v, level) && n <= j < |input| ==>
              Before(e.key, input[j].key)
  {
    if n > 0 {
      KeptSorted(input, n - 1, smallest, v, level);
    }
  }

  /** The entries of a list of output tables, in order. */
  ghost function Flatten(outs: seq<Output>): seq<Entry> {
    if outs == [] then [] else Flatten(outs[..|outs| - 1]) + outs[|outs| - 1].entries
  }

  ghost predicate GoodOutput(o: Output) {
    && |o.entries| > 0
    && o.meta.smallest == o.entries[0].key
    && o.meta.largest == o.entries[|o.entries| - 1].key
  }

  /** Outputs carry consecutive new file numbers. */
  ghost predicate GoodOutputs(outs: seq<Output>, firstNumber: nat) {
    forall i :: 0 <= i < |outs| ==> GoodOutput(outs[i]) && outs[i].meta.number == firstNumber + i
  }

  // ---- the loop ----

  class Compaction {
    const level: nat
    const inputVersion: Levels
    var levelPtrs: seq<nat>
    ghost var asked: Option<UserKey>

    /** Pointers only skip files that end before the last key asked about. */
    ghost predicate Valid()
      reads this
    {
      && level + 1 < NUM_LEVELS && |inputVersion| == NUM_LEVELS && |levelPtrs| == NUM_LEVELS
      && (forall l :: 1 <= l < NUM_LEVELS ==> SortedLevel(inputVersion[l]))
      && (forall l, f :: 0 <= l < NUM_LEVELS && f in inputVersion[l] ==> f.smallest.user <= f.largest.user)
      && (forall l :: level + 2 <= l < NUM_LEVELS ==> levelPtrs[l] <= |inputVersion[l]|)
      && (forall l, i :: level + 2 <= l < NUM_LEVELS && 0 <= i < levelPtrs[l] ==>
            asked.Some? && inputVersion[l][i].largest.user < asked.value)
    }

    constructor (level: nat, version: Levels)
      requires level + 1 < NUM_LEVELS && |version| == NUM_LEVELS
      requires forall l :: 1 <= l < NUM_LEVELS ==> SortedLevel(version[l])
      requires forall l, f :: 0 <= l < NUM_LEVELS && f in version[l] ==> f.smallest.user <= f.largest.user
      ensures Valid() && asked == None && this.level == level && inputVersion == version
    {
      this.level := level;
      inputVersion := version;
      levelPtrs := seq(NUM_LEVELS, _ => 0);
      asked := None;
    }

    /** Advances the pointer of one level past files that end before `user`. */
    method AdvanceLevel(lvl: nat, user: UserKey) returns (covered: bool)
      requires Valid() && level + 2 <= lvl < NUM_LEVELS && asked == Some(user)
      modifies this`levelPtrs
      ensures Valid()
      ensures covered <==> exists f :: f in inputVersion[lvl] && OverlapsUser(f, user)
    {
      var files := inputVersion[lvl];
      while levelPtrs[lvl] < |files|
        invariant Valid()
        decreases |files| - levelPtrs[lvl]
      {
        var f := files[levelPtrs[lvl]];
        if user <= f.largest.user {
          LaterFilesPast(files, levelPtrs[lvl], user);
          assert f in files && (OverlapsUser(f, user) <==> user >= f.smallest.user);
          return user >= f.smallest.user;
        }
        levelPtrs := levelPtrs[lvl := levelPtrs[lvl] + 1];
      }
      return false;
    }

    /** Keys must be asked about in non-decreasing order, as a sorted input does. */
    method IsBaseLevelForKey(user: UserKey) returns (r: bool)
      requires Valid() && (asked.Some? ==> asked.value <= user)
      modifies this
      ensures Valid() && asked == Some(user)
      ensures r <==> BaseLevel(inputVersion, level, user)
    {
      asked := Some(user);
      for lvl := level + 2 to NUM_LEVELS
        invariant Valid() && asked == Some(user)
        invariant forall l, f :: level + 2 <= l < lvl && f in inputVersion[l] ==> !OverlapsUser(f, user)
      {
        var covered := AdvanceLevel(lvl, user);
        if covered {
          assert !BaseLevel(inputVersion, level, user);
          return false;
        }
      }
      return true;
    }
  }

  /** In a sorted level, once `user` is at or before the end of file `i`, it is before
      every later file unless file `i` covers it. */
  lemma LaterFilesPast(files: seq<FileMeta>, i: nat, user: UserKey)
    requires SortedLevel(files) && i < |files| && user <= files[i].largest.user
    requires forall f :: f in files ==> f.smallest.user <= f.largest.user
    requires forall j :: 0 <= j < i ==> files[j].largest.user < user
    ensures OverlapsUser(files[i], user) || forall f :: f in files ==> !OverlapsUser(f, user)
  {
    if !OverlapsUser(files[i], user) {
      forall f | f in files ensures !OverlapsUser(f, user) {
        var j :| 0 <= j < |files| && files[j] == f;
        if j > i { assert Before(files[i].largest, files[j].smallest); assert files[i] in files; }
      }
    }
  }

  lemma FlattenAppend(outs: seq<Output>, o: Output)
    ensures Flatten(outs + [o]) == Flatten(outs) + o.entries
  {
    assert (outs + [o])[..|outs|] == outs;
  }

  /** The part of the loop body that decides whether entry `i` is dropped and updates the
      three loop variables it uses. */
  method DecideDrop(c: Compaction, input: seq<Entry>, i: nat, smallestSnapshot: nat,
                    currentUserKey: UserKey, hasCurrentUserKey: bool, lastSequenceForKey: nat)
    returns (drop: bool, currentUserKey': UserKey, hasCurrentUserKey': bool, lastSequenceForKey': nat)
    requires c.Valid() && i < |input|
    requires smallestSnapshot < MAX_SEQUENCE
    requires i > 0 ==> input[i - 1].key.user <= input[i].key.user
    requires hasCurrentUserKey <==> i > 0
    requires i > 0 ==> currentUserKey == input[i - 1].key.user && lastSequenceForKey == input[i - 1].key.sequence
    requires c.asked.Some? ==> c.asked.value <= input[i].key.user
    modifies c
    ensures c.Valid() && (c.asked.Some? ==> c.asked.value <= input[i].key.user)
    ensures drop <==> Dropped(input, i, smallestSnapshot, c.inputVersion, c.level)
    ensures hasCurrentUserKey' && currentUserKey' == input[i].key.user
    ensures lastSequenceForKey' == input[i].key.sequence
  {
    var ikey := input[i].key;
    currentUserKey', hasCurrentUserKey', lastSequenceForKey' := currentUserKey, hasCurrentUserKey, lastSequenceForKey;
    if !hasCurrentUserKey' || ikey.user != currentUserKey' {
      currentUserKey' := ikey.user;
      hasCurrentUserKey' := true;
      lastSequenceForKey' := MAX_SEQUENCE;
    }
    drop := false;
    if lastSequenceForKey' <= smallestSnapshot {
      drop := true;
    } else if ikey.kind.Deletion? && ikey.sequence <= smallestSnapshot {
      drop := c.IsBaseLevelForKey(ikey.user);
    }
    lastSequenceForKey' := ikey.sequence;
  }

  /** What has been written so far: finished outputs, then the open file. */
  ghost function Written(outs: seq<Output>, builder: seq<Entry>): seq<Entry> {
    Flatten(outs) + builder
  }

  /** Closes the open output file; its size is whatever the table builder reports. */
  method FinishOutput(outs: seq<Output>, builder: seq<Entry>, firstNumber: nat)
    returns (outs': seq<Output>, builder': seq<Entry>)
    requires builder != [] && GoodOutputs(outs, firstNumber)
    ensures builder' == [] && GoodOutputs(outs', firstNumber)
    ensures Written(outs', builder') == Written(outs, builder)
  {
    var size: nat := *;
    var meta := FileMeta(firstNumber + |outs|, size, builder[0].key, builder[|builder| - 1].key);
    FlattenAppend(outs, Output(meta, builder));
    outs' := outs + [Output(meta, builder)];
    builder' := [];
  }

  /** Adds one entry to the output.  Where a file is cut is left open: the size limit and the
      grandparent limit only choose cut points. */
  method EmitEntry(outs: seq<Output>, builder: seq<Entry>, e: Entry, firstNumber: nat)
    returns (outs': seq<Output>, builder': seq<Entry>)
    requires GoodOutputs(outs, firstNumber)
    ensures GoodOutputs(outs', firstNumber)
    ensures Written(outs', builder') == Written(outs, builder) + [e]
  {
    outs', builder' := outs, builder + [e];
    assert Written(outs, builder + [e]) == Written(outs, builder) + [e];
    var bigEnough: bool := *;
    if bigEnough {
      outs', builder' := FinishOutput(outs', builder', firstNumber);
    }
  }

  /** The loop over the merged, sorted input. */
  method DoCompactionWork(c: Compaction, input: seq<Entry>, smallestSnapshot: nat, firstNumber: nat)
    returns (outs: seq<Output>)
    requires c.Valid() && c.asked == None
    requires Sorted(input) && smallestSnapshot < MAX_SEQUENCE
    modifies c
    ensures GoodOutputs(outs, firstNumber)
    ensures Flatten(outs) == Kept(input, |input|, smallestSnapshot, c.inputVersion, c.level)
  {
    outs := [];
    ghost var v, level := c.inputVersion, c.level;
    var builder: seq<Entry> := [];   // entries of the open output file
    var currentUserKey: UserKey := 0;
    var hasCurrentUserKey := false;
    var lastSequenceForKey := MAX_SEQUENCE;
    for i := 0 to |input|
      invariant c.Valid()
      invariant hasCurrentUserKey <==> i > 0
      invariant i > 0 ==> currentUserKey == input[i - 1].key.user && lastSequenceForKey == input[i - 1].key.sequence
      invariant c.asked.Some? ==> i > 0 && c.asked.value <= input[i - 1].key.user
      invariant GoodOutputs(outs, firstNumber)
      invariant Written(outs, builder) == Kept(input, i, smallestSnapshot, v, level)
    {
      assert i > 0 ==> Before(input[i - 1].key, input[i].key);
      var stopBefore: bool := *;
      if stopBefore && builder != [] {
        outs, builder := FinishOutput(outs, builder, firstNumber);
      }
      var drop;
      drop, currentUserKey, hasCurrentUserKey, lastSequenceForKey := DecideDrop(
        c, input, i, smallestSnapshot, currentUserKey, hasCurrentUserKey, lastSequenceForKey);
      if !drop {
        outs, builder := EmitEntry(outs, builder, input[i], firstNumber);
      }
    }
    if builder != [] {
      outs, builder := FinishOutput(outs, builder, firstNumber);
    }
    assert Flatten(outs) + [] == Flatten(outs);
  }
}
