/** Version edits and the builder that applies them (db/version_set.cc, `VersionSet::Builder`),
    and the equivalence that makes MANIFEST replay correct: applying a run of edits through
    one builder and saving once gives the version that saving after every edit gives. */
module VersionBuilder {
  import opened InternalKeys
  import opened VersionReads

  datatype Edit = Edit(
    logNumber: Option<nat>, nextFile: Option<nat>, lastSequence: Option<nat>,
    deleted: set<(nat, nat)>,          // (level, file number)
    added: seq<(nat, FileMeta)>)       // (level, file)

  /** BySmallestKey: smallest internal key, ties broken by file number. */
  predicate FileBefore(f: FileMeta, g: FileMeta) {
    Before(f.smallest, g.smallest) || (f.smallest == g.smallest && f.number < g.number)
  }

  ghost predicate FilesSorted(files: seq<FileMeta>) {
    forall i, j :: 0 <= i < j < |files| ==> FileBefore(files[i], files[j])
  }

  // ---- one level ----

  datatype LevelState = LevelState(deleted: set<nat>, added: seq<FileMeta>)

  const EMPTY_STATE := LevelState({}, [])

  /** Insertion into the ordered set of added files. */
  function InsertFile(files: seq<FileMeta>, f: FileMeta): seq<FileMeta> {
    if files == [] then [f]
    else if FileBefore(files[0], f) then [files[0]] + InsertFile(files[1..], f)
    else if FileBefore(f, files[0]) then [f] + files
    else files
  }

  function AddOne(s: LevelState, f: FileMeta): LevelState {
    LevelState(s.deleted - {f.number}, InsertFile(s.added, f))
  }

  function AddFiles(s: LevelState, added: seq<(nat, FileMeta)>, level: nat): LevelState {
    if added == [] then s
    else
      var before := AddFiles(s, added[..|added| - 1], level);
      var (l, f) := added[|added| - 1];
      if l == level then AddOne(before, f) else before
  }

  function DeletedNumbers(deleted: set<(nat, nat)>, level: nat): set<nat> {
    set d | d in deleted && d.0 == level :: d.1
  }

  /** One level's share of `Apply`: deletions first, then additions. */
  function ApplyLevel(s: LevelState, e: Edit, level: nat): LevelState {
    AddFiles(LevelState(s.deleted + DeletedNumbers(e.deleted, level), s.added), e.added, level)
  }

  function ApplyAll(edits: seq<Edit>, level: nat): LevelState {
    if edits == [] then EMPTY_STATE
    else ApplyLevel(ApplyAll(edits[..|edits| - 1], level), edits[|edits| - 1], level)
  }

  /** Merge of the base files and the added files; base files go first on ties. */
  function MergeFiles(base: seq<FileMeta>, added: seq<FileMeta>): seq<FileMeta>
    decreases |base| + |added|
  {
    if added == [] then base
    else if base == [] then added
    else if FileBefore(added[0], base[0]) then [added[0]] + MergeFiles(base, added[1..])
    else [base[0]] + MergeFiles(base[1..], added)
  }

  function DropDeleted(files: seq<FileMeta>, deleted: set<nat>): seq<FileMeta> {
    if files == [] then []
    else
      var f := files[|files| - 1];
      DropDeleted(files[..|files| - 1], deleted) + (if f.number in deleted then [] else [f])
  }

  /** One level's share of `SaveTo`. */
  function SaveLevel(base: seq<FileMeta>, s: LevelState): seq<FileMeta> {
    DropDeleted(MergeFiles(base, s.added), s.deleted)
  }

  // ---- all levels ----

  const EMPTY_LEVELS: Levels := [[], [], [], [], [], [], []]

  /** The first `n` levels of the saved version. */
  function SaveLevels(base: Levels, edits: seq<Edit>, n: nat): (v: Levels)
    requires n <= |base|
    ensures |v| == n
    ensures forall l :: 0 <= l < n ==> v[l] == SaveLevel(base[l], ApplyAll(edits, l))
  {
    if n == 0 then [] else SaveLevels(base, edits, n - 1) + [SaveLevel(base[n - 1], ApplyAll(edits, n - 1))]
  }

  function SaveTo(base: Levels, edits: seq<Edit>): (v: Levels)
    requires |base| == NUM_LEVELS
    ensures |v| == NUM_LEVELS
  {
    SaveLevels(base, edits, NUM_LEVELS)
  }

  /** The new version `LogAndApply` makes from the current one. */
  function Install(v: Levels, e: Edit): (v': Levels)
    requires |v| == NUM_LEVELS
    ensures |v'| == NUM_LEVELS
  {
    SaveTo(v, [e])
  }

  /** The version `Recover` makes from the records of a MANIFEST. */
  function Replay(edits: seq<Edit>): (v: Levels)
    ensures |v| == NUM_LEVELS
  {
    SaveTo(EMPTY_LEVELS, edits)
  }

  // ---- the imperative builder ----

  class Builder {
    const base: Levels
    var levels: seq<LevelState>

    ghost predicate Valid()
      reads this
    {
      |base| == NUM_LEVELS && |levels| == NUM_LEVELS
    }

    constructor (base: Levels)
      requires |base| == NUM_LEVELS
      ensures Valid() && this.base == base
      ensures forall l :: 0 <= l < NUM_LEVELS ==> levels[l] == ApplyAll([], l)
    {
      this.base := base;
      levels := [EMPTY_STATE, EMPTY_STATE, EMPTY_STATE, EMPTY_STATE, EMPTY_STATE, EMPTY_STATE, EMPTY_STATE];
    }

    method Apply(e: Edit)
      requires Valid()
      requires forall a :: a in e.added ==> a.0 < NUM_LEVELS
      modifies this
      ensures Valid()
      ensures forall l :: 0 <= l < NUM_LEVELS ==> levels[l] == ApplyLevel(old(levels[l]), e, l)
    {
      for k := 0 to NUM_LEVELS
        invariant |levels| == NUM_LEVELS
        invariant forall l :: 0 <= l < k ==>
                    levels[l] == LevelState(old(levels[l]).deleted + DeletedNumbers(e.deleted, l), old(levels[l]).added)
        invariant forall l :: k <= l < NUM_LEVELS ==> levels[l] == old(levels[l])
      {
        levels := levels[k := levels[k].(deleted := levels[k].deleted + DeletedNumbers(e.deleted, k))];
      }
      ghost var cleared := levels;
      for i := 0 to |e.added|
        invariant |levels| == NUM_LEVELS
        invariant forall l :: 0 <= l < NUM_LEVELS ==> levels[l] == AddFiles(cleared[l], e.added[..i], l)
      {
        var (level, f) := e.added[i];
        assert e.added[..i + 1][..i] == e.added[..i];
        levels := levels[level := AddOne(levels[level], f)];
      }
      assert e.added[..|e.added|] == e.added;
    }

    method SaveToVersion() returns (v: Levels)
      requires Valid()
      ensures |v| == NUM_LEVELS
      ensures forall l :: 0 <= l < NUM_LEVELS ==> v[l] == SaveLevel(base[l], levels[l])
    {
      v := [];
      for l := 0 to NUM_LEVELS
        invariant |v| == l
        invariant forall k :: 0 <= k < l ==> v[k] == SaveLevel(base[k], levels[k])
      {
        var files := SaveFiles(base[l], levels[l].added, levels[l].deleted);
        v := v + [files];
      }
    }
  }

  method MaybeAddFile(files: seq<FileMeta>, ghost merged: seq<FileMeta>, deleted: set<nat>, f: FileMeta)
    returns (files': seq<FileMeta>)
    requires files == DropDeleted(merged, deleted)
    ensures files' == DropDeleted(merged + [f], deleted)
  {
    assert (merged + [f])[..|merged|] == merged;
    files' := if f.number in deleted then files else files + [f];
  }

  /** `merged` is what the merge has produced once `b` base files and `a` added files are used. */
  ghost predicate MergedSoFar(merged: seq<FileMeta>, base: seq<FileMeta>, b: nat, added: seq<FileMeta>, a: nat) {
    b <= |base| && a <= |added| && merged + MergeFiles(base[b..], added[a..]) == MergeFiles(base, added)
  }

  lemma TakeBase(merged: seq<FileMeta>, base: seq<FileMeta>, b: nat, added: seq<FileMeta>, a: nat)
    requires MergedSoFar(merged, base, b, added, a) && b < |base|
    requires a == |added| || !FileBefore(added[a], base[b])
    ensures MergedSoFar(merged + [base[b]], base, b + 1, added, a)
  {
    assert base[b..] == [base[b]] + base[b + 1..];
    assert MergeFiles(base[b..], added[a..]) == [base[b]] + MergeFiles(base[b + 1..], added[a..]);
  }

  lemma TakeAdded(merged: seq<FileMeta>, base: seq<FileMeta>, b: nat, added: seq<FileMeta>, a: nat)
    requires MergedSoFar(merged, base, b, added, a) && a < |added|
    requires b == |base| || FileBefore(added[a], base[b])
    ensures MergedSoFar(merged + [added[a]], base, b, added, a + 1)
  {
    assert added[a..] == [added[a]] + added[a + 1..];
    assert MergeFiles(base[b..], added[a..]) == [added[a]] + MergeFiles(base[b..], added[a + 1..]);
  }

  lemma MergeDone(merged: seq<FileMeta>, base: seq<FileMeta>, added: seq<FileMeta>)
    requires MergedSoFar(merged, base, |base|, added, |added|)
    ensures merged == MergeFiles(base, added)
  {
    assert base[|base|..] == [] && added[|added|..] == [];
  }

  /** The merge loop of `SaveTo` for one level. */
  method SaveFiles(base: seq<FileMeta>, added: seq<FileMeta>, deleted: set<nat>) returns (files: seq<FileMeta>)
    ensures files == SaveLevel(base, LevelState(deleted, added))
  {
    ghost var merged := [];
    files := [];
    var b := 0;
    for a := 0 to |added|
      invariant b <= |base| && files == DropDeleted(merged, deleted) && MergedSoFar(merged, base, b, added, a)
    {
      // all smaller files listed in base
      while b < |base| && !FileBefore(added[a], base[b])
        invariant b <= |base| && files == DropDeleted(merged, deleted) && MergedSoFar(merged, base, b, added, a)
      {
        TakeBase(merged, base, b, added, a);
        files := MaybeAddFile(files, merged, deleted, base[b]);
        merged := merged + [base[b]];
        b := b + 1;
      }
      TakeAdded(merged, base, b, added, a);
      files := MaybeAddFile(files, merged, deleted, added[a]);
      merged := merged + [added[a]];
    }
    while b < |base|
      invariant b <= |base| && files == DropDeleted(merged, deleted) && MergedSoFar(merged, base, b, added, |added|)
    {
      TakeBase(merged, base, b, added, |added|);
      files := MaybeAddFile(files, merged, deleted, base[b]);
      merged := merged + [base[b]];
      b := b + 1;
    }
    MergeDone(merged, base, added);
  }

  /** Replaying the records of a MANIFEST as `Recover` does. */
  method RecoverVersion(edits: seq<Edit>) returns (v: Levels)
    requires forall e, a :: e in edits && a in e.added ==> a.0 < NUM_LEVELS
    ensures v == Replay(edits)
  {
    var builder := new Builder(EMPTY_LEVELS);
    for i := 0 to |edits|
      invariant builder.Valid() && builder.base == EMPTY_LEVELS
      invariant forall l :: 0 <= l < NUM_LEVELS ==> builder.levels[l] == ApplyAll(edits[..i], l)
    {
      assert edits[..i + 1][..i] == edits[..i];
      builder.Apply(edits[i]);
    }
    assert edits[..|edits|] == edits;
    v := builder.SaveToVersion();
  }

  // ---- members and order of a saved level ----

  /** `f` is added to `level` by the edit. */
  ghost predicate Adds(e: Edit, level: nat, f: FileMeta) {
    (level, f) in e.added
  }

  ghost predicate NumberAdded(added: seq<(nat, FileMeta)>, level: nat, number: nat) {
    exists f :: (level, f) in added && f.number == number
  }

  ghost predicate AddsNumber(e: Edit, level: nat, number: nat) {
    NumberAdded(e.added, level, number)
  }

  lemma {:induction false} InsertFileSorted(files: seq<FileMeta>, f: FileMeta)
    requires FilesSorted(files)
    ensures FilesSorted(InsertFile(files, f))
    ensures forall g :: g in InsertFile(files, f) ==> g == f || g in files
    ensures forall g :: g in files ==> g in InsertFile(files, f)
    ensures (forall g :: g in files ==> g.number != f.number) ==> f in InsertFile(files, f)
  {
    if files != [] && FileBefore(files[0], f) {
      InsertFileSorted(files[1..], f);
      var rest := InsertFile(files[1..], f);
      assert forall g :: g in rest ==> g == f || g in files[1..];
      forall g | g in rest ensures FileBefore(files[0], g) {
        if g in files[1..] { var k :| 0 <= k < |files[1..]| && files[1..][k] == g; assert files[k + 1] == g; }
      }
    }
  }

  /** State after one edit, for files whose numbers are new to the level. */
  lemma {:induction false} AddFilesMembers(s: LevelState, added: seq<(nat, FileMeta)>, level: nat)
    requires FilesSorted(s.added)
    requires forall i, j :: 0 <= i < j < |added| && added[i].0 == level && added[j].0 == level ==>
             added[i].1.number != added[j].1.number
    requires forall i, g :: 0 <= i < |added| && added[i].0 == level && g in s.added ==> g.number != added[i].1.number
    ensures var r := AddFiles(s, added, level);
      && FilesSorted(r.added)
      && (forall f :: f in r.added <==> f in s.added || (level, f) in added)
      && (forall n :: n in r.deleted <==> n in s.deleted && !NumberAdded(added, level, n))
  {
    if added != [] {
      var init, last := added[..|added| - 1], added[|added| - 1];
      assert added == init + [last];
      AddFilesMembers(s, init, level);
      var before := AddFiles(s, init, level);
      forall n ensures NumberAdded(added, level, n) <==>
        NumberAdded(init, level, n) || (last.0 == level && last.1.number == n) {
        if last.0 == level && last.1.number == n { assert last in added; }
      }
      if last.0 == level {
        InsertFileSorted(before.added, last.1);
        forall g | g in before.added ensures g.number != last.1.number {
          if (level, g) in init { var k :| 0 <= k < |init| && init[k] == (level, g); assert added[k] == init[k]; }
        }
      }
    }
  }

  lemma {:induction false} MergeMembers(base: seq<FileMeta>, added: seq<FileMeta>)
    ensures forall f :: f in MergeFiles(base, added) <==> f in base || f in added
    decreases |base| + |added|
  {
    if added != [] && base != [] {
      if FileBefore(added[0], base[0]) {
        MergeMembers(base, added[1..]);
      } else {
        MergeMembers(base[1..], added);
      }
    }
  }

  lemma {:induction false} MergeSorted(base: seq<FileMeta>, added: seq<FileMeta>)
    requires FilesSorted(base) && FilesSorted(added)
    requires forall f, g :: f in base && g in added ==> f.number != g.number
    ensures FilesSorted(MergeFiles(base, added))
    decreases |base| + |added|
  {
    if added != [] && base != [] {
      if FileBefore(added[0], base[0]) {
        MergeSorted(base, added[1..]);
        MergeMembers(base, added[1..]);
        HeadFirst(added[0], base, added[1..], added);
      } else {
        MergeSorted(base[1..], added);
        MergeMembers(base[1..], added);
        assert base[0] in base && added[0] in added;
        assert FileBefore(base[0], added[0]);
        HeadFirst(base[0], added, base[1..], base);
      }
    }
  }

  /** `h` comes before everything in two sorted lists when it comes before both heads. */
  lemma HeadFirst(h: FileMeta, other: seq<FileMeta>, rest: seq<FileMeta>, own: seq<FileMeta>)
    requires FilesSorted(other) && FilesSorted(own) && own == [h] + rest
    requires other != [] ==> FileBefore(h, other[0])
    ensures forall f :: f in other || f in rest ==> FileBefore(h, f)
  {
    forall f | f in other || f in rest ensures FileBefore(h, f) {
      if f in rest {
        var k :| 0 <= k < |rest| && rest[k] == f;
        assert FileBefore(own[0], own[k + 1]);
      } else {
        var k :| 0 <= k < |other| && other[k] == f;
        assert k > 0 ==> FileBefore(other[0], other[k]);
      }
    }
  }

  lemma {:induction false} DropMembers(files: seq<FileMeta>, deleted: set<nat>)
    ensures forall f :: f in DropDeleted(files, deleted) <==> f in files && f.number !in deleted
    ensures FilesSorted(files) ==> FilesSorted(DropDeleted(files, deleted))
  {
    if files != [] {
      var init, last := files[..|files| - 1], files[|files| - 1];
      assert files == init + [last];
      DropMembers(init, deleted);
      if FilesSorted(files) {
        forall f | f in init ensures FileBefore(f, last) {
          var k :| 0 <= k < |init| && init[k] == f;
          assert files[k] == f;
        }
      }
    }
  }

  /** Two sorted lists with the same members are equal. */
  lemma {:induction false} SortedUnique(a: seq<FileMeta>, b: seq<FileMeta>)
    requires FilesSorted(a) && FilesSorted(b)
    requires forall f :: f in a <==> f in b
    ensures a == b
  {
    assert b != [] ==> b[0] in a;
    if a != [] {
      assert a[0] in b;
      assert b != [] && b[0] in a;
      var i :| 0 <= i < |b| && b[i] == a[0];
      var j :| 0 <= j < |a| && a[j] == b[0];
      assert a[0] == b[0];
      forall f ensures f in a[1..] <==> f in b[1..] {
        assert forall k :: 1 <= k < |a| ==> a[k] != a[0];
        assert forall k :: 1 <= k < |b| ==> b[k] != b[0];
        assert f in a[1..] <==> f in a && f != a[0];
        assert f in b[1..] <==> f in b && f != b[0];
      }
      SortedUnique(a[1..], b[1..]);
    }
  }

  // ---- one save after many edits, or one save after each ----

  ghost predicate EverAdded(edits: seq<Edit>, level: nat, f: FileMeta) {
    exists i :: 0 <= i < |edits| && Adds(edits[i], level, f)
  }

  /** No edit adds two files of one number to a level. */
  ghost predicate SingleAdds(e: Edit, level: nat) {
    forall i, j :: 0 <= i < j < |e.added| && e.added[i].0 == level && e.added[j].0 == level ==>
      e.added[i].1.number != e.added[j].1.number
  }

  /** No (level, file number) is added twice, nor added when the base already has it. */
  ghost predicate NumbersOnce(base: seq<FileMeta>, edits: seq<Edit>, level: nat) {
    && (forall i :: 0 <= i < |edits| ==> SingleAdds(edits[i], level))
    && (forall i, j, f, g :: 0 <= i < j < |edits| && Adds(edits[i], level, f) && Adds(edits[j], level, g) ==>
        f.number != g.number)
    && (forall i, f, g :: 0 <= i < |edits| && Adds(edits[i], level, f) && g in base ==> f.number != g.number)
  }

  /** `n` is deleted by the edit and not added back by it. */
  ghost predicate Removes(e: Edit, level: nat, n: nat) {
    n in DeletedNumbers(e.deleted, level) && !AddsNumber(e, level, n)
  }

  /** The last edit of a run adds files that are new to the level. */
  lemma LastAddsNew(base: seq<FileMeta>, init: seq<Edit>, last: Edit, level: nat)
    requires NumbersOnce(base, init + [last], level)
    ensures NumbersOnce(base, init, level) && SingleAdds(last, level)
    ensures forall f, g :: EverAdded(init, level, g) && Adds(last, level, f) ==> g.number != f.number
    ensures forall f :: EverAdded(init + [last], level, f) <==> EverAdded(init, level, f) || Adds(last, level, f)
  {
    var edits := init + [last];
    assert forall i :: 0 <= i < |init| ==> edits[i] == init[i];
    assert edits[|init|] == last;
    forall f, g | EverAdded(init, level, g) && Adds(last, level, f) ensures g.number != f.number {
      var k :| 0 <= k < |init| && Adds(init[k], level, g);
      assert Adds(edits[k], level, g) && Adds(edits[|init|], level, f);
    }
    forall f ensures EverAdded(edits, level, f) <==> EverAdded(init, level, f) || Adds(last, level, f) {
      if EverAdded(init, level, f) {
        var k :| 0 <= k < |init| && Adds(init[k], level, f);
        assert Adds(edits[k], level, f);
      }
      if Adds(last, level, f) { assert Adds(edits[|init|], level, f); }
    }
    assert SingleAdds(edits[|init|], level);
  }

  /** One level's state after a run of edits with distinct numbers. */
  lemma ApplyMembers(s: LevelState, e: Edit, level: nat)
    requires FilesSorted(s.added) && SingleAdds(e, level)
    requires forall f, g :: Adds(e, level, f) && g in s.added ==> g.number != f.number
    ensures var r := ApplyLevel(s, e, level);
      && FilesSorted(r.added)
      && (forall f :: f in r.added <==> f in s.added || Adds(e, level, f))
      && (forall n :: n in r.deleted <==>
          (n in s.deleted || n in DeletedNumbers(e.deleted, level)) && !AddsNumber(e, level, n))
  {
    forall i, g | 0 <= i < |e.added| && e.added[i].0 == level && g in s.added
      ensures g.number != e.added[i].1.number
    {
      assert Adds(e, level, e.added[i].1);
    }
    AddFilesMembers(LevelState(s.deleted + DeletedNumbers(e.deleted, level), s.added), e.added, level);
  }

  lemma {:induction false} ApplyAllMembers(base: seq<FileMeta>, edits: seq<Edit>, level: nat)
    requires NumbersOnce(base, edits, level)
    ensures var s := ApplyAll(edits, level);
      && FilesSorted(s.added)
      && (forall f :: f in s.added <==> EverAdded(edits, level, f))
  {
    if edits != [] {
      var init, last := edits[..|edits| - 1], edits[|edits| - 1];
      assert edits == init + [last];
      LastAddsNew(base, init, last, level);
      ApplyAllMembers(base, init, level);
      ApplyMembers(ApplyAll(init, level), last, level);
    }
  }

  lemma ApplyLastDeleted(base: seq<FileMeta>, init: seq<Edit>, last: Edit, level: nat)
    requires NumbersOnce(base, init + [last], level)
    ensures forall n :: n in ApplyAll(init + [last], level).deleted <==>
              (n in ApplyAll(init, level).deleted || n in DeletedNumbers(last.deleted, level)) &&
                !AddsNumber(last, level, n)
  {
    LastAddsNew(base, init, last, level);
    ApplyAllMembers(base, init, level);
    assert (init + [last])[..|init|] == init;
    ApplyMembers(ApplyAll(init, level), last, level);
  }

  lemma SaveLevelMembers(base: seq<FileMeta>, s: LevelState)
    requires FilesSorted(base) && FilesSorted(s.added)
    requires forall f, g :: f in base && g in s.added ==> f.number != g.number
    ensures FilesSorted(SaveLevel(base, s))
    ensures forall f :: f in SaveLevel(base, s) <==> (f in base || f in s.added) && f.number !in s.deleted
  {
    MergeSorted(base, s.added);
    MergeMembers(base, s.added);
    DropMembers(MergeFiles(base, s.added), s.deleted);
  }

  /** Order and members of a level after all edits are applied and saved once. */
  lemma SaveAllMembers(base: seq<FileMeta>, edits: seq<Edit>, level: nat)
    requires FilesSorted(base) && NumbersOnce(base, edits, level)
    ensures var r := SaveLevel(base, ApplyAll(edits, level));
      && FilesSorted(r)
      && forall f :: f in r <==>
         (f in base || EverAdded(edits, level, f)) && f.number !in ApplyAll(edits, level).deleted
  {
    ApplyAllMembers(base, edits, level);
    var s := ApplyAll(edits, level);
    forall f, g | f in base && g in s.added ensures f.number != g.number {
      var k :| 0 <= k < |edits| && Adds(edits[k], level, g);
    }
    SaveLevelMembers(base, s);
  }

  /** Members of a level after one more edit, whichever way the base was made. */
  lemma InstallMembers(base: seq<FileMeta>, e: Edit, level: nat)
    requires FilesSorted(base) && NumbersOnce(base, [e], level)
    ensures var r := SaveLevel(base, ApplyAll([e], level));
      && FilesSorted(r)
      && forall f :: f in r <==> (f in base && !Removes(e, level, f.number)) || Adds(e, level, f)
  {
    SaveAllMembers(base, [e], level);
    assert [] + [e] == [e];
    ApplyLastDeleted(base, [], e, level);
    forall f ensures EverAdded([e], level, f) <==> Adds(e, level, f) {
      assert [e][0] == e;
    }
  }

  /** One level: saving once after `init + [e]` is installing `e` on what `init` saves. */
  lemma SaveOnceLevel(base: seq<FileMeta>, init: seq<Edit>, e: Edit, level: nat)
    requires FilesSorted(base) && NumbersOnce(base, init + [e], level)
    ensures SaveLevel(base, ApplyAll(init + [e], level)) ==
            SaveLevel(SaveLevel(base, ApplyAll(init, level)), ApplyAll([e], level))
  {
    var edits := init + [e];
    LastAddsNew(base, init, e, level);
    SaveAllMembers(base, edits, level);
    SaveAllMembers(base, init, level);
    var mid := SaveLevel(base, ApplyAll(init, level));
    assert NumbersOnce(mid, [e], level) by {
      forall i, f, g | 0 <= i < |[e]| && Adds([e][i], level, f) && g in mid ensures f.number != g.number {
        assert edits[|init|] == e;
        assert Adds(edits[|init|], level, f);
      }
    }
    InstallMembers(mid, e, level);
    var once, twice := SaveLevel(base, ApplyAll(edits, level)), SaveLevel(mid, ApplyAll([e], level));
    forall f ensures f in once <==> f in twice {
      SameMember(base, init, e, level, f);
    }
    SortedUnique(once, twice);
  }

  lemma SameMember(base: seq<FileMeta>, init: seq<Edit>, e: Edit, level: nat, f: FileMeta)
    requires FilesSorted(base) && NumbersOnce(base, init + [e], level)
    ensures (f in base || EverAdded(init + [e], level, f)) && f.number !in ApplyAll(init + [e], level).deleted <==>
            ((f in base || EverAdded(init, level, f)) && f.number !in ApplyAll(init, level).deleted &&
             !Removes(e, level, f.number))
            || Adds(e, level, f)
  {
    LastAddsNew(base, init, e, level);
    ApplyLastDeleted(base, init, e, level);
    assert (init + [e])[|init|] == e;
    if AddsNumber(e, level, f.number) {
      var g :| (level, g) in e.added && g.number == f.number;
      assert Adds((init + [e])[|init|], level, g) && Adds(e, level, g);
    }
    assert Adds(e, level, f) ==> AddsNumber(e, level, f.number);
  }

  lemma ReplayLevel(edits: seq<Edit>, level: nat)
    requires level < NUM_LEVELS
    ensures Replay(edits)[level] == SaveLevel([], ApplyAll(edits, level))
  {
    assert EMPTY_LEVELS[level] == [];
  }

  lemma InstallLevel(v: Levels, e: Edit, level: nat)
    requires |v| == NUM_LEVELS && level < NUM_LEVELS
    ensures Install(v, e)[level] == SaveLevel(v[level], ApplyAll([e], level))
  {
  }

  /** MANIFEST replay: applying all records through one builder and saving once gives the
      version that was current when the last record was written. */
  lemma ReplayIsInstall(init: seq<Edit>, e: Edit)
    requires forall level :: 0 <= level < NUM_LEVELS ==> NumbersOnce([], init + [e], level)
    ensures Replay(init + [e]) == Install(Replay(init), e)
  {
    var once, twice := Replay(init + [e]), Install(Replay(init), e);
    forall level | 0 <= level < NUM_LEVELS ensures once[level] == twice[level] {
      SaveOnceLevel([], init, e, level);
      ReplayLevel(init, level);
      ReplayLevel(init + [e], level);
      InstallLevel(Replay(init), e, level);
    }
  }
}
