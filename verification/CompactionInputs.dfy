/** Choosing the inputs of a compaction (db/version_set.cc: `GetRange`, `GetOverlappingInputs`,
    `AddBoundaryInputs`, `SetupOtherInputs`, `PickLevelForMemTableOutput`). */
module CompactionInputs {
  import opened InternalKeys
  import opened VersionReads

  /** A bound of a user-key range; None is unbounded. */
  type Bound = Option<UserKey>

  predicate Forward(f: FileMeta) {
    NotAfter(f.smallest, f.largest)
  }

  ghost predicate AllForward(files: seq<FileMeta>) {
    forall f :: f in files ==> Forward(f)
  }

  predicate BeforeRange(f: FileMeta, begin: Bound) {
    begin.Some? && f.largest.user < begin.value
  }

  predicate AfterRange(f: FileMeta, end: Bound) {
    end.Some? && f.smallest.user > end.value
  }

  /** The user-key range of `f` meets [begin, end]. */
  predicate InRange(f: FileMeta, begin: Bound, end: Bound) {
    !BeforeRange(f, begin) && !AfterRange(f, end)
  }

  predicate UserOverlap(f: FileMeta, g: FileMeta) {
    f.smallest.user <= g.largest.user && g.smallest.user <= f.largest.user
  }

  ghost predicate NoDuplicates(files: seq<FileMeta>) {
    forall i, j :: 0 <= i < j < |files| ==> files[i] != files[j]
  }

  ghost predicate Sublist(some: seq<FileMeta>, all: seq<FileMeta>) {
    NoDuplicates(some) && forall f :: f in some ==> f in all
  }

  // ---- overlap closure ----

  /** `chosen` has every file that meets the range and every file that overlaps a member. */
  ghost predicate Closed(files: seq<FileMeta>, begin: Bound, end: Bound, chosen: set<FileMeta>) {
    && (forall f :: f in files && InRange(f, begin, end) ==> f in chosen)
    && (forall f, g :: f in files && g in chosen && g in files && UserOverlap(f, g) ==> f in chosen)
  }

  /** How many files stick out of the range on one side or the other. */
  function Outsiders(files: seq<FileMeta>, begin: Bound, end: Bound): (n: nat)
  {
    if files == [] then 0
    else
      (if begin.Some? && files[0].smallest.user < begin.value then 1 else 0) +
      (if end.Some? && files[0].largest.user > end.value then 1 else 0) +
      Outsiders(files[1..], begin, end)
  }

  predicate Wider(begin: Bound, end: Bound, begin': Bound, end': Bound) {
    && (begin.Some? <==> begin'.Some?) && (end.Some? <==> end'.Some?)
    && (begin.Some? ==> begin'.value <= begin.value)
    && (end.Some? ==> end.value <= end'.value)
  }

  lemma {:induction false} WiderFewerOutsiders(files: seq<FileMeta>, begin: Bound, end: Bound, begin': Bound,
                                               end': Bound, f: FileMeta)
    requires Wider(begin, end, begin', end')
    ensures Outsiders(files, begin', end') <= Outsiders(files, begin, end)
    ensures f in files && begin.Some? && f.smallest.user < begin.value && begin'.value == f.smallest.user ==>
              Outsiders(files, begin', end') < Outsiders(files, begin, end)
    ensures f in files && end.Some? && f.largest.user > end.value && end'.value == f.largest.user ==>
              Outsiders(files, begin', end') < Outsiders(files, begin, end)
  {
    if files != [] {
      WiderFewerOutsiders(files[1..], begin, end, begin', end', f);
    }
  }

  /** Everything that meets the current range belongs to every closed set. */
  ghost predicate RangeForced(files: seq<FileMeta>, begin0: Bound, end0: Bound, begin: Bound, end: Bound) {
    forall chosen, f :: Closed(files, begin0, end0, chosen) && f in files && InRange(f, begin, end) ==> f in chosen
  }

  lemma ExtendRange(files: seq<FileMeta>, begin0: Bound, end0: Bound, begin: Bound, end: Bound, f: FileMeta,
                    begin': Bound, end': Bound)
    requires RangeForced(files, begin0, end0, begin, end)
    requires AllForward(files)
    requires f in files && InRange(f, begin, end)
    requires (begin.Some? && f.smallest.user < begin.value && begin' == Some(f.smallest.user) && end' == end) ||
             (end.Some? && f.largest.user > end.value && end' == Some(f.largest.user) && begin' == begin)
    ensures RangeForced(files, begin0, end0, begin', end')
  {
    forall chosen, g | Closed(files, begin0, end0, chosen) && g in files && InRange(g, begin', end')
      ensures g in chosen
    {
      assert f in chosen;
      assert Forward(f) && Forward(g);
      assert InRange(g, begin, end) || UserOverlap(g, f);
    }
  }

  /** No member sticks out of the range. */
  ghost predicate Within(inputs: seq<FileMeta>, begin: Bound, end: Bound) {
    forall f :: f in inputs ==>
      (begin.Some? ==> begin.value <= f.smallest.user) && (end.Some? ==> f.largest.user <= end.value)
  }

  /** The files that meet the range, in list order. */
  function FilterRange(files: seq<FileMeta>, begin: Bound, end: Bound): seq<FileMeta> {
    if files == [] then []
    else
      var last := files[|files| - 1];
      FilterRange(files[..|files| - 1], begin, end) + (if InRange(last, begin, end) then [last] else [])
  }

  lemma {:induction false} FilterRangeMembers(files: seq<FileMeta>, begin: Bound, end: Bound)
    ensures forall f :: f in FilterRange(files, begin, end) <==> f in files && InRange(f, begin, end)
    ensures NoDuplicates(files) ==> NoDuplicates(FilterRange(files, begin, end))
  {
    if files != [] {
      var init, last := files[..|files| - 1], files[|files| - 1];
      assert files == init + [last];
      FilterRangeMembers(init, begin, end);
    }
  }

  lemma FilterRangeStep(files: seq<FileMeta>, i: nat, begin: Bound, end: Bound)
    requires i < |files|
    ensures FilterRange(files[..i + 1], begin, end) ==
            FilterRange(files[..i], begin, end) + (if InRange(files[i], begin, end) then [files[i]] else [])
  {
    assert files[..i + 1][..i] == files[..i];
  }

  /** Widens the range on one side if `f` sticks out of it. */
  method WidenRange(files: seq<FileMeta>, ghost begin0: Bound, ghost end0: Bound, b: Bound, e: Bound, f: FileMeta)
    returns (widened: bool, b': Bound, e': Bound)
    requires AllForward(files) && f in files && InRange(f, b, e)
    requires RangeForced(files, begin0, end0, b, e)
    ensures !widened ==> b' == b && e' == e && Within([f], b, e)
    ensures Wider(b, e, b', e')
    ensures RangeForced(files, begin0, end0, b', e')
    ensures widened ==> Outsiders(files, b', e') < Outsiders(files, b, e)
  {
    b', e' := b, e;
    if b.Some? && f.smallest.user < b.value {
      b' := Some(f.smallest.user);
    } else if e.Some? && f.largest.user > e.value {
      e' := Some(f.largest.user);
    } else {
      return false, b, e;
    }
    ExtendRange(files, begin0, end0, b, e, f, b', e');
    WiderFewerOutsiders(files, b, e, b', e', f);
    widened := true;
  }

  /** Files of one level that overlap the range.  At level 0 a file that sticks out of the
      range widens it and restarts the scan. */
  method GetOverlappingInputs(files: seq<FileMeta>, level: nat, begin: Bound, end: Bound)
    returns (inputs: seq<FileMeta>, ghost userBegin: Bound, ghost userEnd: Bound)
    requires AllForward(files) && NoDuplicates(files)
    ensures Wider(begin, end, userBegin, userEnd)
    ensures inputs == FilterRange(files, userBegin, userEnd) && NoDuplicates(inputs)
    ensures forall f :: f in inputs <==> f in files && InRange(f, userBegin, userEnd)
    ensures level > 0 ==> userBegin == begin && userEnd == end
    ensures level == 0 ==> Within(inputs, userBegin, userEnd)
    ensures RangeForced(files, begin, end, userBegin, userEnd)
  {
    inputs := [];
    var b, e := begin, end;
    var i := 0;
    while i < |files|
      invariant 0 <= i <= |files| && Wider(begin, end, b, e)
      invariant level > 0 ==> b == begin && e == end
      invariant inputs == FilterRange(files[..i], b, e)
      invariant level == 0 ==> Within(inputs, b, e)
      invariant RangeForced(files, begin, end, b, e)
      decreases Outsiders(files, b, e), |files| - i
    {
      var f := files[i];
      FilterRangeStep(files, i, b, e);
      i := i + 1;
      if BeforeRange(f, b) {
      } else if AfterRange(f, e) {
      } else {
        inputs := inputs + [f];
        if level == 0 {
          var widened;
          widened, b, e := WidenRange(files, begin, end, b, e, f);
          if widened {
            inputs := [];
            i := 0;
          }
        }
      }
    }
    assert files[..|files|] == files;
    FilterRangeMembers(files, b, e);
    userBegin, userEnd := b, e;
  }

  /** At level 0 the result is closed under user-key overlap and is the least closed set. */
  lemma OverlapIsLeastClosed(files: seq<FileMeta>, begin: Bound, end: Bound, inputs: seq<FileMeta>, userBegin: Bound,
                             userEnd: Bound)
    requires AllForward(files) && Wider(begin, end, userBegin, userEnd)
    requires inputs == FilterRange(files, userBegin, userEnd) && Within(inputs, userBegin, userEnd)
    requires RangeForced(files, begin, end, userBegin, userEnd)
    ensures Closed(files, begin, end, set f | f in inputs)
    ensures forall chosen :: Closed(files, begin, end, chosen) ==> (set f | f in inputs) <= chosen
  {
    var result := set f | f in inputs;
    FilterRangeMembers(files, userBegin, userEnd);
    forall f, g | f in files && g in result && UserOverlap(f, g) ensures f in result {
      assert InRange(g, userBegin, userEnd);
      assert Forward(f) && Forward(g);
    }
  }

  /** The files of a level for a range: above level 0 those that meet it; at level 0 the fewest
      that hold these and all that overlap one of them. */
  ghost predicate IsOverlap(files: seq<FileMeta>, level: nat, begin: Bound, end: Bound, r: seq<FileMeta>) {
    && Sublist(r, files)
    && if level > 0 then forall f :: f in files ==> (f in r <==> InRange(f, begin, end))
       else
         && Closed(files, begin, end, set f | f in r)
         && forall chosen :: Closed(files, begin, end, chosen) ==> (set f | f in r) <= chosen
  }

  lemma OverlapIs(files: seq<FileMeta>, level: nat, begin: Bound, end: Bound, r: seq<FileMeta>, userBegin: Bound,
                  userEnd: Bound)
    requires AllForward(files) && Wider(begin, end, userBegin, userEnd)
    requires r == FilterRange(files, userBegin, userEnd) && NoDuplicates(r)
    requires forall f :: f in r <==> f in files && InRange(f, userBegin, userEnd)
    requires level > 0 ==> userBegin == begin && userEnd == end
    requires level == 0 ==> Within(r, userBegin, userEnd)
    requires RangeForced(files, begin, end, userBegin, userEnd)
    ensures IsOverlap(files, level, begin, end, r)
  {
    hide Wider, Within, FilterRange, RangeForced, InRange, Closed;
    if level == 0 { OverlapIsLeastClosed(files, begin, end, r, userBegin, userEnd); }
  }

  /** Every file that meets the range is among them. */
  lemma OverlapHas(files: seq<FileMeta>, level: nat, begin: Bound, end: Bound, r: seq<FileMeta>, f: FileMeta)
    requires IsOverlap(files, level, begin, end, r) && f in files && InRange(f, begin, end)
    ensures f in r
  {
    if level == 0 { assert f in set g | g in r; }
  }

  // ---- boundary files ----

  ghost predicate IsLargest(files: seq<FileMeta>, k: InternalKey) {
    && (exists f :: f in files && f.largest == k)
    && forall f :: f in files ==> NotAfter(f.largest, k)
  }

  /** `f` starts after `k` but with the same user key. */
  predicate Boundary(f: FileMeta, k: InternalKey) {
    Before(k, f.smallest) && f.smallest.user == k.user
  }

  ghost predicate NoBoundary(files: seq<FileMeta>, k: InternalKey) {
    forall f :: f in files ==> !Boundary(f, k)
  }

  method FindLargestKey(files: seq<FileMeta>) returns (largest: Option<InternalKey>)
    ensures largest.None? <==> files == []
    ensures largest.Some? ==> IsLargest(files, largest.value)
  {
    if files == [] { return None; }
    var k := files[0].largest;
    for i := 1 to |files|
      invariant IsLargest(files[..i], k)
    {
      assert files[..i + 1] == files[..i] + [files[i]];
      if Before(k, files[i].largest) {
        assert files[i] in files[..i + 1];
        k := files[i].largest;
      }
    }
    assert files[..|files|] == files;
    return Some(k);
  }

  method FindSmallestBoundaryFile(levelFiles: seq<FileMeta>, k: InternalKey) returns (r: Option<FileMeta>)
    ensures r.None? ==> NoBoundary(levelFiles, k)
    ensures r.Some? ==> r.value in levelFiles && Boundary(r.value, k)
    ensures r.Some? ==> forall f :: f in levelFiles && Boundary(f, k) ==> NotAfter(r.value.smallest, f.smallest)
  {
    r := None;
    for i := 0 to |levelFiles|
      invariant r.None? ==> NoBoundary(levelFiles[..i], k)
      invariant r.Some? ==> r.value in levelFiles && Boundary(r.value, k)
      invariant r.Some? ==> forall f :: f in levelFiles[..i] && Boundary(f, k) ==>
                NotAfter(r.value.smallest, f.smallest)
    {
      assert levelFiles[..i + 1] == levelFiles[..i] + [levelFiles[i]];
      var f := levelFiles[i];
      if Boundary(f, k) && (r.None? || Before(f.smallest, r.value.smallest)) {
        r := Some(f);
      }
    }
    assert levelFiles[..|levelFiles|] == levelFiles;
  }

  function CountAfter(files: seq<FileMeta>, k: InternalKey): nat {
    if files == [] then 0
    else (if Before(k, files[0].smallest) then 1 else 0) + CountAfter(files[1..], k)
  }

  lemma {:induction false} LaterKeyFewerAfter(files: seq<FileMeta>, k: InternalKey, k': InternalKey, f: FileMeta)
    requires Before(k, k')
    ensures CountAfter(files, k') <= CountAfter(files, k)
    ensures f in files && Before(k, f.smallest) && !Before(k', f.smallest) ==>
            CountAfter(files, k') < CountAfter(files, k)
  {
    if files != [] {
      LaterKeyFewerAfter(files[1..], k, k', f);
    }
  }

  /** The chosen files of a sorted level have no gaps. */
  ghost predicate Contiguous(all: seq<FileMeta>, some: seq<FileMeta>) {
    forall i, j, k :: 0 <= i < j < k < |all| && all[i] in some && all[k] in some ==> all[j] in some
  }

  lemma LevelOrder(all: seq<FileMeta>, i: nat, j: nat)
    requires AllForward(all) && SortedLevel(all) && i < j < |all|
    ensures Before(all[i].smallest, all[j].smallest) && Before(all[i].largest, all[j].largest)
    ensures Before(all[i].largest, all[j].smallest) && all[i] != all[j]
  {
    assert all[i] in all && all[j] in all;
    assert Forward(all[i]) && Forward(all[j]);
  }

  /** The first boundary file after `k` is the right neighbour of the file that ends at `k`. */
  lemma BoundaryIsNeighbour(all: seq<FileMeta>, k: InternalKey, q: nat, m: nat)
    requires AllForward(all) && SortedLevel(all) && q < |all| && m < |all|
    requires all[q].largest == k && Boundary(all[m], k)
    requires forall f :: f in all && Boundary(f, k) ==> NotAfter(all[m].smallest, f.smallest)
    ensures m == q + 1
  {
    assert all[q] in all && Forward(all[q]) && all[m] in all;
    if m < q { LevelOrder(all, m, q); }
    if m > q + 1 {
      var n := q + 1;
      assert all[n] in all && Forward(all[n]);
      LevelOrder(all, n, m);
    }
  }

  /** Members of the choice lie at or before its last file. */
  lemma AtMostTop(all: seq<FileMeta>, some: seq<FileMeta>, k: InternalKey, q: nat, i: nat)
    requires AllForward(all) && SortedLevel(all) && q < |all| && i < |all|
    requires IsLargest(some, k) && all[q].largest == k
    ensures all[i] in some ==> i <= q
  {
    if i > q { LevelOrder(all, q, i); }
  }

  lemma NoRepeat(all: seq<FileMeta>, i: nat, j: nat)
    requires AllForward(all) && SortedLevel(all) && i < |all| && j < |all|
    ensures all[i] == all[j] ==> i == j
  {
    if i < j { LevelOrder(all, i, j); }
    if j < i { LevelOrder(all, j, i); }
  }

  lemma BoundaryKeepsContiguous(all: seq<FileMeta>, some: seq<FileMeta>, k: InternalKey, g: FileMeta)
    requires AllForward(all) && SortedLevel(all) && Sublist(some, all) && Contiguous(all, some)
    requires IsLargest(some, k) && g in all && Boundary(g, k)
    requires forall f :: f in all && Boundary(f, k) ==> NotAfter(g.smallest, f.smallest)
    ensures Contiguous(all, some + [g])
  {
    var top :| top in some && top.largest == k;
    var q :| 0 <= q < |all| && all[q] == top;
    var m :| 0 <= m < |all| && all[m] == g;
    BoundaryIsNeighbour(all, k, q, m);
    forall i, j, l | 0 <= i < j < l < |all| && all[i] in some + [g] && all[l] in some + [g]
      ensures all[j] in some + [g]
    {
      NoRepeat(all, i, m);
      NoRepeat(all, l, m);
      AtMostTop(all, some, k, q, i);
      AtMostTop(all, some, k, q, l);
      assert j == q || (i < j < q && all[q] in some);
    }
  }

  /** Each file that was added starts with the user key that another one ends with. */
  ghost predicate OnlyBoundary(inputs: seq<FileMeta>, r: seq<FileMeta>) {
    forall f :: f in r && f !in inputs ==> exists g :: g in r && Boundary(f, g.largest)
  }

  lemma OnlyBoundaryAdd(inputs: seq<FileMeta>, r: seq<FileMeta>, k: InternalKey, g: FileMeta)
    requires OnlyBoundary(inputs, r) && IsLargest(r, k) && Boundary(g, k)
    ensures OnlyBoundary(inputs, r + [g])
  {
    var top :| top in r && top.largest == k;
    forall f | f in r + [g] && f !in inputs ensures exists h :: h in r + [g] && Boundary(f, h.largest) {
      if f in r {
        var h :| h in r && Boundary(f, h.largest);
        assert h in r + [g];
      } else {
        assert f == g && top in r + [g];
      }
    }
  }

  /** Adds boundary files until none is left.  The largest key strictly rises, so the loop
      ends, and no file is added twice. */
  method AddBoundaryInputs(levelFiles: seq<FileMeta>, inputs: seq<FileMeta>) returns (r: seq<FileMeta>)
    requires AllForward(levelFiles) && Sublist(inputs, levelFiles)
    ensures inputs <= r && Sublist(r, levelFiles)
    ensures forall k :: IsLargest(r, k) ==> NoBoundary(levelFiles, k)
    ensures OnlyBoundary(inputs, r)
    ensures SortedLevel(levelFiles) && Contiguous(levelFiles, inputs) ==> Contiguous(levelFiles, r)
    ensures (forall f, g :: f in levelFiles && g in inputs && UserOverlap(f, g) ==> f in inputs) ==> r == inputs
  {
    hide Contiguous, SortedLevel, CountAfter, UserOverlap, NoBoundary, NoDuplicates, AllForward;
    r := inputs;
    var largest := FindLargestKey(inputs);
    if largest.None? { return; }
    var k := largest.value;
    var searching := true;
    while searching
      invariant inputs <= r && Sublist(r, levelFiles) && IsLargest(r, k) && OnlyBoundary(inputs, r)
      invariant !searching ==> NoBoundary(levelFiles, k)
      invariant SortedLevel(levelFiles) && Contiguous(levelFiles, inputs) ==> Contiguous(levelFiles, r)
      invariant (forall f, g :: f in levelFiles && g in inputs && UserOverlap(f, g) ==> f in inputs) ==> r == inputs
      decreases searching, CountAfter(levelFiles, k)
    {
      var next := FindSmallestBoundaryFile(levelFiles, k);
      if next.Some? {
        var g := next.value;
        BoundaryIsNew(levelFiles, r, k, g);
        if SortedLevel(levelFiles) && Contiguous(levelFiles, inputs) {
          BoundaryKeepsContiguous(levelFiles, r, k, g);
        }
        LaterKeyFewerAfter(levelFiles, k, g.largest, g);
        OnlyBoundaryAdd(inputs, r, k, g);
        r := r + [g];
        k := g.largest;
      } else {
        searching := false;
      }
    }
    LargestUnique(r, k);
  }

  lemma BoundaryIsNew(levelFiles: seq<FileMeta>, r: seq<FileMeta>, k: InternalKey, g: FileMeta)
    requires AllForward(levelFiles) && Sublist(r, levelFiles) && IsLargest(r, k)
    requires g in levelFiles && Boundary(g, k)
    ensures Forward(g) && g !in r && Sublist(r + [g], levelFiles) && IsLargest(r + [g], g.largest)
    ensures exists f :: f in r && UserOverlap(g, f)
  {
    assert Forward(g);
    var top :| top in r && top.largest == k;
    assert Forward(top) && UserOverlap(g, top);
    assert g in r + [g];
  }

  lemma LargestUnique(r: seq<FileMeta>, k: InternalKey)
    requires IsLargest(r, k)
    ensures forall k' :: IsLargest(r, k') ==> k' == k
  {
  }

  // ---- setting up both input lists ----

  function TotalFileSize(files: seq<FileMeta>): nat {
    if files == [] then 0 else files[0].size + TotalFileSize(files[1..])
  }

  ghost predicate IsSmallest(files: seq<FileMeta>, k: InternalKey) {
    && (exists f :: f in files && f.smallest == k)
    && forall f :: f in files ==> NotAfter(k, f.smallest)
  }

  lemma RangeGrows(files: seq<FileMeta>, f: FileMeta, smallest: InternalKey, largest: InternalKey)
    requires IsSmallest(files, smallest) && IsLargest(files, largest)
    ensures IsSmallest(files + [f], if Before(f.smallest, smallest) then f.smallest else smallest)
    ensures IsLargest(files + [f], if Before(largest, f.largest) then f.largest else largest)
  {
    var a :| a in files && a.smallest == smallest;
    var b :| b in files && b.largest == largest;
    assert f in files + [f] && a in files + [f] && b in files + [f];
  }

  method GetRange(inputs: seq<FileMeta>) returns (smallest: InternalKey, largest: InternalKey)
    requires inputs != []
    ensures IsSmallest(inputs, smallest) && IsLargest(inputs, largest)
  {
    smallest, largest := inputs[0].smallest, inputs[0].largest;
    for i := 1 to |inputs|
      invariant IsSmallest(inputs[..i], smallest) && IsLargest(inputs[..i], largest)
    {
      var f := inputs[i];
      assert inputs[..i + 1] == inputs[..i] + [f];
      RangeGrows(inputs[..i], f, smallest, largest);
      if Before(f.smallest, smallest) {
        smallest := f.smallest;
      }
      if Before(largest, f.largest) {
        largest := f.largest;
      }
    }
    assert inputs[..|inputs|] == inputs;
  }

  /** `h` meets the user-key range spanned by `files`. */
  ghost predicate MeetsHull(files: seq<FileMeta>, h: FileMeta) {
    exists f, g :: f in files && g in files && f.smallest.user <= h.largest.user && h.smallest.user <= g.largest.user
  }

  lemma HullIsRange(files: seq<FileMeta>, smallest: InternalKey, largest: InternalKey, h: FileMeta)
    requires IsSmallest(files, smallest) && IsLargest(files, largest)
    ensures MeetsHull(files, h) <==> InRange(h, Some(smallest.user), Some(largest.user))
  {
    var f :| f in files && f.smallest == smallest;
    var g :| g in files && g.largest == largest;
  }

  /** Choices that leave no overlapping file behind (level 0) or no gap (above). */
  ghost predicate Gapless(files: seq<FileMeta>, level: nat, chosen: seq<FileMeta>) {
    if level == 0 then forall f, g :: f in files && g in chosen && UserOverlap(f, g) ==> f in chosen
    else Contiguous(files, chosen)
  }

  ghost predicate GoodLevels(v: Levels) {
    && |v| == NUM_LEVELS
    && (forall l :: 0 <= l < NUM_LEVELS ==> AllForward(v[l]) && NoDuplicates(v[l]))
    && (forall l :: 1 <= l < NUM_LEVELS ==> SortedLevel(v[l]))
  }

  /** What the choice of inputs promises the compaction. */
  ghost predicate ValidInputs(v: Levels, level: nat, in0: seq<FileMeta>, in1: seq<FileMeta>)
    requires |v| == NUM_LEVELS && level + 1 < NUM_LEVELS
  {
    && in0 != [] && Sublist(in0, v[level]) && Sublist(in1, v[level + 1])
    && Gapless(v[level], level, in0)
    && (forall k :: IsLargest(in0, k) ==> NoBoundary(v[level], k))
    && (forall h :: h in in1 <==> h in v[level + 1] && MeetsHull(in0, h))
  }

  lemma BetweenInRange(files: seq<FileMeta>, i: nat, j: nat, k: nat, begin: Bound, end: Bound)
    requires AllForward(files) && SortedLevel(files) && i < j < k < |files|
    requires InRange(files[i], begin, end) && InRange(files[k], begin, end)
    ensures files[j] in files && InRange(files[j], begin, end)
  {
    LevelOrder(files, i, j);
    LevelOrder(files, j, k);
  }

  lemma RangeIsGapless(files: seq<FileMeta>, level: nat, begin: Bound, end: Bound)
    requires AllForward(files) && (level > 0 ==> SortedLevel(files))
    requires level == 0 ==> Within(FilterRange(files, begin, end), begin, end)
    ensures Gapless(files, level, FilterRange(files, begin, end))
  {
    var chosen := FilterRange(files, begin, end);
    FilterRangeMembers(files, begin, end);
    if level > 0 {
      forall i, j, k | 0 <= i < j < k < |files| && files[i] in chosen && files[k] in chosen ensures files[j] in chosen {
        BetweenInRange(files, i, j, k, begin, end);
      }
    }
  }

  /** Level+1 files that meet the user-key range of `in0`. */
  method OverlapsOfInputs(files: seq<FileMeta>, level: nat, in0: seq<FileMeta>) returns (r: seq<FileMeta>)
    requires level > 0 && AllForward(files) && NoDuplicates(files) && in0 != [] && AllForward(in0)
    ensures Sublist(r, files)
    ensures forall h :: h in r <==> h in files && MeetsHull(in0, h)
  {
    var smallest, largest := GetRange(in0);
    var f :| f in in0 && f.smallest == smallest;
    assert Forward(f);
    ghost var b, e;
    r, b, e := GetOverlappingInputs(files, level, Some(smallest.user), Some(largest.user));
    forall h ensures h in r <==> h in files && MeetsHull(in0, h) {
      HullIsRange(in0, smallest, largest, h);
    }
  }

  /** Inputs without growing: the picked files, boundary files, and the output-level files that
      meet their range. */
  ghost predicate IsBase(v: Levels, level: nat, picked: seq<FileMeta>, base0: seq<FileMeta>, base1: seq<FileMeta>)
    requires |v| == NUM_LEVELS && level + 1 < NUM_LEVELS
  {
    picked <= base0 && OnlyBoundary(picked, base0) && ValidInputs(v, level, base0, base1)
  }

  /** The larger choice: it starts from all files of `level` in the range of both lists. */
  ghost predicate IsExpansion(v: Levels, level: nat, in0: seq<FileMeta>, in1: seq<FileMeta>, expanded0: seq<FileMeta>,
                              expanded1: seq<FileMeta>)
    requires |v| == NUM_LEVELS && level + 1 < NUM_LEVELS
  {
    exists start, limit, chosen :: Spans(in0 + in1, start, limit) &&
      IsOverlap(v[level], level, Some(start.user), Some(limit.user), chosen) &&
      IsBase(v, level, chosen, expanded0, expanded1)
  }

  ghost predicate Spans(files: seq<FileMeta>, start: InternalKey, limit: InternalKey) {
    IsSmallest(files, start) && IsLargest(files, limit)
  }

  /** Growing brings in more files, none of the output level, and stays within the limit. */
  predicate Pays(in0: seq<FileMeta>, in1: seq<FileMeta>, expanded0: seq<FileMeta>, expanded1: seq<FileMeta>,
                 sizeLimit: nat)
  {
    |expanded0| > |in0| && TotalFileSize(in1) + TotalFileSize(expanded0) < sizeLimit && |expanded1| == |in1|
  }

  /** The inputs come from the picked files, grown exactly if there are files of the output
      level and growing pays. */
  ghost predicate FromPicked(v: Levels, level: nat, picked: seq<FileMeta>, sizeLimit: nat, in0: seq<FileMeta>,
                             in1: seq<FileMeta>)
    requires |v| == NUM_LEVELS && level + 1 < NUM_LEVELS
  {
    exists base0, base1 :: IsBase(v, level, picked, base0, base1) &&
      if base1 == [] then in0 == base0 && in1 == base1 else GrownIfPays(v, level, base0, base1, sizeLimit, in0, in1)
  }

  ghost predicate GrownIfPays(v: Levels, level: nat, base0: seq<FileMeta>, base1: seq<FileMeta>, sizeLimit: nat,
                        in0: seq<FileMeta>, in1: seq<FileMeta>)
    requires |v| == NUM_LEVELS && level + 1 < NUM_LEVELS
  {
    exists expanded0, expanded1 :: IsExpansion(v, level, base0, base1, expanded0, expanded1) &&
      if Pays(base0, base1, expanded0, expanded1, sizeLimit) then in0 == expanded0 && in1 == expanded1
      else in0 == base0 && in1 == base1
  }

  /** Files of `level` lie in the range that they span with others. */
  lemma InSpan(files: seq<FileMeta>, in0: seq<FileMeta>, in1: seq<FileMeta>, start: InternalKey, limit: InternalKey,
               f: FileMeta)
    requires AllForward(files) && f in in0 && f in files && Spans(in0 + in1, start, limit)
    ensures start.user <= f.smallest.user && f.largest.user <= limit.user
    ensures start.user <= limit.user && InRange(f, Some(start.user), Some(limit.user))
  {
    assert f in in0 + in1;
    assert Forward(f);
  }

  /** The larger choice holds the smaller one. */
  lemma ExpansionHas(v: Levels, level: nat, in0: seq<FileMeta>, in1: seq<FileMeta>, expanded0: seq<FileMeta>,
                     expanded1: seq<FileMeta>)
    requires GoodLevels(v) && level + 1 < NUM_LEVELS && ValidInputs(v, level, in0, in1)
    requires IsExpansion(v, level, in0, in1, expanded0, expanded1)
    ensures forall f :: f in in0 ==> f in expanded0
    ensures forall f :: f in in1 ==> f in expanded1
  {
    hide IsOverlap, OnlyBoundary, Spans, Gapless, NoBoundary, SortedLevel, MeetsHull, InRange, IsLargest;
    var start, limit, chosen :| Spans(in0 + in1, start, limit) &&
      IsOverlap(v[level], level, Some(start.user), Some(limit.user), chosen) &&
      IsBase(v, level, chosen, expanded0, expanded1);
    forall f | f in in0 ensures f in expanded0 {
      InSpan(v[level], in0, in1, start, limit, f);
      OverlapHas(v[level], level, Some(start.user), Some(limit.user), chosen, f);
    }
    forall h | h in in1 ensures h in expanded1 { HullGrows(in0, expanded0, h); }
  }

  lemma HullGrows(files: seq<FileMeta>, more: seq<FileMeta>, h: FileMeta)
    requires (forall f :: f in files ==> f in more) && MeetsHull(files, h)
    ensures MeetsHull(more, h)
  {
  }

  /** Every picked file is among the inputs. */
  lemma PickedStay(v: Levels, level: nat, picked: seq<FileMeta>, sizeLimit: nat, in0: seq<FileMeta>, in1: seq<FileMeta>)
    requires GoodLevels(v) && level + 1 < NUM_LEVELS && FromPicked(v, level, picked, sizeLimit, in0, in1)
    ensures forall f :: f in picked ==> f in in0
    ensures ValidInputs(v, level, in0, in1)
  {
    hide ValidInputs, IsExpansion, OnlyBoundary, Pays;
    var base0, base1 :| IsBase(v, level, picked, base0, base1) &&
      if base1 == [] then in0 == base0 && in1 == base1 else GrownIfPays(v, level, base0, base1, sizeLimit, in0, in1);
    if base1 != [] {
      var expanded0, expanded1 :| IsExpansion(v, level, base0, base1, expanded0, expanded1) &&
        if Pays(base0, base1, expanded0, expanded1, sizeLimit) then in0 == expanded0 && in1 == expanded1
        else in0 == base0 && in1 == base1;
      ExpansionHas(v, level, base0, base1, expanded0, expanded1);
      ExpansionValid(v, level, base0, base1, expanded0, expanded1);
    }
  }

  lemma ExpansionValid(v: Levels, level: nat, in0: seq<FileMeta>, in1: seq<FileMeta>, expanded0: seq<FileMeta>,
                       expanded1: seq<FileMeta>)
    requires |v| == NUM_LEVELS && level + 1 < NUM_LEVELS && IsExpansion(v, level, in0, in1, expanded0, expanded1)
    ensures ValidInputs(v, level, expanded0, expanded1)
  {
    hide ValidInputs, Spans, IsOverlap, OnlyBoundary;
  }

  /** Growing brings in no file of the output level. */
  lemma GrowingIsFree(v: Levels, level: nat, base0: seq<FileMeta>, base1: seq<FileMeta>, expanded0: seq<FileMeta>,
                      expanded1: seq<FileMeta>, sizeLimit: nat)
    requires GoodLevels(v) && level + 1 < NUM_LEVELS && ValidInputs(v, level, base0, base1)
    requires IsExpansion(v, level, base0, base1, expanded0, expanded1)
    requires Pays(base0, base1, expanded0, expanded1, sizeLimit)
    ensures forall h :: h in expanded1 <==> h in base1
  {
    hide ValidInputs, IsExpansion;
    ExpansionHas(v, level, base0, base1, expanded0, expanded1);
    ExpansionValid(v, level, base0, base1, expanded0, expanded1);
    ValidSublists(v, level, base0, base1);
    ValidSublists(v, level, expanded0, expanded1);
    SameCount(base1, expanded1);
  }

  lemma ValidSublists(v: Levels, level: nat, in0: seq<FileMeta>, in1: seq<FileMeta>)
    requires |v| == NUM_LEVELS && level + 1 < NUM_LEVELS && ValidInputs(v, level, in0, in1)
    ensures NoDuplicates(in0) && NoDuplicates(in1)
  {
  }

  lemma {:induction false} CountDistinct(files: seq<FileMeta>)
    requires NoDuplicates(files)
    ensures |set f | f in files| == |files|
  {
    if files != [] {
      var init, last := files[..|files| - 1], files[|files| - 1];
      CountDistinct(init);
      assert files == init + [last];
      assert (set f | f in files) == (set f | f in init) + {last};
    }
  }

  lemma SameCount(some: seq<FileMeta>, more: seq<FileMeta>)
    requires NoDuplicates(some) && NoDuplicates(more) && |some| == |more|
    requires forall f :: f in some ==> f in more
    ensures forall f :: f in more ==> f in some
  {
    CountDistinct(some);
    CountDistinct(more);
    var a, b := set f | f in some, set f | f in more;
    assert a <= b;
    if a != b { SmallerSet(a, b); }
    forall f | f in more ensures f in some { assert f in b; }
  }

  lemma {:induction false} SmallerSet(a: set<FileMeta>, b: set<FileMeta>)
    requires a < b
    ensures |a| < |b|
  {
    var rest := b - a;
    assert b == a + rest && rest != {};
  }

  /** Closes the chosen files of `level` over boundary files and finds the level+1 files,
      then grows the choice if that does not bring in more level+1 files. */
  method SetupOtherInputs(v: Levels, level: nat, picked: seq<FileMeta>, sizeLimit: nat)
    returns (in0: seq<FileMeta>, in1: seq<FileMeta>)
    requires GoodLevels(v) && level + 1 < NUM_LEVELS
    requires picked != [] && Sublist(picked, v[level]) && Gapless(v[level], level, picked)
    ensures ValidInputs(v, level, in0, in1) && FromPicked(v, level, picked, sizeLimit, in0, in1)
    ensures forall f :: f in picked ==> f in in0
  {
    hide FromPicked, GrownIfPays, IsExpansion;
    in0 := AddBoundaryInputs(v[level], picked);
    in1 := OverlapsOfInputs(v[level + 1], level + 1, in0);
    ghost var base0, base1 := in0, in1;
    assert IsBase(v, level, picked, base0, base1);
    if in1 != [] {
      var expanded0, expanded1 := ExpandInputs(v, level, in0, in1);
      ghost var pays := Pays(base0, base1, expanded0, expanded1, sizeLimit);
      if |expanded0| > |in0| && TotalFileSize(in1) + TotalFileSize(expanded0) < sizeLimit && |expanded1| == |in1| {
        in0, in1 := expanded0, expanded1;
      }
      GrownIfPaysIs(v, level, base0, base1, expanded0, expanded1, sizeLimit, in0, in1);
    }
    FromPickedIs(v, level, picked, base0, base1, sizeLimit, in0, in1);
    PickedStay(v, level, picked, sizeLimit, in0, in1);
  }

  lemma GrownIfPaysIs(v: Levels, level: nat, base0: seq<FileMeta>, base1: seq<FileMeta>, expanded0: seq<FileMeta>,
                expanded1: seq<FileMeta>, sizeLimit: nat, in0: seq<FileMeta>, in1: seq<FileMeta>)
    requires |v| == NUM_LEVELS && level + 1 < NUM_LEVELS && IsExpansion(v, level, base0, base1, expanded0, expanded1)
    requires if Pays(base0, base1, expanded0, expanded1, sizeLimit) then in0 == expanded0 && in1 == expanded1
             else in0 == base0 && in1 == base1
    ensures GrownIfPays(v, level, base0, base1, sizeLimit, in0, in1)
  {
    hide IsExpansion;
  }

  lemma FromPickedIs(v: Levels, level: nat, picked: seq<FileMeta>, base0: seq<FileMeta>, base1: seq<FileMeta>,
                     sizeLimit: nat, in0: seq<FileMeta>, in1: seq<FileMeta>)
    requires |v| == NUM_LEVELS && level + 1 < NUM_LEVELS && IsBase(v, level, picked, base0, base1)
    requires if base1 == [] then in0 == base0 && in1 == base1
      else GrownIfPays(v, level, base0, base1, sizeLimit, in0, in1)
    ensures FromPicked(v, level, picked, sizeLimit, in0, in1)
  {
    hide IsBase, GrownIfPays;
  }

  /** The larger choice: every file of `level` in the range of both input lists. */
  method ExpandInputs(v: Levels, level: nat, in0: seq<FileMeta>, in1: seq<FileMeta>)
    returns (expanded0: seq<FileMeta>, expanded1: seq<FileMeta>)
    requires GoodLevels(v) && level + 1 < NUM_LEVELS && ValidInputs(v, level, in0, in1)
    ensures expanded0 != [] && ValidInputs(v, level, expanded0, expanded1)
    ensures IsExpansion(v, level, in0, in1, expanded0, expanded1)
  {
    hide MeetsHull, NoBoundary, Contiguous, IsSmallest, IsLargest, RangeForced, FilterRange, Wider, UserOverlap,
      SortedLevel, IsOverlap, OnlyBoundary, InRange, Within;
    var allStart, allLimit := GetRange(in0 + in1);
    assert Spans(in0 + in1, allStart, allLimit);
    InSpan(v[level], in0, in1, allStart, allLimit, in0[0]);
    ghost var b, e;
    expanded0, b, e := GetOverlappingInputs(v[level], level, Some(allStart.user), Some(allLimit.user));
    OverlapIs(v[level], level, Some(allStart.user), Some(allLimit.user), expanded0, b, e);
    OverlapHas(v[level], level, Some(allStart.user), Some(allLimit.user), expanded0, in0[0]);
    ghost var chosen := expanded0;
    RangeIsGapless(v[level], level, b, e);
    expanded0 := AddBoundaryInputs(v[level], expanded0);
    expanded1 := OverlapsOfInputs(v[level + 1], level + 1, expanded0);
    assert IsBase(v, level, chosen, expanded0, expanded1);
  }

  lemma SingletonGapless(files: seq<FileMeta>, level: nat, f: FileMeta)
    requires level > 0 && AllForward(files) && SortedLevel(files) && f in files
    ensures Gapless(files, level, [f])
  {
    forall i, k | 0 <= i < |files| && 0 <= k < |files| ensures files[i] == files[k] ==> i == k {
      NoRepeat(files, i, k);
    }
  }

  /** What is picked for a seed file: at level 0 with all that overlap it, else alone. */
  ghost predicate IsPicked(files: seq<FileMeta>, level: nat, seed: FileMeta, picked: seq<FileMeta>) {
    if level == 0 then IsOverlap(files, 0, Some(seed.smallest.user), Some(seed.largest.user), picked)
    else picked == [seed]
  }

  ghost predicate FromSeed(v: Levels, level: nat, seed: FileMeta, sizeLimit: nat, in0: seq<FileMeta>,
                           in1: seq<FileMeta>)
    requires |v| == NUM_LEVELS && level + 1 < NUM_LEVELS
  {
    exists picked :: IsPicked(v[level], level, seed, picked) && FromPicked(v, level, picked, sizeLimit, in0, in1)
  }

  /** Inputs of an automatic compaction that starts from `seed`, the file the size rule or
      the seek rule picked. */
  method PickCompactionInputs(v: Levels, level: nat, seed: FileMeta, sizeLimit: nat)
    returns (in0: seq<FileMeta>, in1: seq<FileMeta>)
    requires GoodLevels(v) && level + 1 < NUM_LEVELS && seed in v[level]
    ensures ValidInputs(v, level, in0, in1) && seed in in0
    ensures FromSeed(v, level, seed, sizeLimit, in0, in1)
  {
    hide IsOverlap, FromPicked;
    assert Forward(seed);
    var picked := [seed];
    if level == 0 {
      ghost var b, e;
      picked, b, e := GetOverlappingInputs(v[0], 0, Some(seed.smallest.user), Some(seed.largest.user));
      RangeIsGapless(v[0], 0, b, e);
      OverlapIs(v[0], 0, Some(seed.smallest.user), Some(seed.largest.user), picked, b, e);
      OverlapHas(v[0], 0, Some(seed.smallest.user), Some(seed.largest.user), picked, seed);
    } else {
      SingletonGapless(v[level], level, seed);
    }
    assert IsPicked(v[level], level, seed, picked);
    in0, in1 := SetupOtherInputs(v, level, picked, sizeLimit);
  }

  /** The seed of a size compaction: the first file that ends after the compaction pointer of
      the level, or the first of all. */
  method PickSeed(files: seq<FileMeta>, pointer: Option<InternalKey>) returns (seed: FileMeta)
    requires files != []
    ensures exists i :: 0 <= i < |files| && files[i] == seed && IsSeed(files, pointer, i)
  {
    for i := 0 to |files|
      invariant forall j :: 0 <= j < i ==> !EndsAfter(files[j], pointer)
    {
      if pointer.None? || Before(pointer.value, files[i].largest) {
        assert files[i] in files && EndsAfter(files[i], pointer) && IsSeed(files, pointer, i);
        return files[i];
      }
    }
    assert IsSeed(files, pointer, 0);
    return files[0];
  }

  predicate EndsAfter(f: FileMeta, pointer: Option<InternalKey>) {
    pointer.Some? ==> Before(pointer.value, f.largest)
  }

  ghost predicate IsSeed(files: seq<FileMeta>, pointer: Option<InternalKey>, i: nat)
    requires i < |files|
  {
    if exists f :: f in files && EndsAfter(f, pointer)
    then EndsAfter(files[i], pointer) && forall j :: 0 <= j < i ==> !EndsAfter(files[j], pointer)
    else i == 0
  }

  lemma {:induction false} FilterKeepsOrder(files: seq<FileMeta>, begin: Bound, end: Bound)
    requires AllForward(files) && SortedLevel(files)
    ensures SortedLevel(FilterRange(files, begin, end))
  {
    FilterRangeMembers(files, begin, end);
    if files != [] {
      var init, last := files[..|files| - 1], files[|files| - 1];
      FilterKeepsOrder(init, begin, end);
      FilterRangeMembers(init, begin, end);
      forall f | f in FilterRange(init, begin, end) ensures Before(f.largest, last.smallest) {
        var k :| 0 <= k < |init| && init[k] == f;
        assert files[k] == f;
      }
    }
  }

  /** A prefix of a gapless, ordered choice is gapless. */
  lemma PrefixGapless(files: seq<FileMeta>, level: nat, chosen: seq<FileMeta>, n: nat)
    requires level > 0 && AllForward(files) && SortedLevel(files) && SortedLevel(chosen)
    requires Sublist(chosen, files) && Contiguous(files, chosen) && n <= |chosen|
    ensures Gapless(files, level, chosen[..n])
  {
    forall i, j, k | 0 <= i < j < k < |files| && files[i] in chosen[..n] && files[k] in chosen[..n]
      ensures files[j] in chosen[..n]
    {
      assert files[j] in chosen;
      var q :| 0 <= q < |chosen| && chosen[q] == files[j];
      var r :| 0 <= r < n && chosen[r] == files[k];
      LevelOrder(files, j, k);
      assert AllForward(chosen);
      if r <= q { NoRepeat(chosen, r, q); }
      if r < q { LevelOrder(chosen, r, q); }
    }
  }

  lemma {:induction false} TotalOfConcat(a: seq<FileMeta>, b: seq<FileMeta>)
    ensures TotalFileSize(a + b) == TotalFileSize(a) + TotalFileSize(b)
    ensures |b| == 1 ==> TotalFileSize(b) == b[0].size
  {
    if a == [] {
      assert a + b == b;
    } else {
      assert (a + b)[1..] == a[1..] + b;
      TotalOfConcat(a[1..], b);
    }
  }

  /** Above level 0 the choice ends with the first file that brings it to the size limit. */
  ghost predicate CutAt(level: nat, chosen: seq<FileMeta>, n: nat, maxFileSize: nat) {
    && 1 <= n <= |chosen|
    && (level == 0 ==> n == |chosen|)
    && (level > 0 ==> SortedLevel(chosen) && forall m :: 0 < m < n ==> TotalFileSize(chosen[..m]) < maxFileSize)
    && (n < |chosen| ==> TotalFileSize(chosen[..n]) >= maxFileSize)
  }

  method LimitSize(inputs: seq<FileMeta>, level: nat, maxFileSize: nat) returns (n: nat)
    requires level > 0 && inputs != [] && SortedLevel(inputs)
    ensures CutAt(level, inputs, n, maxFileSize)
  {
    hide SortedLevel, TotalFileSize;
    var total, cut := 0, false;
    n := 0;
    NothingTotal(inputs);
    while n < |inputs| && !cut
      invariant 0 <= n <= |inputs| && (n == 0 ==> !cut) && total == TotalFileSize(inputs[..n])
      invariant cut <==> n > 0 && total >= maxFileSize
      invariant forall m :: 0 < m < n ==> TotalFileSize(inputs[..m]) < maxFileSize
    {
      assert inputs[..n + 1] == inputs[..n] + [inputs[n]];
      TotalOfConcat(inputs[..n], [inputs[n]]);
      total := total + inputs[n].size;
      n := n + 1;
      cut := total >= maxFileSize;
    }
  }

  lemma NothingTotal(files: seq<FileMeta>)
    ensures TotalFileSize(files[..0]) == 0
  {
  }

  ghost predicate FromRange(v: Levels, level: nat, begin: Bound, end: Bound, maxFileSize: nat, sizeLimit: nat,
                            in0: seq<FileMeta>, in1: seq<FileMeta>)
    requires |v| == NUM_LEVELS && level + 1 < NUM_LEVELS
  {
    exists chosen, n: nat ::
      && IsOverlap(v[level], level, begin, end, chosen) && CutAt(level, chosen, n, maxFileSize)
      && FromPicked(v, level, chosen[..n], sizeLimit, in0, in1)
  }

  /** Inputs of a manual compaction; above level 0 the choice is cut once it is large. */
  method CompactRangeInputs(v: Levels, level: nat, begin: Bound, end: Bound, maxFileSize: nat, sizeLimit: nat)
    returns (found: bool, in0: seq<FileMeta>, in1: seq<FileMeta>)
    requires GoodLevels(v) && level + 1 < NUM_LEVELS
    ensures found ==> ValidInputs(v, level, in0, in1)
    ensures found ==> FromRange(v, level, begin, end, maxFileSize, sizeLimit, in0, in1)
    ensures found <==> exists f :: f in v[level] && InRange(f, begin, end)
  {
    hide IsOverlap, FromPicked;
    ghost var b, e;
    var inputs;
    inputs, b, e := GetOverlappingInputs(v[level], level, begin, end);
    OverlapIs(v[level], level, begin, end, inputs, b, e);
    forall f | f in v[level] && InRange(f, begin, end) ensures f in inputs {
      OverlapHas(v[level], level, begin, end, inputs, f);
    }
    if inputs == [] {
      return false, [], [];
    }
    SomeInRange(v[level], level, begin, end, inputs);
    RangeIsGapless(v[level], level, b, e);
    ghost var chosen := inputs;
    var n := |inputs|;
    if level > 0 {
      FilterKeepsOrder(v[level], b, e);
      n := LimitSize(inputs, level, maxFileSize);
      PrefixGapless(v[level], level, inputs, n);
      inputs := inputs[..n];
    }
    assert chosen[..n] == inputs && CutAt(level, chosen, n, maxFileSize);
    in0, in1 := SetupOtherInputs(v, level, inputs, sizeLimit);
    found := true;
  }

  /** Files are chosen only if some file meets the range itself. */
  lemma SomeInRange(files: seq<FileMeta>, level: nat, begin: Bound, end: Bound, r: seq<FileMeta>)
    requires IsOverlap(files, level, begin, end, r) && r != []
    ensures exists f :: f in files && InRange(f, begin, end)
  {
    hide InRange;
    var some := set f | f in r;
    assert r[0] in r && r[0] in files && r[0] in some;
    if level > 0 {
      assert InRange(r[0], begin, end);
    } else if !exists f :: f in files && InRange(f, begin, end) {
      NoneMeet(files, begin, end);
    }
  }

  lemma NoneMeet(files: seq<FileMeta>, begin: Bound, end: Bound)
    requires forall f :: f in files ==> !InRange(f, begin, end)
    ensures Closed(files, begin, end, {})
  {
  }

  // ---- trivial moves ----

  /** A single file with nothing below it to merge with and little in the level after. */
  ghost predicate IsTrivialMove(v: Levels, level: nat, in0: seq<FileMeta>, in1: seq<FileMeta>, maxOverlapBytes: nat)
    requires |v| == NUM_LEVELS && level + 1 < NUM_LEVELS
  {
    && |in0| == 1 && in1 == []
    && (level + 2 < NUM_LEVELS ==>
          TotalFileSize(FilterRange(v[level + 2], Some(in0[0].smallest.user), Some(in0[0].largest.user)))
          <= maxOverlapBytes)
  }

  method DecideTrivialMove(v: Levels, level: nat, in0: seq<FileMeta>, in1: seq<FileMeta>, maxOverlapBytes: nat)
    returns (r: bool)
    requires GoodLevels(v) && level + 1 < NUM_LEVELS && in0 != []
    ensures r <==> IsTrivialMove(v, level, in0, in1, maxOverlapBytes)
  {
    var smallest, largest := GetRange(in0 + in1);
    var grandparents := [];
    if level + 2 < NUM_LEVELS {
      ghost var b, e;
      grandparents, b, e := GetOverlappingInputs(v[level + 2], level + 2, Some(smallest.user), Some(largest.user));
    }
    if |in0| == 1 && in1 == [] {
      assert in0 + in1 == [in0[0]] && in0[0] in in0 + in1;
    }
    r := |in0| == 1 && in1 == [] && TotalFileSize(grandparents) <= maxOverlapBytes;
  }

  // ---- where a flushed memtable goes ----

  ghost predicate SomeOverlap(files: seq<FileMeta>, begin: Bound, end: Bound) {
    exists f :: f in files && InRange(f, begin, end)
  }

  /** Overlap of a user-key range with a level; binary search when the level is sorted. */
  method SomeFileOverlapsRange(files: seq<FileMeta>, disjointSorted: bool, begin: Bound, end: Bound) returns (r: bool)
    requires AllForward(files) && (disjointSorted ==> SortedLevel(files))
    requires forall f :: f in files ==> f.largest.sequence <= MAX_SEQUENCE
    ensures r <==> SomeOverlap(files, begin, end)
  {
    if !disjointSorted {
      for i := 0 to |files|
        invariant !SomeOverlap(files[..i], begin, end)
      {
        assert files[..i + 1] == files[..i] + [files[i]];
        if !AfterRange(files[i], end) && !BeforeRange(files[i], begin) {
          assert files[i] in files && InRange(files[i], begin, end);
          return true;
        }
      }
      assert files[..|files|] == files;
      return false;
    }
    forall i, j | 0 <= i < j < |files| ensures NotAfter(files[i].largest, files[j].largest) {
      LevelOrder(files, i, j);
    }
    var index := 0;
    if begin.Some? {
      index := FindFile(files, InternalKey(begin.value, MAX_SEQUENCE, Value));
    }
    SearchDecides(files, begin, end, index);
    if index >= |files| {
      return false;
    }
    r := !AfterRange(files[index], end);
  }

  /** Only the file the binary search stops at can be the first overlap. */
  lemma SearchDecides(files: seq<FileMeta>, begin: Bound, end: Bound, index: nat)
    requires AllForward(files) && SortedLevel(files) && index <= |files|
    requires forall f :: f in files ==> f.largest.sequence <= MAX_SEQUENCE
    requires begin.None? ==> index == 0
    requires begin.Some? ==> forall i :: 0 <= i < |files| ==>
               (i < index <==> Before(files[i].largest, InternalKey(begin.value, MAX_SEQUENCE, Value)))
    ensures SomeOverlap(files, begin, end) <==> index < |files| && !AfterRange(files[index], end)
  {
    if SomeOverlap(files, begin, end) {
      var f :| f in files && InRange(f, begin, end);
      var i :| 0 <= i < |files| && files[i] == f;
      assert i >= index;
      if i > index { LevelOrder(files, index, i); }
    }
    if index < |files| && !AfterRange(files[index], end) {
      assert files[index] in files && InRange(files[index], begin, end);
    }
  }

  const MAX_MEM_COMPACT_LEVEL: nat := 2

  /** No file of levels 0 to `level` meets the user-key range. */
  ghost predicate NoOverlapUpTo(v: Levels, level: nat, lo: UserKey, hi: UserKey)
    requires |v| == NUM_LEVELS
  {
    forall l :: 0 <= l <= level && l < NUM_LEVELS ==> !SomeOverlap(v[l], Some(lo), Some(hi))
  }

  /** A new table may go one level further down: nothing there overlaps it, and it overlaps
      little at the level after. */
  ghost predicate MayGoDown(v: Levels, level: nat, lo: UserKey, hi: UserKey, maxOverlapBytes: nat)
    requires |v| == NUM_LEVELS && level < MAX_MEM_COMPACT_LEVEL
  {
    && !SomeOverlap(v[level + 1], Some(lo), Some(hi))
    && TotalFileSize(FilterRange(v[level + 2], Some(lo), Some(hi))) <= maxOverlapBytes
  }

  /** It goes down from level 0 as far as it may. */
  ghost predicate IsOutputLevel(v: Levels, lo: UserKey, hi: UserKey, maxOverlapBytes: nat, level: nat)
    requires |v| == NUM_LEVELS
  {
    && level <= MAX_MEM_COMPACT_LEVEL
    && if SomeOverlap(v[0], Some(lo), Some(hi)) then level == 0
       else
         && (forall l :: 0 <= l < level ==> MayGoDown(v, l, lo, hi, maxOverlapBytes))
         && (level < MAX_MEM_COMPACT_LEVEL ==> !MayGoDown(v, level, lo, hi, maxOverlapBytes))
  }

  method PickLevelForMemTableOutput(v: Levels, lo: UserKey, hi: UserKey, maxOverlapBytes: nat) returns (level: nat)
    requires GoodLevels(v)
    requires forall l, f :: 0 <= l < NUM_LEVELS && f in v[l] ==> f.largest.sequence <= MAX_SEQUENCE
    ensures level <= MAX_MEM_COMPACT_LEVEL && (level == 0 || NoOverlapUpTo(v, level, lo, hi))
    ensures IsOutputLevel(v, lo, hi, maxOverlapBytes, level)
  {
    hide SomeOverlap, FilterRange;
    level := 0;
    var overlap := SomeFileOverlapsRange(v[0], false, Some(lo), Some(hi));
    if overlap { return; }
    while level < MAX_MEM_COMPACT_LEVEL
      invariant level <= MAX_MEM_COMPACT_LEVEL && NoOverlapUpTo(v, level, lo, hi)
      invariant forall l :: 0 <= l < level ==> MayGoDown(v, l, lo, hi, maxOverlapBytes)
    {
      overlap := SomeFileOverlapsRange(v[level + 1], true, Some(lo), Some(hi));
      if overlap { break; }
      if level + 2 < NUM_LEVELS {
        var overlaps, _, _ := GetOverlappingInputs(v[level + 2], level + 2, Some(lo), Some(hi));
        if TotalFileSize(overlaps) > maxOverlapBytes { break; }
      }
      level := level + 1;
    }
  }
}
