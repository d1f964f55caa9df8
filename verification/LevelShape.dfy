/** Installing a new version keeps the level shape and the recency order
    (flush, trivial move and compaction; db/version_set.cc 1403-1531, db/db_impl.cc 517-526). */
module LevelShape {
  import opened InternalKeys
  import opened VersionReads
  import opened CompactionInputs
  import opened Views

  /** A file number names one file at one level. */
  ghost predicate UniqueNumbers(v: Levels) {
    forall l, m, f, g :: 0 <= l < |v| && 0 <= m < |v| && f in v[l] && g in v[m] && f.number == g.number ==>
      l == m && f == g
  }

  ghost predicate VersionInv(t: Tables, v: Levels) {
    && Shape(t, v) && Recency(t, v) && UniqueNumbers(v)
    && (forall l :: 0 <= l < NUM_LEVELS ==> NoDuplicates(v[l]))
  }

  ghost function VersionEntries(t: Tables, v: Levels): set<Entry> {
    set l, f, e | 0 <= l < |v| && f in v[l] && e in Data(t, f) :: e
  }

  lemma InVersionEntries(t: Tables, v: Levels, l: nat, f: FileMeta, e: Entry)
    requires l < |v| && f in v[l] && e in Data(t, f)
    ensures e in VersionEntries(t, v)
  {
  }

  lemma GoodFilesForward(t: Tables, files: seq<FileMeta>)
    requires GoodFiles(t, files)
    ensures AllForward(files)
  {
    forall f | f in files ensures Forward(f) { FileEnds(t, f); }
  }

  lemma VersionGoodLevels(t: Tables, v: Levels)
    requires VersionInv(t, v)
    ensures GoodLevels(v)
  {
    forall l | 0 <= l < NUM_LEVELS ensures AllForward(v[l]) { GoodFilesForward(t, v[l]); }
  }

  // ---- files that share no entries ----

  /** The two files lie apart in the internal key order. */
  ghost predicate Apart(f: FileMeta, g: FileMeta) {
    Before(f.largest, g.smallest) || Before(g.largest, f.smallest)
  }

  ghost predicate PairwiseApart(files: seq<FileMeta>) {
    forall f, g :: f in files && g in files && f != g ==> Apart(f, g)
  }

  lemma SortedIsApart(files: seq<FileMeta>)
    requires SortedLevel(files)
    ensures PairwiseApart(files)
  {
    forall f, g | f in files && g in files && f != g ensures Apart(f, g) {
      var i :| 0 <= i < |files| && files[i] == f;
      var j :| 0 <= j < |files| && files[j] == g;
    }
  }

  /** Files in order of their smallest keys. */
  ghost predicate SmallestOrdered(files: seq<FileMeta>) {
    forall i, j :: 0 <= i < j < |files| ==> NotAfter(files[i].smallest, files[j].smallest) && files[i] != files[j]
  }

  lemma ApartIsSorted(files: seq<FileMeta>)
    requires AllForward(files) && SmallestOrdered(files) && PairwiseApart(files)
    ensures SortedLevel(files)
  {
    forall i, j | 0 <= i < j < |files| ensures Before(files[i].largest, files[j].smallest) {
      assert files[i] in files && files[j] in files;
      assert Apart(files[i], files[j]) && Forward(files[i]) && Forward(files[j]);
    }
  }

  lemma ApartDisjoint(t: Tables, f: FileMeta, g: FileMeta, e: Entry)
    requires GoodFile(t, f) && GoodFile(t, g) && Before(f.largest, g.smallest)
    ensures e in Data(t, f) ==> e !in Data(t, g)
    ensures forall b :: e in Data(t, f) && b in Data(t, g) ==> Before(e.key, b.key)
  {
    if e in Data(t, f) {
      FileBounds(t, f, e);
      forall b | b in Data(t, g) ensures Before(e.key, b.key) { FileBounds(t, g, b); }
    }
  }

  /** Two different files of a version have no entry in common. */
  lemma NoSharedEntries(t: Tables, v: Levels, l: nat, f: FileMeta, m: nat, g: FileMeta, e: Entry)
    requires VersionInv(t, v) && l < NUM_LEVELS && m < NUM_LEVELS
    requires f in v[l] && g in v[m] && (l != m || f != g)
    requires e in Data(t, f)
    ensures e !in Data(t, g)
  {
    if l < m { assert NewerFile(t, f, g); }
    if m < l { assert NewerFile(t, g, f); }
    if l == m && l > 0 {
      SortedIsApart(v[l]);
      assert Apart(f, g);
      if Before(f.largest, g.smallest) {
        ApartDisjoint(t, f, g, e);
      } else if e in Data(t, g) {
        ApartDisjoint(t, g, f, e);
      }
    }
    if l == m && l == 0 {
      assert f.number != g.number;
      if f.number > g.number { assert NewerFile(t, f, g); } else { assert NewerFile(t, g, f); }
    }
  }

  // ---- files left behind by a compaction ----

  lemma VersionParts(t: Tables, v: Levels)
    requires VersionInv(t, v)
    ensures |v| == NUM_LEVELS && UniqueNumbers(v) && forall l :: 0 <= l < |v| ==> NoDuplicates(v[l])
  {
    hide Recency, UniqueNumbers, NoDuplicates, GoodFiles, SortedLevel;
  }

  lemma FileIn(t: Tables, v: Levels, l: nat, f: FileMeta)
    requires VersionInv(t, v) && l < NUM_LEVELS && f in v[l]
    ensures GoodFile(t, f)
  {
    hide Recency, UniqueNumbers, NoDuplicates, SortedLevel, GoodFile;
    assert GoodFiles(t, v[l]);
  }

  /** Of two stored entries of one user key, the one that comes first is newer. */
  lemma FirstIsNewer(hist: seq<Op>, stored: set<Entry>, a: Entry, b: Entry)
    requires Genuine(hist, stored) && a in stored && b in stored && a.key.user == b.key.user && Before(a.key, b.key)
    ensures a.key.sequence > b.key.sequence
  {
  }

  /** At level 0 no file that shares a user key with an input is left out. */
  lemma NoneLeftOut(files: seq<FileMeta>, in0: seq<FileMeta>, f: FileMeta, g: FileMeta)
    requires Gapless(files, 0, in0) && f in files && g in in0 && UserOverlap(f, g)
    ensures f in in0
  {
  }

  lemma InputParts(v: Levels, level: nat, in0: seq<FileMeta>, in1: seq<FileMeta>, g: FileMeta)
    requires |v| == NUM_LEVELS && level + 1 < NUM_LEVELS && ValidInputs(v, level, in0, in1)
    ensures in0 != [] && Sublist(in0, v[level]) && Gapless(v[level], level, in0)
    ensures forall k :: IsLargest(in0, k) ==> NoBoundary(v[level], k)
    ensures (g in in0 ==> g in v[level]) && (g in in1 ==> g in v[level + 1])
  {
    hide Gapless, NoBoundary, MeetsHull, IsLargest;
  }

  /** A file of the input level that is left out is newer than the inputs it shares a user
      key with. */
  lemma LeftOutIsNewer(t: Tables, v: Levels, hist: seq<Op>, level: nat, in0: seq<FileMeta>, in1: seq<FileMeta>,
                       f: FileMeta, g: FileMeta)
    requires VersionInv(t, v) && Genuine(hist, VersionEntries(t, v)) && level + 1 < NUM_LEVELS
    requires ValidInputs(v, level, in0, in1)
    requires f in v[level] && f !in in0 && g in in0
    ensures NewerFile(t, f, g)
  {
    hide VersionInv, ValidInputs, Genuine, VersionEntries, Gapless, NoBoundary, Sublist, IsLargest, GoodFile,
      SortedLevel, NoDuplicates;
    VersionGoodLevels(t, v);
    InputParts(v, level, in0, in1, g);
    FileIn(t, v, level, f);
    FileIn(t, v, level, g);
    forall a, b | a in Data(t, f) && b in Data(t, g) && a.key.user == b.key.user
      ensures a.key.sequence > b.key.sequence
    {
      FileBounds(t, f, a);
      FileBounds(t, g, b);
      if level == 0 {
        NoneLeftOut(v[0], in0, f, g);
      } else {
        LeftOutComesFirst(v[level], level, in0, f, g);
        ApartDisjoint(t, f, g, a);
        InVersionEntries(t, v, level, f, a);
        InVersionEntries(t, v, level, g, b);
        FirstIsNewer(hist, VersionEntries(t, v), a, b);
      }
    }
  }

  /** Above level 0, a left-out file precedes an input or lies past its user keys. */
  lemma LeftOutComesFirst(files: seq<FileMeta>, level: nat, in0: seq<FileMeta>, f: FileMeta, g: FileMeta)
    requires level > 0 && AllForward(files) && SortedLevel(files)
    requires in0 != [] && Sublist(in0, files) && Gapless(files, level, in0)
    requires forall k :: IsLargest(in0, k) ==> NoBoundary(files, k)
    requires f in files && f !in in0 && g in in0
    ensures Before(f.largest, g.smallest) || f.smallest.user > g.largest.user
  {
    var p :| 0 <= p < |files| && files[p] == f;
    var q :| 0 <= q < |files| && files[q] == g;
    var top := LargestMember(in0);
    var m :| 0 <= m < |files| && files[m] == top;
    AtMostTop(files, in0, top.largest, m, q);
    assert !Boundary(f, top.largest);
    if p > m { LevelOrder(files, m, p); }
  }

  lemma {:induction false} LargestMember(files: seq<FileMeta>) returns (top: FileMeta)
    requires files != []
    ensures top in files && IsLargest(files, top.largest)
  {
    if |files| == 1 {
      top := files[0];
    } else {
      var rest := LargestMember(files[1..]);
      assert files == [files[0]] + files[1..];
      top := if Before(rest.largest, files[0].largest) then files[0] else rest;
    }
  }

  /** A level+1 file that is left out lies wholly before or wholly after every input. */
  ghost predicate AllAfter(t: Tables, h: FileMeta, files: seq<FileMeta>) {
    forall i, e :: i in files && e in Data(t, i) ==> Before(h.largest, e.key)
  }

  ghost predicate AllBefore(t: Tables, h: FileMeta, files: seq<FileMeta>) {
    forall i, e :: i in files && e in Data(t, i) ==> Before(e.key, h.smallest)
  }

  lemma LeftOutIsOutside(t: Tables, v: Levels, level: nat, in0: seq<FileMeta>, in1: seq<FileMeta>, h: FileMeta)
    requires VersionInv(t, v) && level + 1 < NUM_LEVELS && ValidInputs(v, level, in0, in1)
    requires h in v[level + 1] && h !in in1
    ensures AllAfter(t, h, in0 + in1) || AllBefore(t, h, in0 + in1)
  {
    hide Gapless, NoBoundary, Recency, NoDuplicates, GoodLevels, GoodFile, SortedLevel, AllAfter, AllBefore;
    VersionGoodLevels(t, v);
    assert !MeetsHull(in0, h);
    InputsGood(t, v, level, in0, in1);
    if forall f :: f in in0 ==> h.largest.user < f.smallest.user {
      forall i | i in in0 + in1 ensures Before(h.largest, i.smallest) {
        LowSide(v, level, in0, in1, h, i);
      }
      StartsAfter(t, h, in0 + in1);
    } else {
      assert forall g :: g in in0 ==> h.smallest.user > g.largest.user by {
        var f :| f in in0 && h.largest.user >= f.smallest.user;
      }
      forall i | i in in0 + in1 ensures Before(i.largest, h.smallest) {
        HighSide(v, level, in0, in1, h, i);
      }
      EndsBefore(t, h, in0 + in1);
    }
  }

  lemma InputsGood(t: Tables, v: Levels, level: nat, in0: seq<FileMeta>, in1: seq<FileMeta>)
    requires Shape(t, v) && level + 1 < NUM_LEVELS && ValidInputs(v, level, in0, in1)
    ensures GoodFiles(t, in0 + in1)
  {
    forall i | i in in0 + in1 ensures GoodFile(t, i) {
      if i in in0 { assert i in v[level]; } else { assert i in v[level + 1]; }
    }
  }

  lemma StartsAfter(t: Tables, h: FileMeta, files: seq<FileMeta>)
    requires GoodFiles(t, files) && forall i :: i in files ==> Before(h.largest, i.smallest)
    ensures AllAfter(t, h, files)
  {
    forall i, e | i in files && e in Data(t, i) ensures Before(h.largest, e.key) { FileBounds(t, i, e); }
  }

  lemma EndsBefore(t: Tables, h: FileMeta, files: seq<FileMeta>)
    requires GoodFiles(t, files) && forall i :: i in files ==> Before(i.largest, h.smallest)
    ensures AllBefore(t, h, files)
  {
    forall i, e | i in files && e in Data(t, i) ensures Before(e.key, h.smallest) { FileBounds(t, i, e); }
  }

  lemma LowSide(v: Levels, level: nat, in0: seq<FileMeta>, in1: seq<FileMeta>, h: FileMeta, i: FileMeta)
    requires GoodLevels(v) && level + 1 < NUM_LEVELS && ValidInputs(v, level, in0, in1)
    requires h in v[level + 1] && h !in in1 && i in in0 + in1
    requires forall f :: f in in0 ==> h.largest.user < f.smallest.user
    ensures Before(h.largest, i.smallest)
  {
    if i in in0 { return; }
    assert MeetsHull(in0, i);
    var f, g :| f in in0 && g in in0 && f.smallest.user <= i.largest.user && i.smallest.user <= g.largest.user;
    SortedIsApart(v[level + 1]);
    assert i in v[level + 1] && Apart(h, i) && Forward(h);
  }

  lemma HighSide(v: Levels, level: nat, in0: seq<FileMeta>, in1: seq<FileMeta>, h: FileMeta, i: FileMeta)
    requires GoodLevels(v) && level + 1 < NUM_LEVELS && ValidInputs(v, level, in0, in1)
    requires h in v[level + 1] && h !in in1 && i in in0 + in1
    requires forall g :: g in in0 ==> h.smallest.user > g.largest.user
    ensures Before(i.largest, h.smallest)
  {
    if i in in0 { return; }
    assert MeetsHull(in0, i);
    var f, g :| f in in0 && g in in0 && f.smallest.user <= i.largest.user && i.smallest.user <= g.largest.user;
    SortedIsApart(v[level + 1]);
    assert i in v[level + 1] && Apart(h, i) && Forward(h);
  }

  // ---- replacing inputs by outputs ----

  ghost predicate FromInputs(t: Tables, inputs: seq<FileMeta>, t': Tables, outs: seq<FileMeta>) {
    forall o, e :: o in outs && e in Data(t', o) ==> exists i :: i in inputs && e in Data(t, i)
  }

  /** Tables of the old version are still there, unchanged. */
  ghost predicate TablesKept(t: Tables, v: Levels, t': Tables) {
    forall l, f :: 0 <= l < |v| && f in v[l] ==> f.number in t' && Data(t', f) == Data(t, f)
  }

  ghost predicate FreshOuts(v': Levels, level: nat, outs: seq<FileMeta>)
    requires |v'| == NUM_LEVELS
  {
    forall o, l, f :: o in outs && 0 <= l < NUM_LEVELS && f in v'[l] && f.number == o.number ==>
      l == level + 1 && f == o
  }

  /** The new version: inputs gone from two levels, outputs in the lower one. */
  ghost predicate Replaced(t: Tables, v: Levels, t': Tables, v': Levels, level: nat,
                           in0: seq<FileMeta>, in1: seq<FileMeta>, outs: seq<FileMeta>)
  {
    && level + 1 < NUM_LEVELS && |v| == NUM_LEVELS && |v'| == NUM_LEVELS
    && (forall l :: 0 <= l < NUM_LEVELS && l != level && l != level + 1 ==> v'[l] == v[l])
    && (forall f :: f in v'[level] <==> f in v[level] && f !in in0)
    && (forall f :: f in v'[level + 1] <==> (f in v[level + 1] && f !in in1) || f in outs)
    && (forall l :: 0 <= l < NUM_LEVELS ==> SmallestOrdered(v'[l]))
    && TablesKept(t, v, t')
    && GoodFiles(t', outs) && SortedLevel(outs) && FromInputs(t, in0 + in1, t', outs) && FreshOuts(v', level, outs)
  }

  lemma MakeReplaced(t: Tables, v: Levels, t': Tables, v': Levels, level: nat,
                     in0: seq<FileMeta>, in1: seq<FileMeta>, outs: seq<FileMeta>)
    requires level + 1 < NUM_LEVELS && |v| == NUM_LEVELS && |v'| == NUM_LEVELS
    requires forall l :: 0 <= l < NUM_LEVELS && l != level && l != level + 1 ==> v'[l] == v[l]
    requires forall f :: f in v'[level] <==> f in v[level] && f !in in0
    requires forall f :: f in v'[level + 1] <==> (f in v[level + 1] && f !in in1) || f in outs
    requires forall l :: 0 <= l < NUM_LEVELS ==> SmallestOrdered(v'[l])
    requires TablesKept(t, v, t') && GoodFiles(t', outs) && SortedLevel(outs) && FromInputs(t, in0 + in1, t', outs)
    requires FreshOuts(v', level, outs)
    ensures Replaced(t, v, t', v', level, in0, in1, outs)
  {
    hide SmallestOrdered, TablesKept, GoodFiles, SortedLevel, FromInputs, FreshOuts;
  }

  /** Where an entry of the new version was before: at the same level, or in an input. */
  ghost predicate CameFrom(t: Tables, v: Levels, level: nat, in0: seq<FileMeta>, in1: seq<FileMeta>,
                           l: nat, e: Entry, k: nat, y: FileMeta)
    requires |v| == NUM_LEVELS && level + 1 < NUM_LEVELS
  {
    && k < NUM_LEVELS && y in v[k] && e in Data(t, y)
    && (k == l || (l == level + 1 && k == level && y in in0))
  }

  lemma Origin(t: Tables, v: Levels, t': Tables, v': Levels, level: nat, in0: seq<FileMeta>, in1: seq<FileMeta>,
               outs: seq<FileMeta>,
               l: nat, f: FileMeta, e: Entry) returns (k: nat, y: FileMeta)
    requires Replaced(t, v, t', v', level, in0, in1, outs) && ValidInputs(v, level, in0, in1)
    requires l < NUM_LEVELS && f in v'[l] && e in Data(t', f)
    ensures CameFrom(t, v, level, in0, in1, l, e, k, y)
    ensures l == level ==> k == level && y !in in0
  {
    if l == level + 1 && f in outs {
      y :| y in in0 + in1 && e in Data(t, y);
      k := if y in in0 then level else level + 1;
    } else {
      k, y := l, f;
    }
  }

  lemma OriginOrder(t: Tables, v: Levels, hist: seq<Op>, level: nat, in0: seq<FileMeta>, in1: seq<FileMeta>,
                    l: nat, a: Entry, k: nat, y: FileMeta, m: nat, b: Entry, k': nat, y': FileMeta)
    requires VersionInv(t, v) && Genuine(hist, VersionEntries(t, v)) && level + 1 < NUM_LEVELS
    requires ValidInputs(v, level, in0, in1)
    requires l < m < NUM_LEVELS && a.key.user == b.key.user
    requires CameFrom(t, v, level, in0, in1, l, a, k, y) && (l == level ==> k == level && y !in in0)
    requires CameFrom(t, v, level, in0, in1, m, b, k', y')
    ensures a.key.sequence > b.key.sequence
  {
    if k < k' {
      assert NewerFile(t, y, y');
    } else {
      LeftOutIsNewer(t, v, hist, level, in0, in1, y, y');
    }
  }

  lemma ReplacedNewer(t: Tables, v: Levels, t': Tables, v': Levels, hist: seq<Op>, level: nat,
                      in0: seq<FileMeta>, in1: seq<FileMeta>, outs: seq<FileMeta>, l: nat, f: FileMeta, m: nat,
                        g: FileMeta)
    requires VersionInv(t, v) && Genuine(hist, VersionEntries(t, v))
    requires Replaced(t, v, t', v', level, in0, in1, outs) && ValidInputs(v, level, in0, in1)
    requires l < m < NUM_LEVELS && f in v'[l] && g in v'[m]
    ensures NewerFile(t', f, g)
  {
    forall a, b | a in Data(t', f) && b in Data(t', g) && a.key.user == b.key.user
      ensures a.key.sequence > b.key.sequence
    {
      var k, y := Origin(t, v, t', v', level, in0, in1, outs, l, f, a);
      var k', y' := Origin(t, v, t', v', level, in0, in1, outs, m, g, b);
      OriginOrder(t, v, hist, level, in0, in1, l, a, k, y, m, b, k', y');
    }
  }

  lemma ReplacedRecency(t: Tables, v: Levels, t': Tables, v': Levels, hist: seq<Op>, level: nat,
                        in0: seq<FileMeta>, in1: seq<FileMeta>, outs: seq<FileMeta>)
    requires VersionInv(t, v) && Genuine(hist, VersionEntries(t, v))
    requires Replaced(t, v, t', v', level, in0, in1, outs) && ValidInputs(v, level, in0, in1)
    ensures Recency(t', v')
  {
    forall l, m, f, g | 0 <= l < m < NUM_LEVELS && f in v'[l] && g in v'[m] ensures NewerFile(t', f, g) {
      ReplacedNewer(t, v, t', v', hist, level, in0, in1, outs, l, f, m, g);
    }
    assert NumbersOrderFiles(t', v'[0]) by { ReplacedLevel0(t, v, t', v', level, in0, in1, outs); }
  }

  lemma ReplacedLevel0(t: Tables, v: Levels, t': Tables, v': Levels, level: nat,
                       in0: seq<FileMeta>, in1: seq<FileMeta>, outs: seq<FileMeta>)
    requires |v| == NUM_LEVELS && Recency(t, v)
    requires Replaced(t, v, t', v', level, in0, in1, outs)
    ensures NumbersOrderFiles(t', v'[0])
  {
    forall f, g | f in v'[0] && g in v'[0] && f.number > g.number ensures NewerFile(t', f, g) {
      assert f in v[0] && g in v[0];
      assert NewerFile(t, f, g);
      assert Data(t', f) == Data(t, f) && Data(t', g) == Data(t, g);
    }
  }

  lemma OutputsApart(t: Tables, v: Levels, t': Tables, v': Levels, level: nat,
                     in0: seq<FileMeta>, in1: seq<FileMeta>, outs: seq<FileMeta>, o: FileMeta, h: FileMeta)
    requires VersionInv(t, v) && Replaced(t, v, t', v', level, in0, in1, outs) && ValidInputs(v, level, in0, in1)
    requires o in outs && h in v[level + 1] && h !in in1
    ensures Apart(o, h)
  {
    hide VersionInv, ValidInputs, TablesKept, SmallestOrdered, FreshOuts, SortedLevel;
    LeftOutIsOutside(t, v, level, in0, in1, h);
    FileEnds(t', o);
    var first, last := Data(t', o)[0], Data(t', o)[|Data(t', o)| - 1];
    assert first in Data(t', o) && last in Data(t', o);
    var i :| i in in0 + in1 && first in Data(t, i);
    var j :| j in in0 + in1 && last in Data(t, j);
  }

  /** A file of the new version is an output or was at the same level before, its table unchanged. */
  lemma NewMember(t: Tables, v: Levels, t': Tables, v': Levels, level: nat,
                  in0: seq<FileMeta>, in1: seq<FileMeta>, outs: seq<FileMeta>, l: nat, f: FileMeta)
    requires Replaced(t, v, t', v', level, in0, in1, outs) && l < NUM_LEVELS && f in v'[l]
    ensures l == level + 1 && f in outs ==> GoodFile(t', f)
    ensures !(l == level + 1 && f in outs) ==>
              && f in v[l] && (l == level ==> f !in in0) && (l == level + 1 ==> f !in in1)
              && f.number in t' && Data(t', f) == Data(t, f)
  {
    hide SmallestOrdered, SortedLevel, FromInputs, FreshOuts, GoodFile;
  }

  lemma SameGood(t: Tables, t': Tables, f: FileMeta)
    requires GoodFile(t, f) && f.number in t' && Data(t', f) == Data(t, f)
    ensures GoodFile(t', f)
  {
  }

  lemma NewGoodFiles(t: Tables, v: Levels, t': Tables, v': Levels, level: nat,
                     in0: seq<FileMeta>, in1: seq<FileMeta>, outs: seq<FileMeta>, l: nat)
    requires VersionInv(t, v) && Replaced(t, v, t', v', level, in0, in1, outs) && l < NUM_LEVELS
    ensures |v| == NUM_LEVELS && |v'| == NUM_LEVELS && GoodFiles(t', v'[l])
  {
    hide VersionInv, GoodFile, TablesKept, SmallestOrdered, SortedLevel, FromInputs, FreshOuts;
    forall f | f in v'[l] ensures GoodFile(t', f) {
      NewMember(t, v, t', v', level, in0, in1, outs, l, f);
      if !(l == level + 1 && f in outs) {
        FileIn(t, v, l, f);
        SameGood(t, t', f);
      }
    }
  }

  lemma NewOrder(t: Tables, v: Levels, t': Tables, v': Levels, level: nat,
                 in0: seq<FileMeta>, in1: seq<FileMeta>, outs: seq<FileMeta>, l: nat)
    requires VersionInv(t, v) && Replaced(t, v, t', v', level, in0, in1, outs) && 1 <= l < NUM_LEVELS
    ensures |v| == NUM_LEVELS && |v'| == NUM_LEVELS
    ensures SortedLevel(v[l]) && SortedLevel(outs) && SmallestOrdered(v'[l])
  {
    hide Recency, UniqueNumbers, NoDuplicates, GoodFiles, SortedLevel, SmallestOrdered, TablesKept, FromInputs,
      FreshOuts;
  }

  lemma NewLevelSorted(t: Tables, v: Levels, t': Tables, v': Levels, level: nat,
                       in0: seq<FileMeta>, in1: seq<FileMeta>, outs: seq<FileMeta>, l: nat)
    requires VersionInv(t, v) && Replaced(t, v, t', v', level, in0, in1, outs) && ValidInputs(v, level, in0, in1)
    requires 1 <= l < NUM_LEVELS
    ensures |v'| == NUM_LEVELS && SortedLevel(v'[l])
  {
    hide VersionInv, Replaced, ValidInputs, SortedLevel, SmallestOrdered, Apart, GoodFiles, AllForward;
    NewGoodFiles(t, v, t', v', level, in0, in1, outs, l);
    NewOrder(t, v, t', v', level, in0, in1, outs, l);
    SortedIsApart(v[l]);
    SortedIsApart(outs);
    forall f, g | f in v'[l] && g in v'[l] && f != g ensures Apart(f, g) {
      NewMember(t, v, t', v', level, in0, in1, outs, l, f);
      NewMember(t, v, t', v', level, in0, in1, outs, l, g);
      if l == level + 1 && f in outs && g !in outs {
        OutputsApart(t, v, t', v', level, in0, in1, outs, f, g);
      } else if l == level + 1 && g in outs && f !in outs {
        OutputsApart(t, v, t', v', level, in0, in1, outs, g, f);
        ApartSwaps(f, g);
      }
    }
    GoodFilesForward(t', v'[l]);
    ApartIsSorted(v'[l]);
  }

  lemma ApartSwaps(f: FileMeta, g: FileMeta)
    ensures Apart(f, g) == Apart(g, f)
  {
  }

  lemma ReplacedShape(t: Tables, v: Levels, t': Tables, v': Levels, level: nat,
                      in0: seq<FileMeta>, in1: seq<FileMeta>, outs: seq<FileMeta>)
    requires VersionInv(t, v) && Replaced(t, v, t', v', level, in0, in1, outs) && ValidInputs(v, level, in0, in1)
    ensures Shape(t', v')
  {
    hide VersionInv, Replaced, ValidInputs, SortedLevel, GoodFiles;
    NewGoodFiles(t, v, t', v', level, in0, in1, outs, 0);
    forall l: nat | l < NUM_LEVELS ensures GoodFiles(t', v'[l]) {
      NewGoodFiles(t, v, t', v', level, in0, in1, outs, l);
    }
    forall l: nat | 1 <= l < NUM_LEVELS ensures SortedLevel(v'[l]) {
      NewLevelSorted(t, v, t', v', level, in0, in1, outs, l);
    }
  }

  lemma ReplacedNumbers(t: Tables, v: Levels, t': Tables, v': Levels, level: nat,
                        in0: seq<FileMeta>, in1: seq<FileMeta>, outs: seq<FileMeta>)
    requires UniqueNumbers(v) && Replaced(t, v, t', v', level, in0, in1, outs)
    ensures UniqueNumbers(v')
    ensures forall l :: 0 <= l < NUM_LEVELS ==> NoDuplicates(v'[l])
  {
    forall l, m, f, g | 0 <= l < NUM_LEVELS && 0 <= m < NUM_LEVELS && f in v'[l] && g in v'[m] && f.number == g.number
      ensures l == m && f == g
    {
      NewMember(t, v, t', v', level, in0, in1, outs, l, f);
      NewMember(t, v, t', v', level, in0, in1, outs, m, g);
    }
  }

  /** A compaction or a trivial move keeps the version invariant. */
  lemma ReplacedInv(t: Tables, v: Levels, t': Tables, v': Levels, hist: seq<Op>, level: nat,
                    in0: seq<FileMeta>, in1: seq<FileMeta>, outs: seq<FileMeta>)
    requires VersionInv(t, v) && Genuine(hist, VersionEntries(t, v))
    requires Replaced(t, v, t', v', level, in0, in1, outs) && ValidInputs(v, level, in0, in1)
    ensures VersionInv(t', v')
  {
    ReplacedShape(t, v, t', v', level, in0, in1, outs);
    ReplacedRecency(t, v, t', v', hist, level, in0, in1, outs);
    ReplacedNumbers(t, v, t', v', level, in0, in1, outs);
  }

  ghost function FileEntries(t: Tables, files: seq<FileMeta>): set<Entry> {
    set f, e | f in files && e in Data(t, f) :: e
  }

  /** Stored entries after a replacement: the inputs' entries go, the outputs' come. */
  lemma ReplacedEntries(t: Tables, v: Levels, t': Tables, v': Levels, level: nat,
                        in0: seq<FileMeta>, in1: seq<FileMeta>, outs: seq<FileMeta>)
    requires VersionInv(t, v) && Replaced(t, v, t', v', level, in0, in1, outs) && ValidInputs(v, level, in0, in1)
    ensures VersionEntries(t', v') == (VersionEntries(t, v) - FileEntries(t, in0 + in1)) + FileEntries(t', outs)
  {
    hide VersionInv, ValidInputs, FileEntries, Replaced;
    var after := (VersionEntries(t, v) - FileEntries(t, in0 + in1)) + FileEntries(t', outs);
    ReplacedLengths(t, v, t', v', level, in0, in1, outs);
    forall e | e in VersionEntries(t', v') ensures e in after {
      var l, f :| 0 <= l < NUM_LEVELS && f in v'[l] && e in Data(t', f);
      if l == level + 1 && f in outs {
        InFileEntries(t', outs, f, e);
      } else {
        KeptFileNotInput(t, v, t', v', level, in0, in1, outs, l, f, e);
      }
    }
    forall e | e in after ensures e in VersionEntries(t', v') {
      EntryStays(t, v, t', v', level, in0, in1, outs, e);
    }
  }

  lemma ReplacedLengths(t: Tables, v: Levels, t': Tables, v': Levels, level: nat,
                        in0: seq<FileMeta>, in1: seq<FileMeta>, outs: seq<FileMeta>)
    requires Replaced(t, v, t', v', level, in0, in1, outs)
    ensures |v| == |v'| == NUM_LEVELS && level + 1 < NUM_LEVELS
  {
  }

  lemma InFileEntries(t: Tables, files: seq<FileMeta>, f: FileMeta, e: Entry)
    requires f in files && e in Data(t, f)
    ensures e in FileEntries(t, files)
  {
  }

  /** A file of the new version that is no output was there before, unchanged, and is no input. */
  lemma KeptFile(t: Tables, v: Levels, t': Tables, v': Levels, level: nat,
                 in0: seq<FileMeta>, in1: seq<FileMeta>, outs: seq<FileMeta>, l: nat, f: FileMeta)
    requires Replaced(t, v, t', v', level, in0, in1, outs)
    requires l < NUM_LEVELS && f in v'[l] && !(l == level + 1 && f in outs)
    ensures f in v[l] && Data(t', f) == Data(t, f) && (l == level ==> f !in in0) && (l == level + 1 ==> f !in in1)
  {
    hide SmallestOrdered, FreshOuts, FromInputs, SortedLevel, GoodFiles;
  }

  lemma EntryStays(t: Tables, v: Levels, t': Tables, v': Levels, level: nat,
                   in0: seq<FileMeta>, in1: seq<FileMeta>, outs: seq<FileMeta>, e: Entry)
    requires Replaced(t, v, t', v', level, in0, in1, outs)
    requires e in FileEntries(t', outs) || (e in VersionEntries(t, v) && e !in FileEntries(t, in0 + in1))
    ensures e in VersionEntries(t', v')
  {
    if e in FileEntries(t', outs) {
      var o :| o in outs && e in Data(t', o);
      InVersionEntries(t', v', level + 1, o, e);
    } else {
      var l, f :| 0 <= l < |v| && f in v[l] && e in Data(t, f);
      assert f !in in0 + in1;
      InVersionEntries(t', v', l, f, e);
    }
  }

  lemma KeptFileNotInput(t: Tables, v: Levels, t': Tables, v': Levels, level: nat,
                         in0: seq<FileMeta>, in1: seq<FileMeta>, outs: seq<FileMeta>, l: nat, f: FileMeta, e: Entry)
    requires VersionInv(t, v) && Replaced(t, v, t', v', level, in0, in1, outs) && ValidInputs(v, level, in0, in1)
    requires l < NUM_LEVELS && f in v'[l] && !(l == level + 1 && f in outs) && e in Data(t', f)
    ensures e in VersionEntries(t, v) && e !in FileEntries(t, in0 + in1)
  {
    hide VersionInv, Replaced, ValidInputs;
    ReplacedLengths(t, v, t', v', level, in0, in1, outs);
    KeptFile(t, v, t', v', level, in0, in1, outs, l, f);
    InVersionEntries(t, v, l, f, e);
    forall i | i in in0 + in1 ensures e !in Data(t, i) {
      InputParts(v, level, in0, in1, i);
      if i in in0 {
        NoSharedEntries(t, v, l, f, level, i, e);
      } else {
        NoSharedEntries(t, v, l, f, level + 1, i, e);
      }
    }
  }

  // ---- adding a flushed table ----

  /** The new version: one file added to `level`, the rest unchanged. */
  ghost predicate Flushed(t: Tables, v: Levels, t': Tables, v': Levels, level: nat, f: FileMeta)
  {
    && level < NUM_LEVELS && |v| == NUM_LEVELS && |v'| == NUM_LEVELS
    && (forall l :: 0 <= l < NUM_LEVELS && l != level ==> v'[l] == v[l])
    && (forall g :: g in v'[level] <==> g in v[level] || g == f)
    && SmallestOrdered(v'[level])
    && TablesKept(t, v, t') && GoodFile(t', f)
    && (forall l, g :: 0 <= l < NUM_LEVELS && g in v[l] ==> g.number < f.number)
  }

  /** Everything in `f` is newer than everything in the version. */
  ghost predicate NewerThanAll(t: Tables, v: Levels, t': Tables, f: FileMeta) {
    forall l, g, a, b :: 0 <= l < |v| && g in v[l] && a in Data(t', f) && b in Data(t, g) ==>
      a.key.sequence > b.key.sequence
  }

  lemma FlushedNewer(t: Tables, v: Levels, t': Tables, v': Levels, level: nat, f: FileMeta, l: nat, g: FileMeta, m: nat,
                     h: FileMeta)
    requires VersionInv(t, v) && Flushed(t, v, t', v', level, f) && NewerThanAll(t, v, t', f)
    requires level == 0 || NoOverlapUpTo(v, level, f.smallest.user, f.largest.user)
    requires l < m < NUM_LEVELS && g in v'[l] && h in v'[m]
    ensures NewerFile(t', g, h)
  {
    hide VersionInv, Flushed, NewerThanAll, NoOverlapUpTo, GoodFile;
    FlushedMember(t, v, t', v', level, f, l, g);
    FlushedMember(t, v, t', v', level, f, m, h);
    if g == f && l == level {
      forall a, b | a in Data(t', g) && b in Data(t', h) ensures a.key.sequence > b.key.sequence {
        NewerEntry(t, v, t', f, m, h, a, b);
      }
    } else if h == f && m == level {
      NoOverlapAt(v, level, f, l, g);
      FileIn(t, v, l, g);
      forall a, b | a in Data(t', g) && b in Data(t', h) ensures a.key.user != b.key.user {
        FileBounds(t, g, a);
        FileBounds(t', f, b);
      }
    } else {
      ShallowerNewer(t, v, l, g, m, h);
    }
  }

  lemma ShallowerNewer(t: Tables, v: Levels, l: nat, f: FileMeta, m: nat, g: FileMeta)
    requires VersionInv(t, v) && l < m < NUM_LEVELS && f in v[l] && g in v[m]
    ensures NewerFile(t, f, g)
  {
    hide Shape, UniqueNumbers, NoDuplicates, NumbersOrderFiles, NewerFile;
  }

  /** A file of the new version is the flushed one or was there before, unchanged. */
  lemma FlushedMember(t: Tables, v: Levels, t': Tables, v': Levels, level: nat, f: FileMeta, l: nat, g: FileMeta)
    requires Flushed(t, v, t', v', level, f) && l < NUM_LEVELS && g in v'[l]
    ensures |v| == NUM_LEVELS && GoodFile(t', f)
    ensures (l == level && g == f) || (g in v[l] && g != f && Data(t', g) == Data(t, g))
  {
    hide SmallestOrdered, GoodFile;
  }

  lemma FlushedLengths(t: Tables, v: Levels, t': Tables, v': Levels, level: nat, f: FileMeta)
    requires Flushed(t, v, t', v', level, f)
    ensures |v| == |v'| == NUM_LEVELS && level < NUM_LEVELS
  {
  }

  lemma NewerEntry(t: Tables, v: Levels, t': Tables, f: FileMeta, m: nat, h: FileMeta, a: Entry, b: Entry)
    requires NewerThanAll(t, v, t', f) && m < |v| && h in v[m] && a in Data(t', f) && b in Data(t, h)
    ensures a.key.sequence > b.key.sequence
  {
  }

  lemma NoOverlapAt(v: Levels, level: nat, f: FileMeta, l: nat, g: FileMeta)
    requires |v| == NUM_LEVELS && level < NUM_LEVELS && NoOverlapUpTo(v, level, f.smallest.user, f.largest.user)
    requires l <= level && g in v[l]
    ensures f.largest.user < g.smallest.user || g.largest.user < f.smallest.user
  {
    assert !SomeOverlap(v[l], Some(f.smallest.user), Some(f.largest.user));
  }

  lemma FlushedShape(t: Tables, v: Levels, t': Tables, v': Levels, level: nat, f: FileMeta)
    requires VersionInv(t, v) && Flushed(t, v, t', v', level, f)
    requires level == 0 || NoOverlapUpTo(v, level, f.smallest.user, f.largest.user)
    ensures Shape(t', v')
  {
    hide VersionInv, NoOverlapUpTo, SortedLevel, SmallestOrdered, PairwiseApart, AllForward, TablesKept;
    forall l | 0 <= l < NUM_LEVELS ensures GoodFiles(t', v'[l]) {
      forall g | g in v'[l] ensures GoodFile(t', g) {
        FlushedMember(t, v, t', v', level, f, l, g);
        if g != f { FileIn(t, v, l, g); }
      }
    }
    forall l | 1 <= l < NUM_LEVELS ensures SortedLevel(v'[l]) {
      LevelSorted(t, v, l);
      if l == level {
        FlushedApart(t, v, t', v', level, f);
        GoodFilesForward(t', v'[level]);
        ApartIsSorted(v'[level]);
      }
    }
  }

  lemma LevelSorted(t: Tables, v: Levels, l: nat)
    requires VersionInv(t, v) && 1 <= l < NUM_LEVELS
    ensures SortedLevel(v[l])
  {
    hide Recency, UniqueNumbers, NoDuplicates, GoodFiles, SortedLevel;
  }

  lemma FlushedApart(t: Tables, v: Levels, t': Tables, v': Levels, level: nat, f: FileMeta)
    requires VersionInv(t, v) && Flushed(t, v, t', v', level, f)
    requires level > 0 && NoOverlapUpTo(v, level, f.smallest.user, f.largest.user)
    ensures PairwiseApart(v'[level])
  {
    hide VersionInv, Flushed, NoOverlapUpTo, SortedLevel;
    FlushedLengths(t, v, t', v', level, f);
    LevelSorted(t, v, level);
    SortedIsApart(v[level]);
    forall g, h | g in v'[level] && h in v'[level] && g != h ensures Apart(g, h) {
      FlushedMember(t, v, t', v', level, f, level, g);
      FlushedMember(t, v, t', v', level, f, level, h);
      if g == f { NoOverlapAt(v, level, f, level, h); }
      if h == f { NoOverlapAt(v, level, f, level, g); }
    }
  }

  lemma FlushedLevel0(t: Tables, v: Levels, t': Tables, v': Levels, level: nat, f: FileMeta)
    requires VersionInv(t, v) && Flushed(t, v, t', v', level, f) && NewerThanAll(t, v, t', f)
    ensures NumbersOrderFiles(t', v'[0])
  {
    hide VersionInv, Flushed, NewerThanAll;
    FlushedLengths(t, v, t', v', level, f);
    forall g, h | g in v'[0] && h in v'[0] && g.number > h.number ensures NewerFile(t', g, h) {
      FlushedMember(t, v, t', v', level, f, 0, g);
      FlushedMember(t, v, t', v', level, f, 0, h);
      if h != f || level != 0 {
        if g == f && level == 0 {
          forall a, b | a in Data(t', g) && b in Data(t', h) ensures a.key.sequence > b.key.sequence {
            NewerEntry(t, v, t', f, 0, h, a, b);
          }
        } else {
          NumberNewer(t, v, g, h);
        }
      } else {
        FlushedNumber(t, v, t', v', level, f, 0, g);
      }
    }
  }

  lemma NumberNewer(t: Tables, v: Levels, f: FileMeta, g: FileMeta)
    requires VersionInv(t, v) && f in v[0] && g in v[0] && f.number > g.number
    ensures NewerFile(t, f, g)
  {
    hide Shape, UniqueNumbers, NoDuplicates, NewerFile;
  }

  lemma FlushedNumber(t: Tables, v: Levels, t': Tables, v': Levels, level: nat, f: FileMeta, l: nat, g: FileMeta)
    requires Flushed(t, v, t', v', level, f) && l < NUM_LEVELS && g in v[l]
    ensures g.number < f.number
  {
    hide SmallestOrdered, GoodFile, TablesKept;
  }

  lemma FlushedRecency(t: Tables, v: Levels, t': Tables, v': Levels, level: nat, f: FileMeta)
    requires VersionInv(t, v) && Flushed(t, v, t', v', level, f) && NewerThanAll(t, v, t', f)
    requires level == 0 || NoOverlapUpTo(v, level, f.smallest.user, f.largest.user)
    ensures Recency(t', v')
  {
    FlushedLevel0(t, v, t', v', level, f);
    forall l, m, g, h | 0 <= l < m < NUM_LEVELS && g in v'[l] && h in v'[m] ensures NewerFile(t', g, h) {
      FlushedNewer(t, v, t', v', level, f, l, g, m, h);
    }
  }

  lemma FlushedNumbers(t: Tables, v: Levels, t': Tables, v': Levels, level: nat, f: FileMeta)
    requires UniqueNumbers(v) && Flushed(t, v, t', v', level, f)
    requires forall l :: 0 <= l < NUM_LEVELS ==> NoDuplicates(v[l])
    ensures UniqueNumbers(v')
    ensures forall l :: 0 <= l < NUM_LEVELS ==> NoDuplicates(v'[l])
  {
  }

  /** A memtable flush keeps the version invariant and adds exactly its entries. */
  lemma FlushedInv(t: Tables, v: Levels, t': Tables, v': Levels, level: nat, f: FileMeta)
    requires VersionInv(t, v) && Flushed(t, v, t', v', level, f) && NewerThanAll(t, v, t', f)
    requires level == 0 || NoOverlapUpTo(v, level, f.smallest.user, f.largest.user)
    ensures VersionInv(t', v')
  {
    FlushedShape(t, v, t', v', level, f);
    FlushedRecency(t, v, t', v', level, f);
    FlushedNumbers(t, v, t', v', level, f);
  }

  lemma FlushedEntries(t: Tables, v: Levels, t': Tables, v': Levels, level: nat, f: FileMeta)
    requires Flushed(t, v, t', v', level, f)
    ensures VersionEntries(t', v') == VersionEntries(t, v) + (set e | e in Data(t', f))
  {
    forall e ensures e in VersionEntries(t', v') <==> e in VersionEntries(t, v) || e in Data(t', f) {
      if e in Data(t', f) { assert f in v'[level]; }
      if e in VersionEntries(t, v) {
        var l, g :| 0 <= l < NUM_LEVELS && g in v[l] && e in Data(t, g);
        assert g in v'[l] && e in Data(t', g);
      }
    }
  }
}
