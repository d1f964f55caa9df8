/** Reading one version: files of seven levels and the lookup that goes through them
    (db/version_set.cc, `FindFile` and `Version::Get`; table lookup as in table/table.cc). */
module VersionReads {
  import opened InternalKeys

  datatype FileMeta = FileMeta(number: nat, size: nat, smallest: InternalKey, largest: InternalKey)

  /** Table files on disk by number, each a sequence of entries. */
  type Tables = map<nat, seq<Entry>>

  /** The files of each level. */
  type Levels = seq<seq<FileMeta>>

  function Data(t: Tables, f: FileMeta): seq<Entry> {
    if f.number in t then t[f.number] else []
  }

  /** The metadata of `f` describes a readable, sorted, non-empty table. */
  ghost predicate GoodFile(t: Tables, f: FileMeta) {
    && f.number in t
    && |Data(t, f)| > 0
    && Sorted(Data(t, f))
    && f.smallest == Data(t, f)[0].key
    && f.largest == Data(t, f)[|Data(t, f)| - 1].key
  }

  /** Files sorted and disjoint by internal key. */
  ghost predicate SortedLevel(files: seq<FileMeta>) {
    forall i, j :: 0 <= i < j < |files| ==> Before(files[i].largest, files[j].smallest)
  }

  ghost predicate GoodFiles(t: Tables, files: seq<FileMeta>) {
    forall f :: f in files ==> GoodFile(t, f)
  }

  /** Level shape: every file readable, levels above 0 sorted and disjoint. */
  ghost predicate Shape(t: Tables, v: Levels) {
    && |v| == NUM_LEVELS
    && (forall l :: 0 <= l < NUM_LEVELS ==> GoodFiles(t, v[l]))
    && (forall l :: 1 <= l < NUM_LEVELS ==> SortedLevel(v[l]))
  }

  /** Every entry of `f` is newer than any entry of `g` for the same user key. */
  ghost predicate NewerFile(t: Tables, f: FileMeta, g: FileMeta) {
    forall a, b :: a in Data(t, f) && b in Data(t, g) && a.key.user == b.key.user ==>
      a.key.sequence > b.key.sequence
  }

  /** Shallower levels are newer, and in level 0 a higher file number is newer. */
  ghost predicate Recency(t: Tables, v: Levels)
    requires |v| == NUM_LEVELS
  {
    && (forall l, m, f, g :: 0 <= l < m < NUM_LEVELS && f in v[l] && g in v[m] ==> NewerFile(t, f, g))
    && NumbersOrderFiles(t, v[0])
  }

  ghost predicate NoneVisible(t: Tables, files: seq<FileMeta>, user: UserKey, s: nat) {
    forall f, e :: f in files && e in Data(t, f) ==> !Visible(e, user, s)
  }

  /** `r` is the newest entry of all `files` visible to a reader of `user` at `s`. */
  ghost predicate NewestInFiles(t: Tables, files: seq<FileMeta>, user: UserKey, s: nat, r: Option<Entry>) {
    match r
    case None => NoneVisible(t, files, user, s)
    case Some(n) =>
      && Visible(n, user, s)
      && (exists f :: f in files && n in Data(t, f))
      && forall f, e :: f in files && e in Data(t, f) && Visible(e, user, s) ==>
           e.key.sequence <= n.key.sequence
  }

  ghost predicate NewestInVersion(t: Tables, v: Levels, user: UserKey, s: nat, r: Option<Entry>)
    requires |v| == NUM_LEVELS
  {
    match r
    case None => forall l :: 0 <= l < NUM_LEVELS ==> NoneVisible(t, v[l], user, s)
    case Some(n) =>
      && Visible(n, user, s)
      && (exists l, f :: 0 <= l < NUM_LEVELS && f in v[l] && n in Data(t, f))
      && forall l, f, e :: 0 <= l < NUM_LEVELS && f in v[l] && e in Data(t, f) && Visible(e, user, s) ==>
           e.key.sequence <= n.key.sequence
  }

  // ---- one table ----

  /** Index of the first entry at or after `target`: where a table's Seek stops. */
  function SeekIndex(entries: seq<Entry>, target: InternalKey): (i: nat)
    ensures i <= |entries|
    ensures forall j :: 0 <= j < i ==> Before(entries[j].key, target)
    ensures i < |entries| ==> !Before(entries[i].key, target)
  {
    if entries == [] || !Before(entries[0].key, target) then 0
    else
      var rest := SeekIndex(entries[1..], target);
      assert forall j :: 1 <= j < rest + 1 ==> entries[j] == entries[1..][j - 1];
      rest + 1
  }

  /** The entry a lookup finds in a sorted run: the one it stops at, if it has the user key. */
  function TableGet(entries: seq<Entry>, user: UserKey, s: nat): Option<Entry> {
    var i := SeekIndex(entries, LookupKey(user, s));
    if i < |entries| && entries[i].key.user == user then Some(entries[i]) else None
  }

  lemma TableGetIsNewest(entries: seq<Entry>, user: UserKey, s: nat)
    requires Sorted(entries)
    ensures NewestIn(entries, user, s, TableGet(entries, user, s))
  {
    var i := SeekIndex(entries, LookupKey(user, s));
    forall e | e in entries && Visible(e, user, s)
      ensures i < |entries| && entries[i].key.user == user && e.key.sequence <= entries[i].key.sequence
    {
      var j :| 0 <= j < |entries| && entries[j] == e;
      assert j >= i;
      if j > i { assert Before(entries[i].key, entries[j].key); }
    }
  }

  // ---- a level above 0 ----

  /** Binary search for the first file whose largest key is not before `key`. */
  method FindFile(files: seq<FileMeta>, key: InternalKey) returns (right: nat)
    requires forall i, j :: 0 <= i < j < |files| ==> NotAfter(files[i].largest, files[j].largest)
    ensures right <= |files|
    ensures forall i :: 0 <= i < right ==> Before(files[i].largest, key)
    ensures forall i :: right <= i < |files| ==> !Before(files[i].largest, key)
  {
    var left := 0;
    right := |files|;
    while left < right
      invariant 0 <= left <= right <= |files|
      invariant forall i :: 0 <= i < left ==> Before(files[i].largest, key)
      invariant forall i :: right <= i < |files| ==> !Before(files[i].largest, key)
    {
      var mid := (left + right) / 2;
      if Before(files[mid].largest, key) {
        left := mid + 1;
      } else {
        right := mid;
      }
    }
  }

  lemma FileBounds(t: Tables, f: FileMeta, e: Entry)
    requires GoodFile(t, f) && e in Data(t, f)
    ensures NotAfter(f.smallest, e.key) && NotAfter(e.key, f.largest)
  {
    var d := Data(t, f);
    var j :| 0 <= j < |d| && d[j] == e;
    assert j > 0 ==> Before(d[0].key, d[j].key);
    assert j < |d| - 1 ==> Before(d[j].key, d[|d| - 1].key);
  }

  lemma FileEnds(t: Tables, f: FileMeta)
    requires GoodFile(t, f)
    ensures NotAfter(f.smallest, f.largest)
    ensures Data(t, f)[0] in Data(t, f) && Data(t, f)[|Data(t, f)| - 1] in Data(t, f)
  {
    FileBounds(t, f, Data(t, f)[0]);
  }

  lemma LargestSorted(t: Tables, files: seq<FileMeta>)
    requires GoodFiles(t, files) && SortedLevel(files)
    ensures forall i, j :: 0 <= i < j < |files| ==> NotAfter(files[i].largest, files[j].largest)
  {
    forall i, j | 0 <= i < j < |files|
      ensures NotAfter(files[i].largest, files[j].largest)
    {
      assert files[j] in files;
      FileEnds(t, files[j]);
      assert Before(files[i].largest, files[j].smallest);
    }
  }

  /** In a sorted level only the file found by FindFile can answer. */
  lemma LevelGetIsNewest(t: Tables, files: seq<FileMeta>, index: nat, user: UserKey, s: nat)
    requires GoodFiles(t, files) && SortedLevel(files)
    requires index <= |files|
    requires forall i :: 0 <= i < index ==> Before(files[i].largest, LookupKey(user, s))
    requires forall i :: index <= i < |files| ==> !Before(files[i].largest, LookupKey(user, s))
    ensures NewestInFiles(t, files, user, s,
              if index < |files| && user >= files[index].smallest.user
              then TableGet(Data(t, files[index]), user, s) else None)
  {
    forall f, e | f in files && e in Data(t, f) && Visible(e, user, s)
      ensures index < |files| && user >= files[index].smallest.user
      ensures TableGet(Data(t, files[index]), user, s).Some?
      ensures e.key.sequence <= TableGet(Data(t, files[index]), user, s).value.key.sequence
    {
      var j :| 0 <= j < |files| && files[j] == f;
      FileBounds(t, f, e);
      assert j >= index;
      var g := files[index];
      assert g in files;
      FileEnds(t, g);
      if j > index { assert Before(g.largest, f.smallest); }
      TableGetIsNewest(Data(t, g), user, s);
      LastNotBefore(t, g, user, s, e.key);
    }
    if index < |files| {
      assert files[index] in files;
      TableGetIsNewest(Data(t, files[index]), user, s);
    }
  }

  /** A file that starts at or before `k` and ends at or after the lookup key holds an entry
      of the user at least as new as `k`, when `k` itself belongs to the user. */
  lemma LastNotBefore(t: Tables, g: FileMeta, user: UserKey, s: nat, k: InternalKey)
    requires GoodFile(t, g) && !Before(g.largest, LookupKey(user, s))
    requires k.user == user && k.sequence <= s
    requires Before(g.largest, k) || exists e :: e in Data(t, g) && e.key == k
    ensures TableGet(Data(t, g), user, s).Some?
    ensures k.sequence <= TableGet(Data(t, g), user, s).value.key.sequence
  {
    TableGetIsNewest(Data(t, g), user, s);
    FileEnds(t, g);
    if Before(g.largest, k) {
      var last := Data(t, g)[|Data(t, g)| - 1];
      assert Visible(last, user, s);
    } else {
      var e :| e in Data(t, g) && e.key == k;
      assert Visible(e, user, s);
    }
  }

  // ---- level 0 ----

  predicate OverlapsUser(f: FileMeta, user: UserKey) {
    f.smallest.user <= user <= f.largest.user
  }

  function InsertNewestFirst(f: FileMeta, sorted: seq<FileMeta>): seq<FileMeta> {
    if sorted == [] || f.number > sorted[0].number then [f] + sorted
    else [sorted[0]] + InsertNewestFirst(f, sorted[1..])
  }

  /** The library sort by descending file number. */
  function SortNewestFirst(files: seq<FileMeta>): seq<FileMeta> {
    if files == [] then [] else InsertNewestFirst(files[0], SortNewestFirst(files[1..]))
  }

  ghost predicate NewestFirst(files: seq<FileMeta>) {
    forall i, j :: 0 <= i < j < |files| ==> files[i].number >= files[j].number
  }

  lemma {:induction false} InsertNewestFirstSorts(f: FileMeta, sorted: seq<FileMeta>)
    requires NewestFirst(sorted)
    ensures NewestFirst(InsertNewestFirst(f, sorted))
    ensures forall g :: g in InsertNewestFirst(f, sorted) <==> g == f || g in sorted
  {
    if sorted == [] || f.number > sorted[0].number {
    } else {
      InsertNewestFirstSorts(f, sorted[1..]);
      var rest := InsertNewestFirst(f, sorted[1..]);
      assert forall g :: g in rest ==> g.number <= sorted[0].number;
    }
  }

  lemma {:induction false} SortNewestFirstSorts(files: seq<FileMeta>)
    ensures NewestFirst(SortNewestFirst(files))
    ensures forall f :: f in SortNewestFirst(files) <==> f in files
  {
    if files != [] {
      SortNewestFirstSorts(files[1..]);
      InsertNewestFirstSorts(files[0], SortNewestFirst(files[1..]));
    }
  }

  /** Candidate level-0 files for a user key, newest first. */
  method Level0Candidates(files: seq<FileMeta>, user: UserKey) returns (r: seq<FileMeta>)
    ensures NewestFirst(r)
    ensures forall f :: f in r <==> f in files && OverlapsUser(f, user)
  {
    var tmp := [];
    for i := 0 to |files|
      invariant forall f :: f in tmp <==> f in files[..i] && OverlapsUser(f, user)
    {
      assert files[..i + 1] == files[..i] + [files[i]];
      if OverlapsUser(files[i], user) {
        tmp := tmp + [files[i]];
      }
    }
    assert files[..|files|] == files;
    r := SortNewestFirst(tmp);
    SortNewestFirstSorts(tmp);
  }

  /** Within level 0 a higher file number is newer. */
  ghost predicate NumbersOrderFiles(t: Tables, files: seq<FileMeta>) {
    forall f, g :: f in files && g in files && f.number > g.number ==> NewerFile(t, f, g)
  }

  /** No file after position `i` of a newest-first list beats an entry found there. */
  lemma LaterCandidateOlder(t: Tables, c: seq<FileMeta>, i: nat, j: nat, a: Entry, b: Entry)
    requires NewestFirst(c) && NumbersOrderFiles(t, c) && i <= j < |c|
    requires a in Data(t, c[i]) && b in Data(t, c[j]) && a.key.user == b.key.user
    ensures c[i].number == c[j].number || b.key.sequence < a.key.sequence
  {
    if c[i].number > c[j].number {
      assert NewerFile(t, c[i], c[j]);
    }
  }

  /** The newest candidate that has anything visible answers for all candidates. */
  lemma CandidateAnswers(t: Tables, c: seq<FileMeta>, i: nat, user: UserKey, s: nat, n: Entry)
    requires GoodFiles(t, c) && NewestFirst(c) && NumbersOrderFiles(t, c) && i < |c|
    requires forall j :: 0 <= j < i ==> TableGet(Data(t, c[j]), user, s).None?
    requires TableGet(Data(t, c[i]), user, s) == Some(n)
    ensures NewestInFiles(t, c, user, s, Some(n))
  {
    assert c[i] in c;
    TableGetIsNewest(Data(t, c[i]), user, s);
    forall f, e | f in c && e in Data(t, f) && Visible(e, user, s)
      ensures e.key.sequence <= n.key.sequence
    {
      var j :| 0 <= j < |c| && c[j] == f;
      TableGetIsNewest(Data(t, f), user, s);
      assert j >= i;
      LaterCandidateOlder(t, c, i, j, n, e);
      assert c[i].number == f.number ==> Data(t, c[i]) == Data(t, f);
    }
  }

  /** Files that do not overlap the user key add nothing. */
  lemma CandidatesSuffice(t: Tables, files: seq<FileMeta>, c: seq<FileMeta>, user: UserKey, s: nat, r: Option<Entry>)
    requires GoodFiles(t, files)
    requires forall f :: f in c <==> f in files && OverlapsUser(f, user)
    requires NewestInFiles(t, c, user, s, r)
    ensures NewestInFiles(t, files, user, s, r)
  {
    forall f, e | f in files && e in Data(t, f) && Visible(e, user, s) ensures f in c {
      FileBounds(t, f, e);
    }
  }

  lemma NoCandidateAnswers(t: Tables, c: seq<FileMeta>, user: UserKey, s: nat)
    requires GoodFiles(t, c)
    requires forall j :: 0 <= j < |c| ==> TableGet(Data(t, c[j]), user, s).None?
    ensures NoneVisible(t, c, user, s)
  {
    forall f, e | f in c && e in Data(t, f) ensures !Visible(e, user, s) {
      var j :| 0 <= j < |c| && c[j] == f;
      TableGetIsNewest(Data(t, f), user, s);
    }
  }

  lemma CandidatesGood(t: Tables, files: seq<FileMeta>, c: seq<FileMeta>)
    requires GoodFiles(t, files) && NumbersOrderFiles(t, files) && forall f :: f in c ==> f in files
    ensures GoodFiles(t, c) && NumbersOrderFiles(t, c)
  {
    hide GoodFile, NewerFile;
  }

  /** Level 0: overlapping files are tried newest first. */
  method Level0Get(t: Tables, files: seq<FileMeta>, user: UserKey, s: nat) returns (r: Option<Entry>)
    requires GoodFiles(t, files) && NumbersOrderFiles(t, files)
    ensures NewestInFiles(t, files, user, s, r)
  {
    hide TableGet, GoodFiles, NumbersOrderFiles, NewestFirst, NoneVisible;
    var c := Level0Candidates(files, user);
    CandidatesGood(t, files, c);
    for i := 0 to |c|
      invariant forall j :: 0 <= j < i ==> TableGet(Data(t, c[j]), user, s).None?
    {
      r := TableGet(Data(t, c[i]), user, s);
      if r.Some? {
        CandidateAnswers(t, c, i, user, s, r.value);
        CandidatesSuffice(t, files, c, user, s, r);
        return;
      }
    }
    NoCandidateAnswers(t, c, user, s);
    CandidatesSuffice(t, files, c, user, s, None);
    return None;
  }

  // ---- the whole version ----

  /** Answer found at `level` with nothing visible above it. */
  lemma FoundAtLevel(t: Tables, v: Levels, level: nat, user: UserKey, s: nat, n: Entry)
    requires Shape(t, v) && Recency(t, v) && level < NUM_LEVELS
    requires forall l :: 0 <= l < level ==> NoneVisible(t, v[l], user, s)
    requires NewestInFiles(t, v[level], user, s, Some(n))
    ensures NewestInVersion(t, v, user, s, Some(n))
  {
    var h :| h in v[level] && n in Data(t, h);
    forall l, f, e | 0 <= l < NUM_LEVELS && f in v[l] && e in Data(t, f)
      ensures Visible(e, user, s) ==> e.key.sequence <= n.key.sequence
    {
      if l > level {
        assert NewerFile(t, h, f);
      } else if l < level {
        assert NoneVisible(t, v[l], user, s);
      }
    }
  }

  method LevelGet(t: Tables, files: seq<FileMeta>, user: UserKey, s: nat) returns (r: Option<Entry>)
    requires GoodFiles(t, files) && SortedLevel(files)
    ensures NewestInFiles(t, files, user, s, r)
  {
    LargestSorted(t, files);
    var index := FindFile(files, LookupKey(user, s));
    LevelGetIsNewest(t, files, index, user, s);
    if index >= |files| {
      return None;
    } else if user < files[index].smallest.user {
      return None;
    } else {
      return TableGet(Data(t, files[index]), user, s);
    }
  }

  /** `Version::Get`: level by level, stopping at the first level that has an entry.  The
      entry it stops at is the newest visible one of the whole version. */
  method VersionGet(t: Tables, v: Levels, user: UserKey, s: nat) returns (r: Option<Entry>)
    requires Shape(t, v) && Recency(t, v)
    ensures NewestInVersion(t, v, user, s, r)
  {
    for level := 0 to NUM_LEVELS
      invariant forall l :: 0 <= l < level ==> NoneVisible(t, v[l], user, s)
    {
      if level == 0 {
        r := Level0Get(t, v[0], user, s);
      } else {
        r := LevelGet(t, v[level], user, s);
      }
      if r.Some? {
        FoundAtLevel(t, v, level, user, s, r.value);
        return;
      }
    }
    return None;
  }
}
