/** Compactions and user keys shared across a file boundary of the output level.

    `SetupOtherInputs` adds boundary files to the inputs of the lower level only
    (db/version_set.cc 1407, 1422).  Here is exactly when that loses a deletion; `BoundaryRun`
    has a run after which it does. */
module StoreBoundary {
  import opened InternalKeys
  import opened VersionReads
  import opened CompactionInputs
  import opened Compactions
  import opened Views
  import opened StoreState
  import opened StoreInvariant
  import opened StoreVersionSteps

  /** Input file `g` of the output level holds a deletion marker `d` that the loop drops and
      that is the newest entry of its key at the smallest snapshot; the neighbouring file `h`,
      left out of the inputs, holds the newest older entry left outside, a value `r`. */
  ghost predicate Uncovers(t: Tables, v: Levels, stored: set<Entry>, input: seq<Entry>, level: nat, in1: seq<FileMeta>,
                           smallest: nat, g: FileMeta, d: Entry, h: FileMeta, r: Entry)
    requires |v| == NUM_LEVELS && level + 1 < NUM_LEVELS
  {
    AcrossBoundary(t, v, level, in1, g, d, h, r) && Resurfaces(stored, input, smallest, v, level, d.key.user, d, r)
  }

  /** Nothing resurfaces except across a shared boundary of the output level. */
  lemma ResurfacesAtBoundary(t: Tables, v: Levels, hist: seq<Op>, flushed: nat, level: nat, in0: seq<FileMeta>,
                             in1: seq<FileMeta>,
                             smallest: nat, user: UserKey, d: Entry, r: Entry)
    returns (g: FileMeta, h: FileMeta)
    requires |v| == NUM_LEVELS && TablesOk(t, v, hist, flushed) && level + 1 < NUM_LEVELS
    requires ValidInputs(v, level, in0, in1)
    requires Resurfaces(Stored(t, v, hist, flushed), MergeInputs(t, in0 + in1), smallest, v, level, user, d, r)
    ensures Uncovers(t, v, Stored(t, v, hist, flushed), MergeInputs(t, in0 + in1), level, in1, smallest, g, d, h, r)
  {
    hide TablesOk, ValidInputs, BaseLevel, MergeInputs, Stored, AcrossBoundary;
    assert d.key.user == user && r.key.user == user && r.key.sequence <= d.key.sequence;
    var located;
    located, g, h := LocateOlder(t, v, hist, flushed, level, in0, in1, d, r);
  }

  /** In every store state and for any inputs the code may choose: the compaction keeps every
      answer at or after the smallest snapshot if and only if it uncovers no value across a
      shared boundary of the output level. */
  lemma CompactionExact(s: Store, level: nat, in0: seq<FileMeta>, in1: seq<FileMeta>)
    requires Inv(s) && s.ram.Some? && level + 1 < NUM_LEVELS && |s.ram.value.version| == NUM_LEVELS
    requires ValidInputs(s.ram.value.version, level, in0, in1)
    ensures var v, t := s.ram.value.version, s.disk.tables;
      var stored, input, smallest := Stored(t, v, s.hist, s.flushed), MergeInputs(t, in0 + in1),
        SmallestSnapshot(s.ram.value);
      SameAnswers(stored, AfterCompaction(stored, input, smallest, v, level), smallest) <==>
      forall g, d, h, r :: !Uncovers(t, v, stored, input, level, in1, smallest, g, d, h, r)
  {
    hide ValidInputs, ManifestOk, LogsOk, Covered, LogSplit, InflightOk, MemoryOk, SameAnswers, AfterCompaction,
      MergeInputs, Stored, AcrossBoundary, Resurfaces, SmallestSnapshot, TablesOk;
    var r := s.ram.value;
    var v, t := r.version, s.disk.tables;
    var stored, input, smallest := Stored(t, v, s.hist, s.flushed), MergeInputs(t, in0 + in1), SmallestSnapshot(r);
    SmallestInRange(r);
    StoredGenuine(t, v, s.hist, s.flushed);
    InputStored(t, v, s.hist, s.flushed, level, in0, in1);
    CompactionKeepsViewsExactly(s.hist, stored, input, smallest, v, level);
    if forall g, d, h, q :: !Uncovers(t, v, stored, input, level, in1, smallest, g, d, h, q) {
      forall user, d, q ensures !Resurfaces(stored, input, smallest, v, level, user, d, q) {
        if Resurfaces(stored, input, smallest, v, level, user, d, q) {
          var g, h := ResurfacesAtBoundary(t, v, s.hist, s.flushed, level, in0, in1, smallest, user, d, q);
        }
      }
    }
  }

  lemma InputStored(t: Tables, v: Levels, hist: seq<Op>, flushed: nat, level: nat, in0: seq<FileMeta>,
                    in1: seq<FileMeta>)
    requires |v| == NUM_LEVELS && TablesOk(t, v, hist, flushed) && level + 1 < NUM_LEVELS
    requires ValidInputs(v, level, in0, in1)
    ensures Sorted(MergeInputs(t, in0 + in1))
    ensures forall e :: e in MergeInputs(t, in0 + in1) ==> e in Stored(t, v, hist, flushed)
  {
    hide TablesOk, ValidInputs, MergeInputs, Sorted;
    CompactionInput(t, v, hist, flushed, level, in0, in1);
  }
}
