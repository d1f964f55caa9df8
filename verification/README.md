# Verified model of the storage engine and the message codec

The Market app keeps its offline data in LevelDB, vendored under
`Market/Pods/leveldb-library`, and exchanges Protocol Buffers through nanopb, vendored under
`Market/Pods/nanopb`.  This project models both in Dafny and proves what they promise.
For the store: reads answer from the history of writes at every snapshot while memtables are
switched, flushed and compacted; a process crash at any step loses nothing acknowledged; and
the structures underneath (skip list, iterators, cache, logs, blocks, filters, tables and
MANIFEST records) do what the layers above rely on, down to the bytes of the files.  For the
codec: sizes are exact, and what is encoded is decoded again.

Check it with `dafny verify dfyconfig.toml`.

## How the model is built

- **History.**  A run has a plain history of operations; operation number `n` has sequence
  number `n`.  `Read(hist, user, s)` is the effect of the last operation on `user` among the
  first `s`: the multi-version map that everything is compared with.
- **Store.**  `StoreState` and `StoreSteps` define states (tables, logs and MANIFESTs on disk;
  memtables, version, snapshots, versions held by iterators and counters in memory) and
  nineteen kinds of step, each what the code does while it holds the mutex or one disk write.
  `StoreInvariant` states what every step keeps; `StoreMemorySteps`, `StoreVersionSteps` and
  `StoreRecovery` prove it step by step; `StoreTheorems` draws the conclusions over all runs;
  `StoreWork` shows that the loops of the code (flush, compaction, recovery, file deletion)
  carry out these steps.
- **Local invariant.**  `Views` ties answers to single operations: an operation some reader
  may still see is stored, or it is a deletion with nothing older left to hide.
- **Interleaving.**  The skip-list search runs load by load against the stores of inserts
  (`SkipListRuns`).  The write queue (`GroupCommit`) is a class whose methods are what one
  thread does between two releases of the mutex, so its invariant holds for every
  interleaving.
- **Iterators.**  Each layer is a class that behaves as one cursor over a sorted sequence:
  `TwoLevelIterators` over concatenated blocks, `MergingIterators` over the union of its
  children, `DbIterators` over the entries shown at a snapshot.  Writers may put entries
  into a memtable under its iterator (`MemIterators`); those put behind it are passed over until
  it seeks again.  `StoreIteration` stacks these objects as `NewIterator` does and scans them
  (`Scans`) while writers go on; `HeldIterators` follows an iterator through the other steps of
  the store.
- **Imperative parts** are classes and methods proved against functions: compaction loop,
  binary searches, version builder, iterators, skip list, cache with its hash table and
  circular lists, log writer and reader.
- **What is refused.**  Readers are also held to what they do with bytes nobody wrote: cut-off
  batches, edits and messages, log files with anything in them, blocks and footers that do not
  verify.
- **Bytes.**  `Coding` has the number formats; logs (`LogFormat`, `LogReader`), batches
  (`WriteBatches`), edits (`VersionEdits`), blocks (`Blocks`, `BlockIterators`), filters
  (`BloomFilters`, `FilterBlocks`) and whole table files (`TableFormat`, `TableBuilders`,
  `Tables`) each have a writer and a reader, proved to undo each other.  The checksum, the
  hash and the compressor are functions of which only a law or nothing is known.
- **nanopb.**  `PbMessages` has descriptors and typed values in place of C structs; `PbEncode`
  and `PbDecode` say what an encoding is and what bytes mean, and the streams with their
  loops (`PbEncode.OStream`, `PbStreams.IStream`) are proved against that; `PbRoundTrip`
  connects the two, following the Protocol Buffers encoding specification (sections "Base
  128 Varints", "Signed Integers", "Length-Delimited Records", "Packed Repeated Fields").
  `PbUnknownFields` and `PbMissingFields` let writer and reader know different fields,
  `PbVariants` covers other ways to write a message, `PbNumbers` the numbers, and `PbMalformed`
  what is refused.
  Sizes have 32 bits, as the app's build sets `PB_FIELD_32BIT` (Market/Pods/Target Support
  Files/nanopb/nanopb.release.xcconfig), and tags have 29.
- **Store and bytes.**  `StoreFiles` connects the two: a table file answers what the store's
  table answers, a log cut off in its last record is a crash step of the store, and a MANIFEST
  record read back is the same edit.
- **Keys.**  The store, the iterators and the skip list look at user keys only through the
  comparator; here they are integers.  Blocks and tables have keys of bytes
  in the bytewise order (`ByteKeys`).  Handles of the cache and nodes of the skip list are
  indices into sequences that hold their fields, in place of pointers.

Findings:

- `SetupOtherInputs` adds boundary files for the lower level only.  If two files of the output
  level share a user key and only the first is an input, a dropped deletion marker can uncover
  a value in the second.  Theorems about compactions carry the hypothesis `NoSharedBoundary`;
  `StoreBoundary` gives the exact condition, and `BoundaryRun` a run after which a deletion is
  lost.  In that run an output file ends between two entries of one user key; the code ends
  files by size, so with its limits this takes larger values than those of the run, which uses
  that the model allows every cut.
- The comment on `DBIter::Direction` says that, moving backward, the internal iterator is just
  before all entries of the current key.  It is before all of them
  (`DbIterators.BeforeWholeKey`), but not always *just* before: user keys with nothing but
  entries newer than the snapshot may lie in between.  `DbIterators.JustBeforeKeyIff` says when
  they do, and `DbIterators.HiddenKeyBetween` has an example.
- `VersionEdit::Clear` does not clear the compaction pointers, so parsing a record into an
  object that has some keeps them in front of those read (`VersionEdits.SurvivesIff`).
- A text that fills its array without a terminator is encoded by nanopb but not decoded again;
  below 4 GB and with zero defaults that is the only way a round trip fails
  (`PbRoundTrip.MessageRoundTrip`; `PbRoundTrip.FullTextLost` is the smallest case).
- `pb_decode_varint32` does not look at bits 32 to 34: among numbers past 32 bits it takes some
  that are no sign extensions (`PbNumbers.Varint32Exactly` says which, and
  `PbNumbers.OddExtensionAccepted` has one).
- nanopb keeps track of 64 required fields; a message without one past these still decodes
  (`PbMissingFields.MissingFieldsDefault` has the exact condition).
- A log record of type 5 with a fitting checksum reads as the end of the file, since that is the
  number `ReadPhysicalRecord` returns there (`LogReader.Reader.ReadRecord`).  Nothing writes one.

## Model

| member | source | states |
|---|---|---|
| `StoreTheorems.Get` | Market/Pods/leveldb-library/db/db_impl.cc:1100-1145 | in every state reachable from a fresh database, crashes and recoveries included, a lookup in memtable, immutable memtable and levels, at the last sequence number or any held snapshot, returns what the plain history of operations gives at that snapshot; the memtable may have grown since the read began |
| `StoreTheorems.RunInv` | Market/Pods/leveldb-library/db/db_impl.cc:491-540 | every state of every run satisfies the store invariant: MANIFEST, tables, logs and memory together hold the history, each operation where it belongs |
| `StoreTheorems.NextInv` | Market/Pods/leveldb-library/db/version_set.cc:801-884 | each of the nineteen kinds of step keeps the invariant |
| `StoreTheorems.BackgroundKeepsAnswers` | Market/Pods/leveldb-library/db/db_impl.cc:688-767 | memtable switch, flush, compaction, trivial move and file deletion leave every snapshot readable and change no answer at any of them |
| `StoreTheorems.AcknowledgedIsDurable` | Market/Pods/leveldb-library/db/db_impl.cc:1185-1255 | over every run what was acknowledged at one moment is a prefix of what is acknowledged at any later one, so reads at acknowledged snapshots never change, not even over crashes |
| `StoreTheorems.RecoveryIsExact` | Market/Pods/leveldb-library/db/db_impl.cc:280-369 | a crash at any step and the next completed recovery, however many recoveries were cut short in between: exactly the acknowledged operations plus, unless its record was torn, the group in flight; the recovered last sequence number is that of the last operation |
| `StoreTheorems.RecoveryPossible` | Market/Pods/leveldb-library/db/db_impl.cc:319-346 | in every reachable state without memory all files that recovery needs are on disk and a recovery step exists, whatever was deleted before |
| `StoreTheorems.CrashLeaves` | Market/Pods/leveldb-library/db/db_impl.cc:1209-1224 | a crash keeps everything acknowledged, and the group in flight whole or not at all |
| `StoreIteration.IterationShowsHistory` | Market/Pods/leveldb-library/db/db_impl.cc:1062-1087 | in every reachable state the snapshot iterator over the merged layers shows a user key with a value if and only if the history up to the snapshot gives it that value |
| `StoreIteration.NewInternalIterator` | Market/Pods/leveldb-library/db/db_impl.cc:1062-1087 | in every reachable state: the merging iterator over memtables, level-0 tables and further levels is valid over the union of what they hold |
| `StoreIteration.AddIterators` | Market/Pods/leveldb-library/db/version_set.cc:230-246 | one child for each level-0 table, however it is cut into blocks, and one for each further level with files, over exactly the runs of the version |
| `StoreIteration.VersionRunsApart` | Market/Pods/leveldb-library/db/version_set.cc:230-246 | no sequence number is in two runs of a version, so the merged children have no key in common |
| `StoreIteration.Contents` | Market/Pods/leveldb-library/db/db_impl.cc:1147-1157 | scanning a new iterator, forward or backward, in every reachable state and at every readable snapshot, while writers insert between any two calls, gives rising user keys and exactly the pairs that the history gives at the snapshot |
| `Scans.ScanForward` | Market/Pods/leveldb-library/include/leveldb/iterator.h:33-58 | SeekToFirst and Next until not valid visit the pairs shown at the start once each, in order, whatever newer entries arrive between the calls |
| `Scans.ScanBackward` | Market/Pods/leveldb-library/include/leveldb/iterator.h:33-58 | SeekToLast and Prev until not valid visit the same pairs the other way round, whatever newer entries arrive between the calls |
| `HeldIterators.HeldTables` | Market/Pods/leveldb-library/db/version_set.cc:1167-1177 | over every run, every table of a version stays on disk unchanged for as long as an iterator holds the version |
| `HeldIterators.MemGrows` | Market/Pods/leveldb-library/db/db_impl.cc:1069-1075 | until it is switched, a memtable under an iterator only gains entries newer than those published when the iterator was made |
| `HeldIterators.RunGrows` | Market/Pods/leveldb-library/db/write_batch.cc:118-142 | what writers make of the memtable in any run up to its switch is what the scans allow under an iterator |
| `HeldIterators.HeldIteratorShowsHistory` | Market/Pods/leveldb-library/db/db_impl.cc:1062-1087 | an iterator held while the store works on shows, over the tables as they are now, the history at its snapshot, whether or not compactions still keep that snapshot |
| `StoreMemorySteps.WriteLogInv` | Market/Pods/leveldb-library/db/db_impl.cc:1203-1213 | appending a group's record to the log keeps the invariant |
| `StoreMemorySteps.ApplyNextInv` | Market/Pods/leveldb-library/db/write_batch.cc:118-142 | inserting the next operation of the group into the memtable keeps the invariant |
| `StoreMemorySteps.SwitchMemTableInv` | Market/Pods/leveldb-library/db/db_impl.cc:1343-1366 | switching to a new memtable and log keeps the invariant |
| `StoreMemorySteps.TakeSnapshotInv` | Market/Pods/leveldb-library/db/snapshot.h:58-72 | a new snapshot keeps the snapshots ordered and the smallest one right |
| `StoreMemorySteps.ReleaseSnapshotInv` | Market/Pods/leveldb-library/db/snapshot.h:80-87 | releasing any snapshot keeps the invariant |
| `StoreMemorySteps.PinVersionInv` | Market/Pods/leveldb-library/db/db_impl.cc:1081-1084 | an iterator that refers to the current version keeps the invariant |
| `StoreMemorySteps.UnpinVersionInv` | Market/Pods/leveldb-library/db/db_impl.cc:1050-1058 | an iterator that lets go of its version keeps the invariant |
| `StoreVersionSteps.FlushMemTableInv` | Market/Pods/leveldb-library/db/db_impl.cc:535-566 | a flush, at whichever level it goes to, keeps the invariant; an empty memtable leaves no table |
| `StoreVersionSteps.CompactInv` | Market/Pods/leveldb-library/db/db_impl.cc:860-876 | a compaction whose inputs share no user key across a boundary of the output level keeps the invariant |
| `StoreVersionSteps.TrivialMoveInv` | Market/Pods/leveldb-library/db/db_impl.cc:718-733 | moving one file down keeps the invariant |
| `StoreRecovery.DeleteTableInv` | Market/Pods/leveldb-library/db/db_impl.cc:223-278 | deleting a table that the current version does not name loses nothing |
| `StoreRecovery.DeleteLogInv` | Market/Pods/leveldb-library/db/db_impl.cc:243-246 | deleting a log older than the recorded log number loses nothing |
| `StoreRecovery.StrayManifestInv` | Market/Pods/leveldb-library/db/version_set.cc:828-861 | a recovery that dies before CURRENT names its new MANIFEST leaves a file that harms nothing, whatever it holds |
| `StoreRecovery.CrashTornInv` | Market/Pods/leveldb-library/db/db_impl.cc:430-455 | after a crash with the last log record torn, disk holds exactly the operations before it |
| `StoreRecovery.RecoverInv` | Market/Pods/leveldb-library/db/db_impl.cc:280-369 | recovery restores the invariant, and the last sequence number is the number of the last operation |
| `StoreRecovery.RecoverChain` | Market/Pods/leveldb-library/db/db_impl.cc:415-447 | tables written while logs are replayed, cut anywhere, extend level 0 in order and hold every operation of the logs once |
| `StoreRecovery.SnapshotReplays` | Market/Pods/leveldb-library/db/version_set.cc:1088-1116 | replaying the first record of a new MANIFEST gives the version it was written from |
| `StoreWork.Open` | Market/Pods/leveldb-library/db/db_impl.cc:1474-1515 | opening succeeds from every reachable state without memory and is one recovery step |
| `StoreWork.AddLiveFiles` | Market/Pods/leveldb-library/db/version_set.cc:1167-1177 | collects exactly the numbers of the files of all versions referred to |
| `StoreWork.DeleteObsoleteFiles` | Market/Pods/leveldb-library/db/db_impl.cc:223-278 | of the tables exactly those stay that the current version or one held by an iterator names, of the logs those from the recorded number on, of the MANIFESTs those from the current one on; every deletion is a step of the store |
| `StoreWork.RecoverLogs` | Market/Pods/leveldb-library/db/db_impl.cc:348-362 | the loops over logs and records write tables of consecutive runs of records under rising numbers, and find the largest sequence number |
| `StoreWork.RecoverLogFile` | Market/Pods/leveldb-library/db/db_impl.cc:371-489 | replaying one log: every record ends up in exactly one table, wherever the memtable fills up |
| `StoreWork.RecoverCounters` | Market/Pods/leveldb-library/db/version_set.cc:949-967 | the counters of a MANIFEST are those of the last record that has them |
| `StoreWork.CompactMemTable` | Market/Pods/leveldb-library/db/db_impl.cc:491-566 | the flush the code carries out is one flush step of the store, to the deepest level that the rules for a new table allow |
| `StoreWork.BackgroundCompaction` | Market/Pods/leveldb-library/db/db_impl.cc:712-745 | an automatic compaction from any seed file chooses valid inputs grown from that file, the file among them, and is one step of the store: a trivial move exactly if one file meets nothing below and few enough bytes two levels down, otherwise a compaction, given the boundary hypothesis |
| `Views.CompactionKeepsViewsExactly` | Market/Pods/leveldb-library/db/db_impl.cc:929-963 | a compaction keeps every answer at or after the smallest snapshot if and only if no dropped deletion marker uncovers a value left out of its inputs |
| `StoreBoundary.CompactionExact` | Market/Pods/leveldb-library/db/version_set.cc:1403-1462 | in every store state and for any inputs the code may choose: answers are kept if and only if no value is uncovered in a left-out file of the output level that shares a user key with an input file there |
| `StoreBoundary.ResurfacesAtBoundary` | Market/Pods/leveldb-library/db/version_set.cc:1407-1432 | nothing can resurface except across such a shared boundary |
| `BoundaryRun.BoundaryLosesDeletion` | Market/Pods/leveldb-library/db/version_set.cc:1407-1432 | a state reached by a run in which a snapshot is held over a deletion, a compaction ends a file between the deletion marker and the value, and the snapshot is released: the next compaction of inputs the code chooses loses the deletion and the old value is read again |
| `BoundaryRun.SplitTables` | Market/Pods/leveldb-library/db/db_impl.cc:929-985 | a state reached by writes, flushes, a trivial move and a compaction that two overlapping files call for, with the value and its deletion marker at the two sides of a file boundary of one level |
| `Views.CoveredAnswers` | Market/Pods/leveldb-library/db/db_impl.cc:1100-1145 | the invariant on stored entries gives every reader at or after the smallest snapshot the answer of the history |
| `Views.CompactionCovered` | Market/Pods/leveldb-library/db/db_impl.cc:929-963 | dropping hidden entries and base-level markers keeps that invariant |
| `StoreVersionSteps.CompactionMarkersSafe` | Market/Pods/leveldb-library/db/version_set.cc:1533-1552 | a marker dropped at the base level hides nothing older outside the inputs |
| `Compactions.DoCompactionWork` | Market/Pods/leveldb-library/db/db_impl.cc:896-1004 | the loop over the merged input writes exactly the entries that neither rule drops, in order, cut into files anywhere |
| `Compactions.DecideDrop` | Market/Pods/leveldb-library/db/db_impl.cc:919-969 | the three loop variables decide the two drop rules |
| `Compactions.Compaction.IsBaseLevelForKey` | Market/Pods/leveldb-library/db/version_set.cc:1533-1552 | with pointers that only move forward, the test answers whether any deeper file covers the key |
| `Views.DroppedIs` | Market/Pods/leveldb-library/db/db_impl.cc:929-963 | in terms of the input alone: an entry is dropped exactly if an entry of its user key that every reader left can see comes before it, or if it is a deletion marker that every reader left can see and no deeper file covers its user key |
| `Compactions.KeptSorted` | Market/Pods/leveldb-library/db/db_impl.cc:971-994 | what is kept stays sorted |
| `CompactionInputs.GetOverlappingInputs` | Market/Pods/leveldb-library/db/version_set.cc:519-559 | the restart loop ends; the result is all files of a range that is closed under user-key overlap at level 0 |
| `CompactionInputs.OverlapIsLeastClosed` | Market/Pods/leveldb-library/db/version_set.cc:536-553 | at level 0 the result is the least closed set of files that meets the range |
| `CompactionInputs.AddBoundaryInputs` | Market/Pods/leveldb-library/db/version_set.cc:1378-1401 | ends because the largest key rises; adds no file twice and none but such as start after the inputs with their last user key; leaves none of these |
| `CompactionInputs.FindSmallestBoundaryFile` | Market/Pods/leveldb-library/db/version_set.cc:1344-1362 | the boundary file with the smallest start, if there is one |
| `CompactionInputs.SetupOtherInputs` | Market/Pods/leveldb-library/db/version_set.cc:1403-1462 | the picked files are among the inputs; these are the picked ones with their boundary files and what they meet below, grown exactly if that takes in more files, no more below, and keeps the size limit; they are valid: closed at level 0, without gaps above, no boundary file left at the lower level, exactly the files that meet the range at the output level, also after the inputs are grown |
| `CompactionInputs.PickCompactionInputs` | Market/Pods/leveldb-library/db/version_set.cc:1270-1322 | from any seed file: valid inputs that hold it and are grown from it, at level 0 from the files that meet it |
| `CompactionInputs.PickSeed` | Market/Pods/leveldb-library/db/version_set.cc:1285-1296 | the seed is the first file of the level that ends after the compaction pointer, or the first of all |
| `CompactionInputs.PickedStay` | Market/Pods/leveldb-library/db/version_set.cc:1403-1432 | every file picked is among the inputs, however they are grown |
| `CompactionInputs.GrowingIsFree` | Market/Pods/leveldb-library/db/version_set.cc:1419-1446 | growing the inputs takes in no further file of the output level and no more bytes than allowed |
| `CompactionInputs.DecideTrivialMove` | Market/Pods/leveldb-library/db/version_set.cc:1515-1523 | a file is moved exactly if it is the only input and overlaps few enough bytes two levels down |
| `CompactionInputs.CompactRangeInputs` | Market/Pods/leveldb-library/db/version_set.cc:1464-1495 | valid inputs grown from the files that meet the manual range or, above level 0, from the first of them that together reach the size limit; none exactly if no file meets the range |
| `CompactionInputs.SomeFileOverlapsRange` | Market/Pods/leveldb-library/db/version_set.cc:122-155 | linear and binary search both answer whether some file meets the range, also with absent or reversed bounds |
| `CompactionInputs.PickLevelForMemTableOutput` | Market/Pods/leveldb-library/db/version_set.cc:491-516 | the deepest level down to 2 such that no level above it or at it has a file that meets the table's range and each level passed overlaps few enough bytes two levels down |
| `LevelShape.ReplacedInv` | Market/Pods/leveldb-library/db/version_set.cc:694-739 | a compaction or move keeps levels sorted and disjoint, shallower entries newer, file numbers unique |
| `LevelShape.FlushedInv` | Market/Pods/leveldb-library/db/version_set.cc:491-516 | a flush keeps them too, at whichever level the table is put |
| `LevelShape.LeftOutIsNewer` | Market/Pods/leveldb-library/db/version_set.cc:1366-1401 | a file of the lower level left out of the inputs is newer than every input wherever they share a user key |
| `LevelShape.LeftOutIsOutside` | Market/Pods/leveldb-library/db/version_set.cc:1410-1432 | a file of the output level left out of the inputs lies wholly before or after all of them |
| `VersionBuilder.ReplayIsInstall` | Market/Pods/leveldb-library/db/version_set.cc:650-739 | folding all records of a MANIFEST and saving once gives the version that installing them one by one gives, provided no file number is added twice to a level |
| `VersionBuilder.Builder.Apply` | Market/Pods/leveldb-library/db/version_set.cc:650-692 | one edit applied to the accumulated state of each level |
| `VersionBuilder.SaveFiles` | Market/Pods/leveldb-library/db/version_set.cc:695-739 | the merge loop of `SaveTo` and `MaybeAddFile` saves the merged files less the deleted ones |
| `VersionBuilder.RecoverVersion` | Market/Pods/leveldb-library/db/version_set.cc:924-994 | replaying a MANIFEST through the builder |
| `VersionBuilder.InstallMembers` | Market/Pods/leveldb-library/db/version_set.cc:694-755 | after an edit a level holds exactly the old files not removed and the files added, in order |
| `VersionReads.VersionGet` | Market/Pods/leveldb-library/db/version_set.cc:326-421 | the level-by-level lookup finds the newest visible entry of the whole version |
| `VersionReads.FindFile` | Market/Pods/leveldb-library/db/version_set.cc:88-106 | binary search for the first file that ends at or after the key |
| `VersionReads.LevelGetIsNewest` | Market/Pods/leveldb-library/db/version_set.cc:369-385 | in a sorted level only the file found can answer |
| `VersionReads.Level0Get` | Market/Pods/leveldb-library/db/version_set.cc:345-366 | newest first among overlapping files of level 0 |
| `VersionReads.TableGetIsNewest` | Market/Pods/leveldb-library/db/memtable.cc:102-134 | seeking to (user key, snapshot) in a sorted run stops at the newest visible entry |
| `GroupCommit.WriteQueue.BuildBatchGroup` | Market/Pods/leveldb-library/db/db_impl.cc:1260-1306 | the group is the longest run from the front that the sync rule and the size limit allow; the temporary batch is used exactly if a second batch joins, and then holds exactly the group's operations |
| `GroupCommit.WriteQueue.WriteGroup` | Market/Pods/leveldb-library/db/db_impl.cc:1203-1222 | the log gains one record with the group's operations at the next sequence numbers; the memtable follows; the log is synced exactly if the leader asks for it, which covers everyone in the group who does |
| `GroupCommit.WriteQueue.Finish` | Market/Pods/leveldb-library/db/db_impl.cc:1232-1255 | the group leaves the queue, the temporary batch is empty again and the sequence numbers are published |
| `GroupCommit.WriteQueue.Enqueue` | Market/Pods/leveldb-library/db/db_impl.cc:1185-1198 | joining the queue at any moment disturbs nothing |
| `GroupCommit.BatchPlaced` | Market/Pods/leveldb-library/db/db_impl.cc:1185-1255 | each batch served lies whole and once between all that arrived before it and all after |
| `GroupCommit.GroupBounds` | Market/Pods/leveldb-library/db/db_impl.cc:1264-1290 | the group of a leader of at most 128 KB has at most 128 KB more, no group of several has more than 1 MB, and nobody in a group asks for a sync that its leader does not do |
| `GroupCommit.GroupIsLongest` | Market/Pods/leveldb-library/db/db_impl.cc:1275-1290 | the first writer left out asks for a sync that the leader does not do, or would take the group past those sizes |
| `DbIterators.DbIterator.Seek` | Market/Pods/leveldb-library/db/db_iter.cc:261-273 | lands on the first shown entry whose user key is at or after the target |
| `DbIterators.DbIterator.SeekToFirst` | Market/Pods/leveldb-library/db/db_iter.cc:275-284 | lands on the first shown entry |
| `DbIterators.DbIterator.SeekToLast` | Market/Pods/leveldb-library/db/db_iter.cc:286-291 | lands on the last shown entry |
| `DbIterators.DbIterator.Next` | Market/Pods/leveldb-library/db/db_iter.cc:141-164 | moves to the next shown entry, or off the end, whichever way it moved before |
| `DbIterators.DbIterator.Prev` | Market/Pods/leveldb-library/db/db_iter.cc:195-218 | moves to the previous shown entry, or off the front, whichever way it moved before |
| `DbIterators.DbIterator.FindNextUserEntry` | Market/Pods/leveldb-library/db/db_iter.cc:166-193 | from any place the forward loop stops at the first shown entry past the user key to skip |
| `DbIterators.DbIterator.FindPrevUserEntry` | Market/Pods/leveldb-library/db/db_iter.cc:220-259 | finds the last shown entry at or before the internal iterator, with its own key and value |
| `DbIterators.DbIterator.ScanBack` | Market/Pods/leveldb-library/db/db_iter.cc:220-246 | the backward loop keeps the last value that nothing visible hides and stops on a visible entry of a smaller user key |
| `DbIterators.DbIterator.Grow` | Market/Pods/leveldb-library/db/db_iter.cc:36-45 | entries newer than the snapshot that are put into a memtable between two calls, anywhere, leave the iterator valid and on the same shown entry |
| `DbIterators.BeforeWholeKey` | Market/Pods/leveldb-library/db/db_iter.cc:44-45 | moving backward, the internal iterator is before every entry of the current user key, visible at the snapshot or not |
| `DbIterators.JustBeforeKeyIff` | Market/Pods/leveldb-library/db/db_iter.cc:44-45 | it is just before them, with nothing in between, if and only if the user key before the current one has an entry at or before the snapshot (or there is none) |
| `DbIterators.HiddenKeyBetween` | Market/Pods/leveldb-library/db/db_iter.cc:228-236 | an iterator on which it is not: a user key with only a newer entry lies in between |
| `DbIterators.ShownIsSnapshotMap` | Market/Pods/leveldb-library/db/db_iter.cc:36-40 | a user key is shown with a value if and only if reading it at the snapshot answers that value |
| `DbIterators.ShownAscend` | Market/Pods/leveldb-library/db/db_iter.cc:36-40 | shown entries have strictly rising user keys |
| `MergingIterators.MergingIterator.Seek` | Market/Pods/leveldb-library/table/merger.cc:52-58 | over disjoint sorted children: the cursor of the sorted union of all that they have by now, moved to the target |
| `MergingIterators.MergingIterator.SeekToFirst` | Market/Pods/leveldb-library/table/merger.cc:36-42 | the cursor of the union, at its first entry |
| `MergingIterators.MergingIterator.SeekToLast` | Market/Pods/leveldb-library/table/merger.cc:44-50 | the cursor of the union, at its last entry |
| `MergingIterators.MergingIterator.Next` | Market/Pods/leveldb-library/table/merger.cc:60-84 | one step forward in the union, after a change of direction too, when entries that were put behind a child join it |
| `MergingIterators.MergingIterator.Prev` | Market/Pods/leveldb-library/table/merger.cc:86-113 | one step back in the union, after a change of direction too, when entries that were put behind a child join it |
| `MergingIterators.MergingIterator.Grow` | Market/Pods/leveldb-library/db/memtable.cc:46-73 | whatever is put into a memtable, the same entry stays current, and the union loses nothing |
| `MemIterators.MemIterator.Next` | Market/Pods/leveldb-library/db/memtable.cc:46-73 | the next node of a list that has grown holds the next entry of the cursor, whatever was put in behind it |
| `MemIterators.MemIterator.Prev` | Market/Pods/leveldb-library/db/memtable.cc:46-73 | the same for the node before, moving backward |
| `MemIterators.MemIterator.Grow` | Market/Pods/leveldb-library/db/memtable.cc:76-100 | entries put into the list ahead of the iterator join its cursor, and no entry put behind it will be met |
| `MergingIterators.SmallestAtCut` | Market/Pods/leveldb-library/table/merger.cc:147-160 | with every child at its first entry past the cut, the smallest key is the next entry of the union |
| `MergingIterators.LargestBeforeCut` | Market/Pods/leveldb-library/table/merger.cc:162-175 | with every child at its last entry before the cut, the largest key is the last entry before it |
| `TwoLevelIterators.TwoLevelIterator.Seek` | Market/Pods/leveldb-library/table/two_level_iterator.cc:81-86 | the cursor of the concatenated blocks, moved to the target, past empty blocks |
| `TwoLevelIterators.TwoLevelIterator.Next` | Market/Pods/leveldb-library/table/two_level_iterator.cc:102-106 | one step forward over block ends and empty blocks |
| `TwoLevelIterators.TwoLevelIterator.Prev` | Market/Pods/leveldb-library/table/two_level_iterator.cc:108-112 | one step back over block ends and empty blocks |
| `TwoLevelIterators.SeekInBlocks` | Market/Pods/leveldb-library/table/two_level_iterator.cc:81-86 | seeking the index and then the block is seeking the concatenation |
| `SkipListRuns.SearchLinearizes` | Market/Pods/leveldb-library/db/skiplist.h:260-279 | a search interleaved load by load with the stores of inserts returns what is right in the bottom list at some moment between its start and its end |
| `SkipListRuns.SearchesLinearize` | Market/Pods/leveldb-library/db/skiplist.h:281-318 | interleaved with inserts, FindLessThan and FindLast return the node of the largest key before the target, and FindGreaterOrEqual that of the smallest at or after it, in the list as it was at some moment of the search |
| `SkipListRuns.SearchBackMissesNothing` | Market/Pods/leveldb-library/db/skiplist.h:281-297 | a key before the target that was in the list when the search began is not passed over on the way back |
| `SkipListRuns.SearchMissesNothing` | Market/Pods/leveldb-library/db/skiplist.h:260-279 | a key that was in the list when the search began is not passed over |
| `SkipListRuns.RunInv` | Market/Pods/leveldb-library/db/skiplist.h:332-368 | at every moment of every run each level is a sorted sublist of the levels below, and nodes only join levels |
| `SkipLists.LinkKeeps` | Market/Pods/leveldb-library/db/skiplist.h:361-367 | the store that publishes a node on a level puts it into the chain of that level, in order |
| `SkipLists.PrepareKeeps` | Market/Pods/leveldb-library/db/skiplist.h:364-364 | the store to the new node's own link changes no chain |
| `SkipLists.SearchStep` | Market/Pods/leveldb-library/db/skiplist.h:264-278 | one load of a search keeps it before the target, and tells the neighbours of the target on its level |
| `SkipListOperations.SkipList.Insert` | Market/Pods/leveldb-library/db/skiplist.h:332-368 | adds exactly the new key and keeps every level a sorted sublist; the new node is in every level below its height and in no other, and the height of the list is the larger one |
| `SkipListOperations.SkipList.Link` | Market/Pods/leveldb-library/db/skiplist.h:361-367 | two stores on each level, the lowest first, take the new node into the chains below its height and change no other |
| `SkipListOperations.SkipList.FindGreaterOrEqual` | Market/Pods/leveldb-library/db/skiplist.h:260-279 | the first node at or after the key, and on every level the node before it |
| `SkipListOperations.SkipList.FindLessThan` | Market/Pods/leveldb-library/db/skiplist.h:281-318 | the last node before the key, or of the list |
| `SkipListOperations.SkipList.Contains` | Market/Pods/leveldb-library/db/skiplist.h:370-378 | true if and only if the key is in the list |
| `SkipListOperations.SkipList.Prev` | Market/Pods/leveldb-library/db/skiplist.h:202-211 | the iterator steps back to the next smaller key |
| `SkipListOperations.SkipList.Next` | Market/Pods/leveldb-library/db/skiplist.h:196-200 | the iterator steps to the next larger key |
| `LruCaches.LRUCache.Insert` | Market/Pods/leveldb-library/util/cache.cc:267-306 | the new entry replaces one with the same key; idle entries are evicted from the one released longest ago on, no more than needed; afterwards the cache fits or nothing idle is left; exactly the evicted and the unheld replaced entry are deleted |
| `LruCaches.LRUCache.Lookup` | Market/Pods/leveldb-library/util/cache.cc:249-256 | finds the cached entry with the key, if there is one, and adds one reference |
| `LruCaches.LRUCache.Release` | Market/Pods/leveldb-library/util/cache.cc:258-261 | drops one reference: the last one of all deletes the entry, the last client's makes it the newest idle one |
| `LruCaches.LRUCache.Erase` | Market/Pods/leveldb-library/util/cache.cc:322-325 | takes exactly this entry out of the cache; deletes it if no client holds it |
| `LruCaches.LRUCache.Prune` | Market/Pods/leveldb-library/util/cache.cc:327-337 | drops exactly the entries that no client holds |
| `LruCaches.LRUCache.Ref` | Market/Pods/leveldb-library/util/cache.cc:217-223 | moves an idle entry to the in-use list |
| `LruCaches.LRUCache.Unref` | Market/Pods/leveldb-library/util/cache.cc:225-236 | deletes or moves the entry as its reference count says |
| `LruCaches.LRUCache.FinishErase` | Market/Pods/leveldb-library/util/cache.cc:310-320 | the entry leaves its list and the usage; it is deleted if no client holds it |
| `LruLists.RemoveKeepsRing` | Market/Pods/leveldb-library/util/cache.cc:238-241 | two stores take a handle out of a circular list |
| `LruLists.AppendKeepsRing` | Market/Pods/leveldb-library/util/cache.cc:243-247 | four stores make a handle the newest of a circular list |
| `HandleTables.HandleTable.Insert` | Market/Pods/leveldb-library/util/cache.cc:81-96 | the table gains the handle and loses the one with the same key and hash, if any; it grows exactly when it would hold more handles than buckets |
| `HandleTables.HandleTable.Remove` | Market/Pods/leveldb-library/util/cache.cc:98-106 | the table loses exactly the handle with this key and hash, if any |
| `HandleTables.HandleTable.Lookup` | Market/Pods/leveldb-library/util/cache.cc:77-79 | finds the handle with this key and hash if and only if the table has one |
| `HandleTables.HandleTable.Resize` | Market/Pods/leveldb-library/util/cache.cc:126-149 | rehashing keeps exactly the same handles; the number of buckets is the smallest power of two from 4 on that is at least theirs |
| `SnapshotLists.SnapshotList.New` | Market/Pods/leveldb-library/db/snapshot.h:58-72 | four stores append the snapshot to the ring as the newest |
| `SnapshotLists.SnapshotList.Delete` | Market/Pods/leveldb-library/db/snapshot.h:80-87 | two stores take any snapshot out of the ring; the others keep their order |
| `SnapshotLists.SnapshotList.Take` | Market/Pods/leveldb-library/db/db_impl.cc:1166-1169 | taking a snapshot is the store's step, and the ring goes on holding the store's snapshots |
| `SnapshotLists.SnapshotList.Release` | Market/Pods/leveldb-library/db/db_impl.cc:1171-1174 | releasing any snapshot in the ring likewise |
| `SnapshotLists.SnapshotList.Smallest` | Market/Pods/leveldb-library/db/db_impl.cc:890-894 | the smallest snapshot a compaction keeps is the oldest of the ring, or the last sequence number if it is empty |
| `LogReader.RoundTrip` | Market/Pods/leveldb-library/db/log_writer.cc:34-81 | what is written is read back: all records from the whole file, and from a file cut off at any byte exactly the records that lie wholly before the cut, nothing reported |
| `LogReader.ReadLog` | Market/Pods/leveldb-library/db/log_reader.cc:56-167 | reading any prefix of a log returns exactly the records wholly in it and reports nothing; after arbitrary bytes, from any block boundary on which an intact log (cut anywhere) follows, exactly its whole records are returned behind what was found before it; from any file whatever, only records that lie in it one after the other, put together from fragments whose checksums fit and that follow each other without a gap |
| `LogReader.Reader.ReadRecord` | Market/Pods/leveldb-library/db/log_reader.cc:56-167 | a written record is put together again from its fragments; a record the file ends in is ignored without report; whatever lies before a block boundary, the reader returns something that ends before it or the record written there; in any file, what is returned is an unbroken chain of fragments with fitting checksums, and reading stops only at the end of the file or at a record of the type the reader uses for that end |
| `LogReader.Reader.Assemble` | Market/Pods/leveldb-library/db/log_reader.cc:80-160 | what each type of fragment does to the record being put together, and how many bytes are reported when it is given up |
| `LogReader.RecordAtIff` | Market/Pods/leveldb-library/db/log_reader.cc:209-251 | what the reader's checks accept as a physical record is exactly what the writer would have written |
| `LogReader.Reader.ReadPhysicalRecord` | Market/Pods/leveldb-library/db/log_reader.cc:181-271 | a written fragment is returned past any trailer; at a torn one the end of the file is reported; nothing is returned as a fragment whose checksum does not fit |
| `LogFormat.Writer.AddRecord` | Market/Pods/leveldb-library/db/log_writer.cc:34-81 | a record is cut into fragments that never cross a block, with its trailer padding |
| `LogFormat.FragmentFills` | Market/Pods/leveldb-library/db/log_writer.cc:40-81 | a fragment holds all that is left of its record or ends with its block; only a tail too short for a header is filled, with zeros |
| `LogFormat.MaskRotates` | Market/Pods/leveldb-library/util/crc32c.h:24-31 | masking moves the lower 15 bits to the top and adds a constant |
| `LogFormat.UnmaskMask` | Market/Pods/leveldb-library/util/crc32c.h:24-38 | unmasking a masked checksum gives it back |
| `LogFormat.HeaderRoundTrip` | Market/Pods/leveldb-library/db/log_writer.cc:83-107 | length, type and checksum of a header read back as written |
| `Coding.VarintRoundTrip` | Market/Pods/leveldb-library/util/coding.cc:47-157 | a varint is decoded to the number encoded and ends where its encoding ends, whatever follows |
| `Coding.VarintDigits` | Market/Pods/leveldb-library/util/coding.cc:47-90 | the bytes of a varint are the digits of the number in base 128, the lowest first and no more than needed, and all but the last have the top bit set |
| `Coding.Fixed32Digits` | Market/Pods/leveldb-library/util/coding.cc:9-19 | the four bytes are the digits of the number in base 256, the lowest first |
| `Coding.SliceCut` | Market/Pods/leveldb-library/util/coding.cc:172-190 | a length-prefixed slice that is cut off anywhere cannot be read |
| `Coding.EncodeVarint32` | Market/Pods/leveldb-library/util/coding.cc:47-73 | the five-case encoder writes the same bytes as seven bits at a time |
| `Coding.EncodeVarint64` | Market/Pods/leveldb-library/util/coding.cc:81-90 | the encoding loop writes the same bytes |
| `Coding.GetVarint32Ptr` | Market/Pods/leveldb-library/util/coding.cc:112-128 | decoding stops after five bytes or at the limit, and otherwise gives the number modulo 2^32 and the end |
| `Coding.GetVarint64Ptr` | Market/Pods/leveldb-library/util/coding.cc:142-157 | the same for ten bytes and 64 bits |
| `Coding.Fixed64RoundTrip` | Market/Pods/leveldb-library/util/coding.cc:20-33 | fixed-width numbers are read back as written |
| `Coding.SliceRoundTrip` | Market/Pods/leveldb-library/util/coding.cc:98-190 | a length-prefixed slice is read back as written, whatever surrounds it |
| `Blocks.BlockBuilder.Add` | Market/Pods/leveldb-library/table/block_builder.cc:72-106 | adds a pair after those there: the entry shares the longest common prefix with the key before it, except at restart points, which share nothing |
| `Blocks.RestartsAre` | Market/Pods/leveldb-library/table/block_builder.cc:72-106 | the restart points are exactly every entry whose number is a multiple of the interval |
| `Blocks.BlockBuilder.Finish` | Market/Pods/leveldb-library/table/block_builder.cc:62-70 | the block is the entries, the restart offsets and their number |
| `Blocks.BlockBuilder.Reset` | Market/Pods/leveldb-library/table/block_builder.cc:47-54 | an empty block to start over with |
| `Blocks.BlockBuilder.CurrentSizeEstimate` | Market/Pods/leveldb-library/table/block_builder.cc:56-60 | the estimate is the exact size of the finished block |
| `BlockIterators.DecodeEntry` | Market/Pods/leveldb-library/table/block.cc:54-75 | decodes an entry's three lengths, the fast path for one-byte lengths agreeing with three varints; fails if the entry runs past the limit |
| `BlockIterators.HeaderOfEntry` | Market/Pods/leveldb-library/table/block.cc:54-75 | an entry that a builder wrote is decoded as it was written |
| `BlockIterators.OpenBlock` | Market/Pods/leveldb-library/table/block.cc:254-264 | a block is iterated if its restart array fits it; a built block always |
| `BlockIterators.BlockIterator.ParseNextKey` | Market/Pods/leveldb-library/table/block.cc:224-250 | on a built block the iterator lands on exactly the next pair, its key put together from the shared prefix; on any bytes the key and value are those the entry's header says, or the header is bad, which is reported and ends the iteration |
| `BlockIterators.BlockIterator.Seek` | Market/Pods/leveldb-library/table/block.cc:163-201 | binary search over restart points and a linear scan land on the first pair not before the target, for any transitive order in which the keys ascend |
| `BlockIterators.BlockIterator.Next` | Market/Pods/leveldb-library/table/block.cc:137-140 | moves to the next pair |
| `BlockIterators.BlockIterator.Prev` | Market/Pods/leveldb-library/table/block.cc:142-161 | moves to the pair before, undoing `Next`; invalid before the first |
| `BlockIterators.BlockIterator.SeekToFirst` | Market/Pods/leveldb-library/table/block.cc:203-206 | lands on the first pair |
| `BlockIterators.BlockIterator.SeekToLast` | Market/Pods/leveldb-library/table/block.cc:208-213 | lands on the last pair |
| `BlockIterators.BuildAndWalk` | Market/Pods/leveldb-library/table/block_builder.cc:62-106 | building a block and walking it gives exactly the pairs added, for every restart interval |
| `ByteKeys.FindShortestSeparator` | Market/Pods/leveldb-library/util/comparator.cc:29-50 | leaves the key alone or makes it a key of at most its length strictly between the two; it does so exactly if the keys part at bytes with room between them, and the result ends there, its last byte raised by one |
| `ByteKeys.FindShortSuccessor` | Market/Pods/leveldb-library/util/comparator.cc:52-64 | raises the first byte that is not 0xff and ends there, unless every byte is |
| `ByteKeys.BytesTotal` | Market/Pods/leveldb-library/util/comparator.cc:25-27 | of two different byte strings exactly one comes first |
| `ByteKeys.BytesTransitive` | Market/Pods/leveldb-library/util/comparator.cc:25-27 | the bytewise order is transitive |
| `ByteKeys.OrderKept` | Market/Pods/leveldb-library/db/dbformat.cc:51-67 | encoded internal keys are ordered by user key, then from newest to oldest |
| `ByteKeys.InternalSeparator` | Market/Pods/leveldb-library/db/dbformat.cc:69-86 | the separator of two keys in order is at or after the first and before the second; if the user keys part at bytes with room between them and more follows, it is the user key up to there, raised by one, under the earliest trailer, and otherwise the first key |
| `ByteKeys.InternalSuccessor` | Market/Pods/leveldb-library/db/dbformat.cc:88-101 | the successor is at or after the key: the user key up to its first byte below 0xff, raised by one, under the earliest trailer if that is shorter |
| `BloomFilters.SetBitExact` | Market/Pods/leveldb-library/util/bloom.cc:45-51 | setting a bit sets it and changes no other |
| `BloomFilters.ProbeIs` | Market/Pods/leveldb-library/util/bloom.cc:42-50 | the probes of a key are an arithmetic progression from its hash, modulo 2^32 |
| `BloomFilters.DeltaRotates` | Market/Pods/leveldb-library/util/bloom.cc:46-51 | its step is the hash with the upper 15 bits moved to the bottom |
| `BloomFilters.FilterMatches` | Market/Pods/leveldb-library/util/bloom.cc:28-80 | a key matches a filter exactly if each of its probes lands on a probe of a key in the filter |
| `BloomFilters.BloomFilterPolicy.CreateFilter` | Market/Pods/leveldb-library/util/bloom.cc:28-54 | the bits set are exactly those that a probe of a key lands on, in an array of the size the bits per key ask for and at least 64 bits, for any hash function |
| `BloomFilters.BloomFilterPolicy.KeyMayMatch` | Market/Pods/leveldb-library/util/bloom.cc:56-80 | answers whether every probe of the key finds its bit set; too short filters match nothing, reserved probe counts everything |
| `FilterBlocks.FilterBlockBuilder.StartBlock` | Market/Pods/leveldb-library/table/filter_block.cc:21-27 | makes filters up to the one for the offset, each for exactly the keys of its range |
| `FilterBlocks.FilterBlockBuilder.AddKey` | Market/Pods/leveldb-library/table/filter_block.cc:29-33 | the key belongs to the filter for the block started last |
| `FilterBlocks.FilterBlockBuilder.GenerateFilter` | Market/Pods/leveldb-library/table/filter_block.cc:51-75 | the pending keys get their filter; without any, an empty one |
| `FilterBlocks.FilterBlockBuilder.Finish` | Market/Pods/leveldb-library/table/filter_block.cc:35-49 | the finished block holds for every index in use the filter of exactly the keys added under it |
| `FilterBlocks.MatchesExactly` | Market/Pods/leveldb-library/table/filter_block.cc:21-104 | the filter of a 2 KB range in which keys were added says yes exactly to the keys whose probes all land on probes of those; where none was added it says no |
| `FilterBlocks.FilterBlockReader.KeyMayMatch` | Market/Pods/leveldb-library/table/filter_block.cc:90-104 | asks the filter that the offset array gives for the block's 2 KB range; anything malformed counts as a match |
| `FilterBlocks.LookupIsFilter` | Market/Pods/leveldb-library/table/filter_block.cc:90-104 | on a finished block the reader asks exactly the filter the builder made for that index |
| `FilterBlocks.NoFalseNegatives` | Market/Pods/leveldb-library/table/filter_block.cc:21-104 | a key added under a block's offset matches under any offset of the same 2 KB range, for any hash function |
| `FilterBlocks.BuildAndAsk` | Market/Pods/leveldb-library/table/filter_block.cc:35-104 | finishing, parsing and asking for any key added answers yes, for filters below 4 GB |
| `TableFormat.HandleRoundTrip` | Market/Pods/leveldb-library/table/format.cc:15-29 | a block handle is read back as written |
| `TableFormat.FooterRoundTrip` | Market/Pods/leveldb-library/table/format.cc:31-62 | the footer is read back as written |
| `TableFormat.RawBlockRoundTrip` | Market/Pods/leveldb-library/table/format.cc:64-139 | a block with its trailer is read back, compressed or not, with or without verifying the checksum |
| `TableFormat.VerifiedIffWritten` | Market/Pods/leveldb-library/table/format.cc:64-139 | with checksums verified a block is read exactly if its bytes are what a writer would have written, plain or in a form that uncompresses |
| `TableFormat.MagicNeeded` | Market/Pods/leveldb-library/table/format.cc:41-62 | nothing is taken for a footer that does not end in the eight bytes of the magic number |
| `TableBuilders.TableBuilder.Add` | Market/Pods/leveldb-library/table/table_builder.cc:94-123 | adds a pair: the last block's index key, made only now, is the shortest key at or after that block and before this key; filter, data block and index stay in step; the data block is written exactly when it has reached the block size |
| `TableBuilders.TableBuilder.Flush` | Market/Pods/leveldb-library/table/table_builder.cc:125-139 | writes the data block so that it reads back with its pairs, and starts its successor's filter |
| `TableBuilders.TableBuilder.WriteBlock` | Market/Pods/leveldb-library/table/table_builder.cc:141-175 | the block is stored compressed exactly if that saves more than an eighth, and reads back either way |
| `TableBuilders.TableBuilder.Finish` | Market/Pods/leveldb-library/table/table_builder.cc:198-253 | the file is a table of exactly the pairs added: data blocks in order, separating index keys, covering filter, metaindex and footer; the last index key is the short successor of the last key |
| `Tables.OpenTable` | Market/Pods/leveldb-library/table/table.cc:38-82 | any file opens exactly if its footer parses and its index block can be read; in a table that was built the filter is used exactly if the reader's policy has the name the builder recorded |
| `Tables.Table.ReadMeta` | Market/Pods/leveldb-library/table/table.cc:84-134 | finds the filter in the metaindex block exactly if there is one of that name |
| `Tables.Table.InternalGet` | Market/Pods/leveldb-library/table/table.cc:216-244 | hands back nothing but the first pair at or after the target, and hands that one back if it is of the target's user key, with the filter on or off; a block that the filter rules out is not looked into, and one that cannot be read is an error |
| `Tables.FilterSaysNo` | Market/Pods/leveldb-library/table/table.cc:224-228 | when the filter says no, no pair of the target's user key is passed over |
| `Tables.LookupFindsNewest` | Market/Pods/leveldb-library/table/table.cc:216-244 | a lookup of a user key at a sequence number hands back the newest pair of that key written up to it, whenever there is one |
| `Tables.FinishAndGet` | Market/Pods/leveldb-library/table/table.cc:38-244 | from the builder to the answer through the bytes of the file: the lookup is complete for any restart interval, block size, compression and filter setting |
| `VersionEdits.VersionEdit.EncodeTo` | Market/Pods/leveldb-library/db/version_edit.cc:41-85 | writes the fields that are set, each with its tag |
| `VersionEdits.VersionEdit.DecodeFrom` | Market/Pods/leveldb-library/db/version_edit.cc:107-205 | parses any bytes field by field; fields before a problem have taken effect, and the problem is reported |
| `VersionEdits.FieldRoundTrip` | Market/Pods/leveldb-library/db/version_edit.cc:41-205 | every kind of field is read back as written, whatever follows |
| `VersionEdits.EditRoundTrip` | Market/Pods/leveldb-library/db/version_edit.cc:41-205 | an edit is read back as written, behind the compaction pointers that the object held before, which `Clear` does not reset |
| `VersionEdits.CutEditReported` | Market/Pods/leveldb-library/db/version_edit.cc:107-205 | a record cut off inside a field is refused with the tag of that field, and the fields before it have taken effect; a cut between two fields goes unnoticed |
| `VersionEdits.LevelRefused` | Market/Pods/leveldb-library/db/version_edit.cc:97-105 | a field with a level there is not is a bad field |
| `VersionEdits.UnknownTagRefused` | Market/Pods/leveldb-library/db/version_edit.cc:190-193 | a tag that is none of the eight is refused |
| `VersionEdits.ParseAscends` | Market/Pods/leveldb-library/db/version_edit.cc:107-205 | whatever is parsed, the deleted files are a set in order |
| `VersionEdits.SurvivesIff` | Market/Pods/leveldb-library/db/version_edit.cc:26-39 | the edit read is the edit written if and only if the object held no compaction pointers |
| `WriteBatches.WriteBatch.Put` | Market/Pods/leveldb-library/db/write_batch.cc:98-103 | appends the operation and counts it |
| `WriteBatches.WriteBatch.Delete` | Market/Pods/leveldb-library/db/write_batch.cc:105-109 | appends the operation and counts it |
| `WriteBatches.WriteBatch.Append` | Market/Pods/leveldb-library/db/write_batch.cc:144-148 | the other batch's operations follow, and the counts add up |
| `WriteBatches.WriteBatch.Iterate` | Market/Pods/leveldb-library/db/write_batch.cc:42-80 | handles every record up to a bad one; a wrong count is reported after the last |
| `WriteBatches.WriteBatch.InsertInto` | Market/Pods/leveldb-library/db/write_batch.cc:115-137 | adds the records to the memtable under consecutive sequence numbers |
| `WriteBatches.BatchRoundTrip` | Market/Pods/leveldb-library/db/write_batch.cc:42-109 | a batch is read back operation by operation, its count right |
| `WriteBatches.CutBatchReported` | Market/Pods/leveldb-library/db/write_batch.cc:42-80 | a batch that is cut off anywhere is reported: the records wholly before the cut are handled, and then the record with the cut in it is bad or, at a cut between records, the count is wrong |
| `WriteBatches.EntryRoundTrip` | Market/Pods/leveldb-library/db/memtable.cc:75-134 | an encoded memtable entry gives user key, sequence number, type and value back |
| `WriteBatches.RecoverLogFile` | Market/Pods/leveldb-library/db/db_impl.cc:404-447 | from a log of batches cut off anywhere exactly the batches wholly in the file are replayed, nothing is reported, and the largest sequence number is exactly that of their last operation or the one before |
| `WriteBatches.LogAndRecover` | Market/Pods/leveldb-library/db/db_impl.cc:404-447 | logging batches, losing everything from some byte on and replaying gives the entries of the batches before the cut |
| `PbEncode.OStream.WriteMessage` | Market/Pods/nanopb/pb_encode.c:528-550 | sizing or writing, the fields are encoded in order; it fails exactly if a field has no encoding or the buffer is too small |
| `PbEncode.OStream.WriteArray` | Market/Pods/nanopb/pb_encode.c:147-236 | an array is packed behind its exact size where its type allows, else each item has its tag; more items than there is room for fail |
| `PbEncode.OStream.WriteSubmessage` | Market/Pods/nanopb/pb_encode.c:717-765 | the size pass and the writing pass of a submessage agree |
| `PbEncode.OStream.WriteField` | Market/Pods/nanopb/pb_encode.c:341-426 | a field is written if required, flagged, chosen or, without a flag, not zero |
| `PbEncode.VarintBuffer` | Market/Pods/nanopb/pb_encode.c:608-628 | the loop that clears the top bit of the last byte writes the varint |
| `PbEncode.EncodeExactly` | Market/Pods/nanopb/pb_encode.c:567-576 | the computed size is exact: a buffer takes the message if and only if it has at least that size, and then holds exactly its encoding |
| `PbDecode.SetSlotTyped` | Market/Pods/nanopb/pb_decode.c:466-475 | choosing a member of a oneof unsets the others, and the message stays well typed |
| `PbStreams.IStream.ReadVarint32` | Market/Pods/nanopb/pb_decode.c:187-247 | 32-bit varints of any number of bytes, of which those past the 35th bit may only repeat the sign |
| `PbStreams.IStream.ReadVarint` | Market/Pods/nanopb/pb_decode.c:255-275 | 64-bit varints of at most ten bytes |
| `PbStreams.IStream.ReadItem` | Market/Pods/nanopb/pb_decode.c:1318-1548 | one value of each type, with its overflow and size checks; a submessage is read through a substream of its length |
| `PbStreams.IStream.ReadArray` | Market/Pods/nanopb/pb_decode.c:424-464 | packed and single items; more than there is room for fail |
| `PbStreams.IStream.ReadMessage` | Market/Pods/nanopb/pb_decode.c:925-1073 | the decoding loop: unknown fields skipped, arrays without a count complete, required fields seen |
| `PbNumbers.Varint32Exactly` | Market/Pods/nanopb/pb_decode.c:187-247 | a 64-bit number read as a 32-bit varint gives its low word if it is below 2^32 or if the low word is negative and the bits past the 35th pass for copies of its sign, and is refused otherwise |
| `PbNumbers.NegativeAccepted` | Market/Pods/nanopb/pb_decode.c:213-226 | a negative number of 32 bits that was written with 64 passes |
| `PbNumbers.OddExtensionAccepted` | Market/Pods/nanopb/pb_decode.c:213-238 | a number passes that no 32-bit number was written as, since bits 32 to 34 are not looked at |
| `PbNumbers.IntExactly` | Market/Pods/nanopb/pb_decode.c:1329-1364 | the number read is the one of the field's width that agrees with the encoded one modulo 2^32, or 2^64 for a wide field, and reading fails exactly if there is none |
| `PbNumbers.ZigZagExactly` | Market/Pods/nanopb/pb_decode.c:1390-1412 | the number read is the one whose zigzag form was written, and reading fails exactly if none of the field's width has it |
| `PbNumbers.ZigZagOrder` | Market/Pods/nanopb/pb_encode.c:630-638 | the zigzag form orders numbers by distance from zero, the negative one of two first |
| `PbUnknownFields.SkipsItem` | Market/Pods/nanopb/pb_decode.c:321-330 | skipping by the wire type of a data type passes over exactly one encoded value of it, whatever follows |
| `PbUnknownFields.UnknownFieldsIgnored` | Market/Pods/nanopb/pb_decode.c:957-991 | a decoder that knows only some fields of a message reads exactly those: it gets their values, whatever the others held |
| `PbMissingFields.MissingFieldsDefault` | Market/Pods/nanopb/pb_decode.c:925-1087 | a decoder that knows more fields than were written gets the others at their defaults, exactly if every text leaves room for its terminator and every required field, of the first 64, was written |
| `PbMissingFields.EmptyMessage` | Market/Pods/nanopb/pb_decode.c:1033-1069 | an empty message decodes exactly if no field is required |
| `PbMissingFields.AbsentIff` | Market/Pods/nanopb/pb_encode.c:240-337 | a value without a flag is left out exactly if it is the default, up to contents of absent parts, and nothing in its type is required, always full or of fixed size |
| `PbMalformed.ItemCut` | Market/Pods/nanopb/pb_decode.c:1318-1548 | no value of any type can be read from a proper part of its encoding |
| `PbMalformed.TruncatedMessageRefused` | Market/Pods/nanopb/pb_decode.c:925-1073 | a message cut off inside any of its fields, or of the items of an array that is not packed, never decodes |
| `PbMalformed.BlobExactly` | Market/Pods/nanopb/pb_decode.c:1431-1548 | a byte string is read exactly if the field has room for it, a text up to its first zero, and a field of fixed size takes those of its size or none |
| `PbVariants.PackedOrTagged` | Market/Pods/nanopb/pb_decode.c:424-464 | an array written packed and one written an item at a time read alike, whatever was read before and follows |
| `PbVariants.OverflowRefused` | Market/Pods/nanopb/pb_decode.c:424-464 | more items than an array has room for, counting those read before, make decoding fail, packed or not |
| `PbVariants.IncompleteRefused` | Market/Pods/nanopb/pb_decode.c:1023-1028 | a message that ends inside an array without a count is refused |
| `PbVariants.InterleavedRefused` | Market/Pods/nanopb/pb_decode.c:993-1005 | so is one that starts another such array inside it |
| `PbVariants.LastWins` | Market/Pods/nanopb/pb_decode.c:406-423 | of two values for one field the last counts |
| `PbVariants.ZeroTagEnds` | Market/Pods/nanopb/pb_decode.c:310-314 | a zero tag ends a message like the end of its bytes, whatever follows |
| `PbRoundTrip.ZeroIsDefault` | Market/Pods/nanopb/pb_encode.c:240-337 | a value that counts as absent is the default, at any depth |
| `PbRoundTrip.ItemRoundTrip` | Market/Pods/nanopb/pb_decode.c:1318-1548 | any value is read back, whatever follows, if and only if every text in it leaves room for its terminator |
| `PbRoundTrip.MessageRoundTrip` | Market/Pods/nanopb/pb_decode.c:925-1087 | any message of any nested descriptor whose tags are distinct, not zero and of 29 bits, encoded below 4 GB, is decoded to the same message up to the contents of absent fields, if and only if every text in it leaves room for its terminator |
| `PbRoundTrip.CanonMessageBytes` | Market/Pods/nanopb/pb_encode.c:528-550 | setting the contents of absent fields to their defaults changes nothing that is encoded |
| `PbRoundTrip.EncodeAndDecode` | Market/Pods/nanopb/pb_encode.c:567-576 | sizing, encoding into a buffer of that size and decoding gives the message back |
| `VersionEdits.WriteAndRead` | Market/Pods/leveldb-library/db/version_edit.cc:41-205 | an edit written and parsed into a fresh object is the same edit |
| `WriteBatches.EncodeEntry` | Market/Pods/leveldb-library/db/memtable.cc:75-98 | a memtable entry is its internal key and its value, each behind its length, and fills exactly the buffer computed for it |
| `Coding.VarintLength` | Market/Pods/leveldb-library/util/coding.cc:103-110 | the loop counts the bytes of the varint without writing it |
| `PbRoundTrip.FullTextLost` | Market/Pods/nanopb/pb_decode.c:1468-1512 | a text of one character in an array of one byte is encoded, and decoding the encoding fails |
| `StoreFiles.FileAnswers` | Market/Pods/leveldb-library/table/table.cc:216-244 | a lookup in the file of a table hands back the encoding of what the store's table answers, and nothing of the user key if it answers nothing, for user keys as bytes in their order |
| `StoreFiles.FinishAndAnswer` | Market/Pods/leveldb-library/db/table_cache.cc:100-112 | finishing a table file, opening it and looking a user key up at a snapshot answers as the store's table does, with or without a filter |
| `StoreFiles.PairsAscend` | Market/Pods/leveldb-library/db/builder.cc:31-40 | the entries of a table reach the builder in rising order of their encoded keys |
| `StoreFiles.CutIsCrash` | Market/Pods/leveldb-library/db/db_impl.cc:404-447 | a log file that breaks off anywhere in its last record and is then replayed is one of the two crashes of the store: the group is kept if the record is whole, and torn otherwise |
| `StoreFiles.ReplaysAgree` | Market/Pods/leveldb-library/db/db_impl.cc:404-447 | the memtable that the bytes of a log are replayed into holds the encodings of what the store's records give |
| `StoreFiles.RecordDetermines` | Market/Pods/leveldb-library/db/version_edit.cc:41-87 | a MANIFEST record describes one edit of the store only |
| `StoreFiles.WriteEdit` | Market/Pods/leveldb-library/db/version_edit.cc:107-219 | an edit written as a record and read back describes the same edit and no other |
| `WriteBatches.WriteBatch.SetSequence` | Market/Pods/leveldb-library/db/write_batch.cc:94-96 | numbering a batch changes nothing else of it |
| `TwoLevelIterators.ConcatSorted` | Market/Pods/leveldb-library/table/two_level_iterator.cc:81-86 | blocks separated by their index keys are one sorted sequence |
| `GroupCommit.WriteQueue.Lead` | Market/Pods/leveldb-library/db/db_impl.cc:1200-1206 | the front writer becomes the leader of a group it builds, and nothing is written yet |
| `GroupCommit.WriteQueue.ServeNull` | Market/Pods/leveldb-library/db/db_impl.cc:1200-1206 | a null batch at the front is served alone and writes nothing |
| `LruCaches.LRUCache.TotalCharge` | Market/Pods/leveldb-library/util/cache.cc:166-169 | the stored total is the sum of the charges of all cached entries |

## Left out

- A flush carried out inside a running compaction (db/db_impl.cc 907-918): flush and compaction are separate atomic steps.
- A crash of the operating system: bytes written before a process crash are kept, except that the record being written may be torn.
- Input and output errors, `bg_error_`, `paranoid_checks`, `reuse_logs`, shutdown; in the store model, corrupted files other than torn log tails.
- `StoreTheorems.Get` and the theorems about runs need `NoSharedBoundary` for every compaction of the run, because the code loses deletions without it.
- `Compactions.DoCompactionWork`: where output files are cut (size limit, grandparent overlap) is left open, so every cut is covered.
- `BoundaryRun.SplitTables`, `BoundaryRun.BoundaryLosesDeletion`: the place where the first compaction of the run ends its output file is one of the cuts left open; at these sizes the code would write one file.
- `StoreWork.BackgroundCompaction`: any file of the level may be the seed. `CompactionInputs.PickSeed` is the choice by the compaction pointer; the scores and seek counts that choose the level are left out.
- Sequence numbers stop short of the largest 56-bit number: the compaction loop uses that number to mean "no earlier entry".
- `HeldIterators`: the reference counts of versions and memtables are a list of versions that iterators hold; the output numbers of a running compaction are not protected, as a compaction is one step.
- Weak memory orders: the skip list is interleaved under sequential consistency; the arena and the random heights are parameters.
- `GroupCommit.WriteQueue`: the log and memtable do not switch during a group; waiting in `MakeRoomForWrite` is not modelled.
- `SkipLists`, `LruCaches`, `HandleTables`: pointers are indices and the fields of a handle are kept in parallel sequences, so freeing memory is a set of deleted handles.
- `HandleTables.HandleTable`: the bucket of a hash is its remainder by the length, which for the powers of two in use is the mask of the code.
- `LogReader.Reader`: reading from an initial offset is left out; every use in the store starts at the beginning of the file. Behind damaged bytes the records are stated from the next block boundary at which an intact record starts; the corrupt parts of a file are characterised by soundness only (what is returned is whole and checksummed).
- `TwoLevelIterators.TwoLevelIterator`: a block handle is the index of its block, and reading a block does not fail.
- `StoreIteration.AddIterators`: the tables of level 0 are two-level iterators over blocks cut anywhere; inside the two-level iterator of a further level, the iterator of one table is a single cursor.
- Comparator names, info logs, statistics, `repair.cc`, `dumpfile.cc`, `c.cc`, `filename.cc`: no logic of interest here.
- All Swift under `Market/Market` and the header-only or generated pods.
- `BlockIterators.DecodeEntry`: sums two 32-bit lengths without wrapping around; only a corrupt block has lengths for which that differs.
- `BloomFilters.BloomFilterPolicy.constructor`: the number of probes is 69 hundredths of the bits per key, for the floating-point factor of the code.
- `FilterBlocks.FilterBlockReader.KeyMayMatch`: the shift by the stored base is a division by a power of two, also for a corrupt base too large for a machine shift.
- `Tables.Table.InternalGet`: complete for files below 4 GB, since the filter block stores 32-bit offsets; the block cache and reading through an environment are left out.
- `TableBuilders.TableBuilder.Add`: write errors, `Abandon` and `ChangeOptions` are left out, and blocks stay below 4 GB as their 32-bit restart offsets require.
- The user key hash of `InternalFilterPolicy` is one hash function that looks at the user key only, in place of the wrapper that strips keys first.
- `VersionEdits.VersionEdit.DecodeFrom`: comparator names and numbers are options in place of values with flags.
- `StoreFiles`: one table, one log and one MANIFEST record at a time; file names, the directory and `CURRENT` are not modelled as bytes.
- `WriteBatches.RecoverLogFile`: the memtable is not written out in between; the store model covers that.
- nanopb callbacks, pointer fields, extensions, varints of more than ten bytes where the code's 8-bit shift counter wraps, fields with defaults other than zero, and descriptors without any field.
- `PbMessages`: a text is its characters before the terminator; what the array holds after it, and the contents of unused array entries, are not modelled.
- `PbDecode.FindTag`: the search from the iterator's current position is a search from the first field, which is the same as tags are distinct.
- `PbEncode.OStream`: sizes do not wrap around, and the write callback never fails.
