# LevelDB and nanopb, modelled and proved

A model in Dafny of the two libraries that Shark Collector vendors: LevelDB 1.18, an LSM-tree store, and
nanopb 0.3.8, an encoder and decoder of Protocol Buffers driven by descriptors. `dafny verify dfyconfig.toml`
checks all of it.

## What is modelled

LevelDB has one specification: a read of a user key at a sequence number gives the newest entry of the key up to
that number. The modules show that everything on the way to a read agrees with it.

- **The store.** `InternalKeys` has keys, their order, and what a read is. `Versions` has the levels of files and
  every search in them. `LevelEdits` has flushes, `Compactions` the choice of inputs and the drop loop, and
  `OutputCuts` where that loop ends one table and starts the next. `CompactionSafety` says exactly when a compaction
  keeps every read and the order of the levels, `SplitKeys` says so in terms of the files, and `CompactionExamples`
  has the cases that go wrong. `InputGaps` is about a flush while a compaction is under way. `Snapshots` is the ring
  of live snapshots. `Store` puts these into a state machine whose runs interleave writes, flushes, compactions and
  snapshots in every order, those that go wrong included, and says for each step exactly when it keeps reads and
  levels right. `StoreMerges` says it for a whole merge in terms of the version it was started on and of what was
  flushed under it, `StoreReads` for what a lookup answers, and `StoreWrites` shows that concurrent writers are runs
  of whole writes.
- **Cursors.** `DbIterators`, `MergingIterators`, `TwoLevelIterators` and `BlockIterators` are the iterators with
  their changes of direction, each proved against a plain cursor over a sorted sequence. `IteratorRuns` drives them
  through any calls at all. `BlockCursors` says where the iterator of a block goes over any bytes, `BuiltBlocks`
  what that is in a block that was built, and `BlockSeeks` takes its search to the keys the block holds.
- **Structures in memory.** `SkipLists` has one writer and readers without locks, step by step. `HandleTables` and
  `LruCaches` are a shard of the cache, and `LruRuns` takes it through any calls beside a plain list. `GroupCommit` is
  the queue of writers and their leaders, in every interleaving at lock boundaries.
- **Files.** `Coding`, `BlockFormat` and `BlockBuilders`, `LogFormat`, `LogWriters` and `LogReaders`, `WriteBatches`,
  `VersionEdits`, `BloomFilters` and `FilterBlocks`, `Comparators` and `Tables` have the bytes: what is written is
  read back, and readers are specified on any bytes at all. `KeyOrders` has the order of keys in both forms.
  `LogRecovery` shows what is left of a log that is cut off at any byte. `Manifests` and `VersionSets` have the builder,
  the manifest and recovery from it. `Recoveries` puts the log, the batches and the queue of writers together: a synced
  write survives any crash.

nanopb is modelled over descriptor trees. `PbSchema` has descriptors and structs, `PbWire` integers, tags and
skipping, `PbFormat` the bytes of a message, `PbParsing` what decoding any bytes gives. `PbRoundTrip` proves that a
message comes back exactly when it fits. `PbFieldIters`, `PbEncoders` and `PbDecoders` are the stateful code, with
streams, substreams, sizing passes and the bitmap of required fields, proved against those specifications.
The format is that of the Protocol Buffers Encoding specification, sections "Base 128 Varints", "Message Structure"
and "Packed Repeated Fields".

## How it is modelled

- Code that changes state is a class or a method with loops, proved against a function of the state it starts from.
  Protocols with several parties are state machines over their steps; theorems are about every run.
- User keys of the store and keys of the skip list are reals: the place of a key in the comparator's order. Blocks
  take a comparator as a function from byte strings to reals. Tables, filters and separators work on the byte
  strings themselves, in bytewise order.
- Integers are unbounded but where their width matters: varints, checksums, Bloom hashes, lengths in headers,
  sequence numbers of a replayed batch and nanopb's fields are taken modulo their width.
- The checksum of a log, the hash of a key, the sizes of tables and batches, whether a block is full and the height
  of a node are parameters, so every theorem holds for whatever they are.
- A file is a sequence of bytes; a manifest or a log that was cut off is a prefix of it.

## Where code and comments differ

- `SetupOtherInputs` (db/version_set.cc:1297-1362) takes inputs by their ranges of user keys, and a file may end in
  the middle of the entries of a user key. A file of the same level that goes on with that key is not taken along.
  The comment at db/db_impl.cc:929-936 takes an old deletion marker for obsolete when no deeper level has its key,
  but the value it deletes may be in that file: `CompactionExamples.MergeUncoversADeletedValue` is a merge after
  which the value is read again, and `MovingHalfAKeyServesTheOlderValue` a move after which a lookup finds the older
  of two. `SplitKeys` has the exact conditions: `MergePreservesReadsExactly` for reads, `MergeKeepsLayeredExactly` and
  `TrivialMoveKeepsLayeredExactly` for the order of the levels. Most merges that split a user key go right. The runs of
  `Store` leave out none: its theorems have the exact conditions on the way.
- `CompactMemTable` runs in the middle of a compaction (db/db_impl.cc:884-893) and may put its table between two
  inputs, into the level that the outputs go to: `CompactionExamples.FlushBetweenInputsIsLost` is a merge after which
  the flushed value is not found. Such a flush does harm exactly if its table lies on neither side of some output, for a
  single output of what survives of the inputs: `StoreMerges.MergeKeepsOrderExactly` and `OneOutputFlushFits`. Under a
  compaction that was picked for one file no flush does (`StoreMerges.OneSeedKeepsOrderExactly`); a manual compaction
  of a range may have gaps.
- The comment at table/merger.cc:62-66 says that going forwards the other children are after the current key. With the
  key in several children they may be at it, and turning round passes over those: `IteratorRuns.WalksAsOneExactly`.
- The comment at db/db_iter.cc:43-45 says that going backwards the inner iterator is just before all entries of the
  current user key. Entries that are hidden at the sequence number may lie in between; the model keeps what the code
  keeps.
- `VersionEdit::Clear` (db/version_edit.cc:26-39) does not clear the compaction pointers, so decoding into an edit
  keeps those that are there.
- The number of the last update of an empty batch numbered 0 wraps round in 64 bits (db/db_impl.cc:427-429).

## Model

| member | source | states |
|---|---|---|
| InternalKeys.ComparePacksCorrectly | sharkCollector/Pods/leveldb-library/db/dbformat.cc:50-66 | comparing packed numbers and kinds orders internal keys by user key up, then sequence number down, then kind down, and calls only equal keys equal |
| InternalKeys.SeekFindsNewest | sharkCollector/Pods/leveldb-library/db/dbformat.cc:121-138 | in a sorted run, the first entry at or after the lookup key of (u, s) is the newest entry of u visible at s, or else none is visible |
| InternalKeys.ReadNewest | sharkCollector/Pods/leveldb-library/db/memtable.cc:108-143 | the newest visible entry decides a read: its value, or nothing if it marks a deletion |
| Versions.FindFile | sharkCollector/Pods/leveldb-library/db/version_set.cc:77-96 | binary search over disjoint files splits them exactly: all before the result end before the key, all from it on do not |
| Versions.SomeFileOverlapsRange | sharkCollector/Pods/leveldb-library/db/version_set.cc:112-147 | with or without binary search, true exactly when some file overlaps the range, open ends included |
| Versions.GetOverlappingInputs | sharkCollector/Pods/leveldb-library/db/version_set.cc:522-563 | returns all files that overlap the range reached; in level 0 that range is closed under overlap and the least closed one that contains what was asked; the restarts end |
| Versions.WideningStaysWithin | sharkCollector/Pods/leveldb-library/db/version_set.cc:544-560 | a restart with a widened range stays within every closed range |
| Versions.WideningMakesProgress | sharkCollector/Pods/leveldb-library/db/version_set.cc:544-560 | every restart leaves fewer files sticking out of the range |
| Versions.OverlapInLevel | sharkCollector/Pods/leveldb-library/db/version_set.cc:486-491 | true exactly when the level holds a file that overlaps the range |
| Versions.PickLevelForMemTableOutput | sharkCollector/Pods/leveldb-library/db/version_set.cc:493-519 | the level is the deepest one, at most 2, that can be reached through levels with no overlap and little overlap two levels down |
| Versions.SortIsNewestFirst | sharkCollector/Pods/leveldb-library/db/version_set.cc:353-363 | level-0 candidates end up in falling order of file numbers, none lost |
| Versions.FilesToSearch | sharkCollector/Pods/leveldb-library/db/version_set.cc:333-372 | what a lookup leaves out of a level can hold nothing visible for the key, or only what is older than the file it searches |
| Versions.SeekHitIsExact | sharkCollector/Pods/leveldb-library/db/version_set.cc:259-272 | what the saver makes of the first entry at or after the lookup key is the newest visible entry of the table, a miss shows there is none, and corruption is reported only of keys that do not parse |
| Versions.MissHidesLevel | sharkCollector/Pods/leveldb-library/db/version_set.cc:344-372 | if the files searched in a level all miss, the whole level holds nothing visible for the key |
| Versions.OthersAreNotNewer | sharkCollector/Pods/leveldb-library/db/version_set.cc:344-363 | no file beside the one that was hit holds a newer entry for the key |
| Versions.HitDecides | sharkCollector/Pods/leveldb-library/db/version_set.cc:374-417 | a hit is the newest visible entry of its level |
| Versions.SearchLevel | sharkCollector/Pods/leveldb-library/db/version_set.cc:340-417 | one level of a lookup: its answer is that of the newest visible entry of the level, or the level is shown to hold nothing; it needs only that the level can be searched |
| Versions.Get | sharkCollector/Pods/leveldb-library/db/version_set.cc:323-420 | the answer is that of the first level to show the key, in any version whose levels can be searched; in a layered one it is the globally newest value with sequence number at most s; only an entry that does not parse comes in between |
| Versions.FirstReadIsRightExactly | sharkCollector/Pods/leveldb-library/db/version_set.cc:323-420 | asking parts one after the other and stopping at the first that shows the key is right if and only if that entry does not mask a newer one that says something else |
| Versions.NewerPartsMaskNothing | sharkCollector/Pods/leveldb-library/db/version_set.cc:336-340 | which it does not where each part is newer than those after it |
| Versions.LayeredReadsRight | sharkCollector/Pods/leveldb-library/db/version_set.cc:336-340 | so in a layered version the first level to show a key has its newest entry |
| LevelEdits.InsertFileKeepsDisjoint | sharkCollector/Pods/leveldb-library/db/version_set.cc:750-762 | a file apart from all others leaves a sorted level sorted and disjoint |
| LevelEdits.NonOverlappingShareNoKey | sharkCollector/Pods/leveldb-library/db/version_set.cc:486-519 | files that do not overlap a range hold nothing newer or older for a key of it |
| LevelEdits.FlushedContents | sharkCollector/Pods/leveldb-library/db/db_impl.cc:457-501 | a flush adds the entries of its table and nothing else |
| LevelEdits.FlushKeepsNewer | sharkCollector/Pods/leveldb-library/db/db_impl.cc:485-496 | after a flush each level is still newer, key for key, than every deeper one |
| LevelEdits.FlushKeepsLayered | sharkCollector/Pods/leveldb-library/db/db_impl.cc:485-496 | a memtable's table at the level chosen for it keeps deeper levels disjoint, level 0 newer by number, and every level newer than those below |
| Compactions.GetRange | sharkCollector/Pods/leveldb-library/db/version_set.cc:1176-1199 | the range is covered by the files and each end is one of theirs |
| Compactions.SetupOtherInputs | sharkCollector/Pods/leveldb-library/db/version_set.cc:1297-1348 | the files of the next level are what overlaps the seed, whether the inputs grow or not; they grow to all of their level that overlaps these exactly when that is more, not too large and brings in no further file; grandparents are exactly what overlaps all inputs two levels down |
| Compactions.ExpandInputs | sharkCollector/Pods/leveldb-library/db/version_set.cc:1310-1340 | what the inputs may grow to, and that they do exactly when they may |
| Compactions.GrowsExactlyWhen | sharkCollector/Pods/leveldb-library/db/version_set.cc:1324-1325 | comparing the numbers of files is comparing the files |
| Compactions.SeedIsProper | sharkCollector/Pods/leveldb-library/db/version_set.cc:1297-1306 | files closed under overlap, with what overlaps them a level down, are proper inputs |
| Compactions.Compaction.constructor | sharkCollector/Pods/leveldb-library/db/version_set.cc:1399-1409 | all cursors start at the first file |
| Compactions.Compaction.IsBaseLevelForKey | sharkCollector/Pods/leveldb-library/db/version_set.cc:1434-1453 | for nondecreasing keys, the cursors that only move forward answer exactly whether no file two or more levels below covers the key |
| Compactions.Compaction.ShouldStopBefore | sharkCollector/Pods/leveldb-library/db/version_set.cc:1455-1475 | says to stop exactly when the grandparents passed since the last stop hold more than the limit, and which files have been passed |
| Compactions.CompactionState.FinishCompactionOutputFile | sharkCollector/Pods/leveldb-library/db/db_impl.cc:782-831 | the open table joins the outputs with its size; nothing written is lost |
| Compactions.CompactionState.Add | sharkCollector/Pods/leveldb-library/db/db_impl.cc:950-972 | an entry after all written ones is written once, into a table that stays valid and is closed exactly when it is big enough |
| Compactions.StopsAtEntry | sharkCollector/Pods/leveldb-library/db/version_set.cc:1455-1475 | over a sorted input the counters say to stop exactly where the grandparents do |
| Compactions.StopBefore | sharkCollector/Pods/leveldb-library/db/db_impl.cc:896-902 | the open table is closed before an entry exactly when it is a stop, and tables stay cut right |
| Compactions.AppendIsProper | sharkCollector/Pods/leveldb-library/db/db_impl.cc:782-831 | outputs stay valid, disjoint and in order, and have the numbers they were opened with |
| Compactions.Decide | sharkCollector/Pods/leveldb-library/db/db_impl.cc:904-940 | what the loop remembers of the entries before decides exactly as the specification of dropping does on the whole input |
| Compactions.ProcessEntry | sharkCollector/Pods/leveldb-library/db/db_impl.cc:896-973 | an entry is written exactly when it is not dropped, in order after what was written, and tables stay cut right |
| Compactions.DoCompactionWork | sharkCollector/Pods/leveldb-library/db/db_impl.cc:855-1004 | the outputs are proper, their concatenation is the input without the entries that go, and they are cut just where they have to be: none goes on when it is big enough or over a stop, and each but the last ended for one of these reasons |
| OutputCuts.CountOneMore | sharkCollector/Pods/leveldb-library/db/version_set.cc:1455-1475 | an entry adds the grandparents that end between the one before and itself; it is a stop exactly when that makes too much since the last stop, and then counting begins anew |
| OutputCuts.Written | sharkCollector/Pods/leveldb-library/db/db_impl.cc:950-972 | a table that an entry makes big enough is closed with it, and no table is big enough before |
| OutputCuts.StopCloses | sharkCollector/Pods/leveldb-library/db/db_impl.cc:896-902 | at a stop the open table is closed, so no table goes on over one |
| OutputCuts.TableClosed | sharkCollector/Pods/leveldb-library/db/db_impl.cc:978-985 | closing the last table leaves every table cut just where it had to be |
| OutputCuts.CutsAreDetermined | sharkCollector/Pods/leveldb-library/db/db_impl.cc:896-973 | sizes and stops leave no choice: two lists of tables with the same entries, both cut just where they have to be, are cut alike |
| OutputCuts.OutputOverlapsLittle | sharkCollector/Pods/leveldb-library/db/version_set.cc:1455-1475 | what stopping is for: of the level beneath, no more than the limit ends inside any output |
| CompactionSafety.DroppingPreservesReadsExactly | sharkCollector/Pods/leveldb-library/db/db_impl.cc:904-940 | dropping what is hidden at the smallest snapshot, and old markers of keys with nothing deeper, changes some read at or after that snapshot if and only if it uncovers a value, and then already the read at the snapshot |
| CompactionSafety.DroppingPreservesReadExactly | sharkCollector/Pods/leveldb-library/db/db_impl.cc:904-940 | for each reader there is: its read changes if and only if to it the newest entry is a marker that goes and the newest of what stays a value |
| CompactionSafety.UncoveredFirst | sharkCollector/Pods/leveldb-library/db/db_impl.cc:927-937 | what is uncovered to a later reader is uncovered to one at the smallest snapshot |
| CompactionSafety.KeptMembers | sharkCollector/Pods/leveldb-library/db/db_impl.cc:896-973 | an entry is kept exactly when the loop did not drop it |
| CompactionSafety.KeptIsNotHidden | sharkCollector/Pods/leveldb-library/db/db_impl.cc:921-926 | nothing hidden by a newer entry at the smallest snapshot is kept |
| CompactionSafety.DropIsExact | sharkCollector/Pods/leveldb-library/db/db_impl.cc:904-940 | the loop, which looks one entry back, drops an entry exactly when it is hidden in the whole input, or an old marker of a key with nothing deeper |
| CompactionSafety.DropLoopIsExact | sharkCollector/Pods/leveldb-library/db/db_impl.cc:896-973 | so of each user key it keeps just what need not go |
| CompactionSafety.KeptAreSurvivors | sharkCollector/Pods/leveldb-library/db/db_impl.cc:896-973 | and what it writes is a set known from the inputs alone |
| CompactionSafety.VersionContentsSplit | sharkCollector/Pods/leveldb-library/db/db_impl.cc:834-853 | a version is its bystanders and the inputs; after installation, its bystanders and the outputs |
| CompactionSafety.BystanderIsApart | sharkCollector/Pods/leveldb-library/db/version_set.cc:1297-1306 | a file of the next level that is no input lies wholly on one side of every input entry |
| CompactionSafety.InstallKeepsOrdered | sharkCollector/Pods/leveldb-library/db/db_impl.cc:834-853 | installing outputs leaves the levels sorted and disjoint if and only if no output encloses a file that stays in their level, wherever such files came from |
| CompactionSafety.OutputsAreApart | sharkCollector/Pods/leveldb-library/db/db_impl.cc:834-853 | no output encloses a file just if every output is apart from every file that stays |
| CompactionSafety.OneOutputFitsExactly | sharkCollector/Pods/leveldb-library/db/db_impl.cc:834-853 | for a single output: just if each file that stays lies on one side of all that survives |
| CompactionSafety.ProperOutputsFit | sharkCollector/Pods/leveldb-library/db/db_impl.cc:834-853 | in the version that the inputs were chosen in, no output does |
| CompactionSafety.InstallKeepsLayeredExactly | sharkCollector/Pods/leveldb-library/db/db_impl.cc:834-853 | and leaves the version layered if and only if, besides, what stays in the inputs' own level is newer than the outputs |
| CompactionSafety.CompactionPreservesReadsExactly | sharkCollector/Pods/leveldb-library/db/db_impl.cc:855-1004 | for every user key, memtables above and base version: a merge keeps every read from the smallest snapshot on, if and only if it uncovers no value; if it does, already the read at the snapshot is wrong |
| CompactionSafety.CompactionPreservesReadExactly | sharkCollector/Pods/leveldb-library/db/db_impl.cc:855-1004 | and for each reader: its read is kept if and only if the merge uncovers no value to it |
| CompactionSafety.CompactionKeepsLayeredExactly | sharkCollector/Pods/leveldb-library/db/db_impl.cc:834-853 | a merge leaves the version layered if and only if no output encloses a file that stays in their level and what stays in the inputs' own level is newer than what survives of them |
| SplitKeys.SplitKeyLeavesOlder | sharkCollector/Pods/leveldb-library/db/version_set.cc:1297-1306 | of two adjacent files the later holds something older for a key of the earlier exactly when they share the user key at their boundary |
| SplitKeys.LeftBehindIsNewerExactlyWhenNoSplitKey | sharkCollector/Pods/leveldb-library/db/version_set.cc:1297-1306 | what is left of a level holds nothing older for an input key exactly when no input ends in the middle of a user key |
| SplitKeys.OlderIsAtABoundary | sharkCollector/Pods/leveldb-library/db/version_set.cc:1297-1306 | what stays and is older than an input entry of its key is of the same level, in a file that goes on with the last user key of an input |
| SplitKeys.UncoversExactlyWhenCutOff | sharkCollector/Pods/leveldb-library/db/db_impl.cc:927-937 | in the caller's terms: a value is uncovered exactly when no deeper file covers its key and one of the two levels is cut, after an input and before a file left behind, between the key's newest visible marker and a value |
| SplitKeys.MergePreservesReadsExactly | sharkCollector/Pods/leveldb-library/db/db_impl.cc:855-1004 | a merge of inputs chosen in a layered version keeps every read of a user key from the smallest snapshot on, if and only if it does not cut a level there |
| SplitKeys.OlderStaysExactlyWhenSplit | sharkCollector/Pods/leveldb-library/db/version_set.cc:1297-1362 | what stays in the inputs' own level holds something older than what survives exactly when the level is not 0 and is cut inside a user key of which something survives |
| SplitKeys.MergeKeepsLayeredExactly | sharkCollector/Pods/leveldb-library/db/db_impl.cc:834-853 | so a merge from level 0 always leaves the version layered, one from a deeper level if and only if it makes no such cut; cutting the next level does no harm |
| SplitKeys.NothingGoesOnInLevel0 | sharkCollector/Pods/leveldb-library/db/version_set.cc:522-563 | from level 0 no user key is split, for its inputs are closed under overlap |
| SplitKeys.NoSplitKeyIsSafe | sharkCollector/Pods/leveldb-library/db/version_set.cc:1297-1362 | a compaction that splits no user key goes wrong in neither way |
| SplitKeys.TrivialMoveKeepsLayeredExactly | sharkCollector/Pods/leveldb-library/db/db_impl.cc:680-700 | a trivial move loses no entry, and keeps the version layered if and only if it is from level 0 or splits no user key |
| InputGaps.OneSeedHasNoGap | sharkCollector/Pods/leveldb-library/db/version_set.cc:1297-1340 | between the ends of the inputs chosen for one file there is no user key that none of them covers, at every level, whether they were grown or not |
| InputGaps.ChosenHasNoGap | sharkCollector/Pods/leveldb-library/db/version_set.cc:1297-1362 | whatever SetupOtherInputs chooses for one file leaves no gap |
| InputGaps.FlushStaysAside | sharkCollector/Pods/leveldb-library/db/db_impl.cc:884-893 | so a table flushed into the output level of such a compaction lies on one side of all its inputs, in whatever version the inputs still are in |
| CompactionExamples.MergeMayCutInsideAKey | sharkCollector/Pods/leveldb-library/db/db_impl.cc:950-972 | a concrete merge from level 0, with tables that are full with one entry, whose outputs share a user key |
| CompactionExamples.MovingHalfAKeyServesTheOlderValue | sharkCollector/Pods/leveldb-library/db/version_set.cc:1417-1424 | the version it leaves: the first of the two files is moved down, and a lookup then answers with the older value left behind |
| CompactionExamples.MergeUncoversADeletedValue | sharkCollector/Pods/leveldb-library/db/db_impl.cc:927-937 | a concrete merge that drops a deletion marker as obsolete and leaves the value it deletes in the next file, where it is read again |
| CompactionExamples.FlushBetweenInputsIsLost | sharkCollector/Pods/leveldb-library/db/db_impl.cc:884-893 | a concrete merge of two files with a gap, into which a flush puts a table: the two tables overlap, and a lookup ends in the wrong one |
| Snapshots.SnapshotImpl.constructor | sharkCollector/Pods/leveldb-library/db/snapshot.h:15-28 | a node alone is its own neighbour |
| Snapshots.SnapshotList.constructor | sharkCollector/Pods/leveldb-library/db/snapshot.h:30-36 | an empty ring |
| Snapshots.SnapshotList.Empty | sharkCollector/Pods/leveldb-library/db/snapshot.h:37-37 | true exactly when no snapshot is live |
| Snapshots.SnapshotList.Oldest | sharkCollector/Pods/leveldb-library/db/snapshot.h:38-38 | a live snapshot with the least number of all live ones |
| Snapshots.SnapshotList.New | sharkCollector/Pods/leveldb-library/db/snapshot.h:41-50 | the new snapshot is live after all others, which stay; the ring is linked both ways |
| Snapshots.SnapshotList.Unlink | sharkCollector/Pods/leveldb-library/db/snapshot.h:52-57 | only the two neighbours change, and they point at each other |
| Snapshots.SnapshotList.Delete | sharkCollector/Pods/leveldb-library/db/snapshot.h:52-57 | exactly the given snapshot leaves the ring, the order of the others stays |
| Store.InitBase | sharkCollector/Pods/leveldb-library/db/db_impl.cc:116-146 | an empty store satisfies the invariant of all runs |
| Store.WriteBase | sharkCollector/Pods/leveldb-library/db/db_impl.cc:1188-1210 | a write under fresh numbers keeps it |
| Store.WriteKeepsReads | sharkCollector/Pods/leveldb-library/db/db_impl.cc:1188-1210 | and changes no read at a live snapshot |
| Store.SwitchBase | sharkCollector/Pods/leveldb-library/db/db_impl.cc:1325-1342 | making the memtable immutable, or dropping an empty one, keeps it and all data |
| Store.FlushBase | sharkCollector/Pods/leveldb-library/db/db_impl.cc:503-534 | a flush, at any moment of a compaction and at any level it may go to, keeps it and all data |
| Store.FlushedFileIsValid | sharkCollector/Pods/leveldb-library/db/db_impl.cc:457-501 | the flushed table is valid and newer, key for key, than the version |
| Store.StartBase | sharkCollector/Pods/leveldb-library/db/db_impl.cc:864-872 | starting a compaction keeps it, the smallest snapshot being fixed then |
| Store.SmallestSnapshotIsMinimal | sharkCollector/Pods/leveldb-library/db/db_impl.cc:868-872 | no live snapshot, and no reader to come, is below the smallest snapshot |
| Store.OpenBase | sharkCollector/Pods/leveldb-library/db/db_impl.cc:757-780 | an output takes the next file number when it is opened, between those of flushed tables |
| Store.OutputsAreNew | sharkCollector/Pods/leveldb-library/db/db_impl.cc:757-780 | so the outputs have numbers that no file of the version has |
| Store.FinishBase | sharkCollector/Pods/leveldb-library/db/db_impl.cc:996-1004 | installing the outputs keeps it whatever came in between, brings in no entry, and writes just what survives of the inputs |
| Store.MoveBase | sharkCollector/Pods/leveldb-library/db/db_impl.cc:680-700 | a trivial move keeps it and all data |
| Store.SnapshotBase | sharkCollector/Pods/leveldb-library/db/db_impl.cc:1143-1151 | so does taking or releasing a snapshot |
| Store.NextBase | sharkCollector/Pods/leveldb-library/db/db_impl.cc:655-738 | every step keeps it: nothing is made up, numbers are given once, and a compaction under way keeps its inputs |
| Store.FinishReadExactly | sharkCollector/Pods/leveldb-library/db/db_impl.cc:996-1004 | the end of a merge changes what a reader reads if and only if it uncovers a value to it |
| Store.NextReadsExactly | sharkCollector/Pods/leveldb-library/db/db_impl.cc:655-738 | every reader reads what was written after a step if and only if it is not the end of a merge that uncovers a value to a reader there |
| Store.FinishLayersExactly | sharkCollector/Pods/leveldb-library/db/db_impl.cc:996-1004 | the end of a merge leaves the levels in order if and only if nothing older than its outputs stays above them and no table in their level is inside one of them |
| Store.NextLayersExactly | sharkCollector/Pods/leveldb-library/db/db_impl.cc:655-738 | the levels are in order after a step if and only if it is no such merge, and no move that splits a user key |
| Store.RunBase | sharkCollector/Pods/leveldb-library/db/db_impl.cc:655-738 | the invariant holds at every moment of every run of writes, switches, flushes, compactions, moves and snapshots, none of them left out |
| Store.RunReadsExactly | sharkCollector/Pods/leveldb-library/db/db_impl.cc:655-738 | up to any moment of any run every reader reads what was written, if and only if no merge before it uncovered a value to one |
| Store.RunLayersExactly | sharkCollector/Pods/leveldb-library/db/db_impl.cc:655-738 | and the levels are in order all along if and only if every step kept them so |
| Store.HistoryIsStable | sharkCollector/Pods/leveldb-library/db/db_impl.cc:1188-1210 | what had been written up to a sequence number is read the same ever after |
| Store.SnapshotReadsAreStable | sharkCollector/Pods/leveldb-library/db/db_impl.cc:1143-1151 | a live snapshot reads, at any later moment of a run in which no merge uncovers a value, exactly what had been written when it was taken |
| StoreMerges.MergeKeepsJob | sharkCollector/Pods/leveldb-library/db/db_impl.cc:855-1004 | from its start to its end a merge keeps inputs, base version and smallest snapshot, whatever comes in between |
| StoreMerges.UncoversLaterExactly | sharkCollector/Pods/leveldb-library/db/db_impl.cc:927-937 | a value is uncovered to a later reader if and only if it is to one at the smallest snapshot and the later one sees no newer entry of the key |
| StoreMerges.FlushKeepsRest | sharkCollector/Pods/leveldb-library/db/db_impl.cc:884-893 | a flush under a merge changes nothing of what is beside its inputs |
| StoreMerges.MergeServesExactly | sharkCollector/Pods/leveldb-library/db/db_impl.cc:855-1004 | over any run, with writes, flushes and snapshots between start and end: a reader there is at the end is served right if and only if the merge uncovered no value of the key when it was started, or the key has been written since for this reader to see |
| StoreMerges.UncoversWhenCutOff | sharkCollector/Pods/leveldb-library/db/db_impl.cc:927-937 | which it did if and only if nothing deeper covers the key and one of its two levels is cut between the newest marker and a value |
| StoreMerges.FlushFitsExactly | sharkCollector/Pods/leveldb-library/db/db_impl.cc:884-893 | a flush under a merge leaves room for the outputs if and only if it goes to another level or its table lies on one side of each of them |
| StoreMerges.OneOutputFlushFits | sharkCollector/Pods/leveldb-library/db/db_impl.cc:884-893 | of a single output: on one side of all that survives of the inputs |
| StoreMerges.FlushKeepsOlder | sharkCollector/Pods/leveldb-library/db/db_impl.cc:884-893 | a flush into the inputs' own level does no harm: its table is newer than they are |
| StoreMerges.MergeKeepsOrderExactly | sharkCollector/Pods/leveldb-library/db/db_impl.cc:855-1004 | over any run: a merge leaves the levels in order if and only if it did not cut its own level inside a user key of which something survives when it was started, and every table flushed into the level of the outputs since lies on one side of each of them |
| StoreMerges.OneSeedFlushStaysAside | sharkCollector/Pods/leveldb-library/db/db_impl.cc:884-893 | every flush under a merge that grew from one file, after any others, puts its table on one side of all the inputs |
| StoreMerges.OneSeedKeepsOrderExactly | sharkCollector/Pods/leveldb-library/db/version_set.cc:1243-1295 | so over any run such a merge leaves the levels in order if and only if it did not cut its own level there |
| StoreMerges.WholeKeysAreSafe | sharkCollector/Pods/leveldb-library/db/db_impl.cc:655-738 | every run whose compactions take whole user keys and grow from one file has, at every moment, its levels in order and every reader served right |
| StoreReads.TopDecides | sharkCollector/Pods/leveldb-library/db/memtable.cc:108-143 | a memtable that knows the key decides the read, one that does not leaves it to the parts beneath |
| StoreReads.Get | sharkCollector/Pods/leveldb-library/db/db_impl.cc:1077-1122 | memtable, immutable memtable, levels: the answer is that of the first that shows the key, and where answers are right it is what the history of writes says at any live sequence number |
| StoreReads.FinishStandsExactly | sharkCollector/Pods/leveldb-library/db/db_impl.cc:834-853 | the end of a merge leaves the levels fit for binary search if and only if no output encloses a table of theirs |
| StoreReads.NextStandsExactly | sharkCollector/Pods/leveldb-library/db/db_impl.cc:655-738 | and no other step can do any harm to that |
| StoreReads.RunStandsExactly | sharkCollector/Pods/leveldb-library/db/db_impl.cc:655-738 | so over any run the levels can be searched all along if and only if no merge wrote an output around a table |
| StoreReads.FirstReadUnlessOvertaken | sharkCollector/Pods/leveldb-library/db/version_set.cc:336-340 | of parts in order but for one pair, the first answer is right if and only if it is not an entry that a newer one has gone beneath |
| StoreReads.FinishAnswersExactly | sharkCollector/Pods/leveldb-library/db/db_impl.cc:996-1004 | what a lookup answers after a merge is the newest entry if and only if the merge does not put a newer entry that says something else beneath one that stays and is shown |
| StoreReads.MoveAnswersExactly | sharkCollector/Pods/leveldb-library/db/db_impl.cc:680-700 | and after a move likewise |
| StoreReads.NextAnswersExactly | sharkCollector/Pods/leveldb-library/db/db_impl.cc:655-738 | so after a step every reader there is gets what was written if and only if it is no merge or move that does this to one |
| StoreReads.StackedAnswersRight | sharkCollector/Pods/leveldb-library/db/version_set.cc:336-340 | where the levels are in order every answer is right |
| StoreReads.SnapshotAnswersAreStable | sharkCollector/Pods/leveldb-library/db/db_impl.cc:1077-1122 | a lookup at a live snapshot answers, at any later moment of a run whose steps keep reads and levels, what had been written when it was taken |
| StoreWrites.SeenOneBatchMore | sharkCollector/Pods/leveldb-library/db/write_batch.cc:112-125 | operations numbered on from the last make the entries that a write of them makes |
| StoreWrites.FinishIsWrite | sharkCollector/Pods/leveldb-library/db/db_impl.cc:1176-1229 | when a group of writers is done readers see what one write of the operations of all of them makes of the database |
| StoreWrites.OtherStepsShowNothing | sharkCollector/Pods/leveldb-library/db/db_impl.cc:1188-1210 | until then they see nothing of it |
| StoreWrites.WriteIsPossible | sharkCollector/Pods/leveldb-library/db/write_batch.cc:112-125 | the memtable can take any batch under fresh numbers |
| StoreWrites.RunIsWrites | sharkCollector/Pods/leveldb-library/db/db_impl.cc:1153-1229 | at every moment of every interleaving of writers, readers see what some run of the database that only writes whole groups has made |
| DbIterators.DBIter.constructor | sharkCollector/Pods/leveldb-library/db/db_iter.cc:48-61 | the iterator starts nowhere |
| DbIterators.DBIter.ParseKey | sharkCollector/Pods/leveldb-library/db/db_iter.cc:130-144 | whether the internal key parses; a failure stays in the status |
| DbIterators.ForwardScanAdvances | sharkCollector/Pods/leveldb-library/db/db_iter.cc:173-203 | one round of the forward scan finds the next entry to show, or goes on having missed none |
| DbIterators.BackwardScanAdvances | sharkCollector/Pods/leveldb-library/db/db_iter.cc:232-272 | one round of the backward scan keeps the newest visible entry of the user key it is at as candidate |
| DbIterators.BackwardScanFinds | sharkCollector/Pods/leveldb-library/db/db_iter.cc:232-272 | once the scan is past the user key, or at the front, the candidate is the previous entry to show |
| DbIterators.DBIter.FindNextUserEntry | sharkCollector/Pods/leveldb-library/db/db_iter.cc:173-203 | lands on the first entry to show from the start on, skipping hidden and deleted user keys |
| DbIterators.DBIter.FindPrevUserEntry | sharkCollector/Pods/leveldb-library/db/db_iter.cc:232-272 | lands on the last entry to show before the end, with its value |
| DbIterators.DBIter.Next | sharkCollector/Pods/leveldb-library/db/db_iter.cc:146-171 | from either direction, to the next entry to show |
| DbIterators.DBIter.Prev | sharkCollector/Pods/leveldb-library/db/db_iter.cc:205-230 | from either direction, to the previous entry to show |
| DbIterators.DBIter.Seek | sharkCollector/Pods/leveldb-library/db/db_iter.cc:274-286 | to the first entry to show whose user key is at or after the target |
| DbIterators.DBIter.SeekToFirst | sharkCollector/Pods/leveldb-library/db/db_iter.cc:288-297 | to the first entry to show |
| DbIterators.DBIter.SeekToLast | sharkCollector/Pods/leveldb-library/db/db_iter.cc:299-304 | to the last entry to show |
| DbIterators.DBIter.Key | sharkCollector/Pods/leveldb-library/db/db_iter.cc:66-69 | the user key of the entry shown, in either direction |
| DbIterators.DBIter.Value | sharkCollector/Pods/leveldb-library/db/db_iter.cc:70-73 | its value, in either direction |
| DbIterators.ShownKeysIncrease | sharkCollector/Pods/leveldb-library/db/db_iter.cc:35-46 | user keys shown are strictly increasing, so none is repeated |
| DbIterators.ShownEntriesAreReads | sharkCollector/Pods/leveldb-library/db/db_iter.cc:35-46 | an entry shown is what a read of its key at the sequence number gives |
| DbIterators.ReadsAreShown | sharkCollector/Pods/leveldb-library/db/db_iter.cc:35-46 | every key with a value at the sequence number is shown |
| DbIterators.Drive | sharkCollector/Pods/leveldb-library/db/db_iter.cc:146-304 | after any sequence of calls, reversals included, the iterator stands where a plain cursor over the shown entries does |
| MergingIterators.RankCuts | sharkCollector/Pods/leveldb-library/table/merger.cc:59-112 | an entry of a child comes before a place of the merge exactly when its index is below the rank of that place, entries with a key in several children included |
| MergingIterators.SeekRanks | sharkCollector/Pods/leveldb-library/table/merger.cc:51-57 | seeking every child puts them all at the ranks of one place of the merged run |
| MergingIterators.PassRanks | sharkCollector/Pods/leveldb-library/table/merger.cc:66-76 | passing a key in every child puts them all at the ranks of the place behind it |
| MergingIterators.NextDiffers | sharkCollector/Pods/leveldb-library/table/merger.cc:66-76 | the place behind a key is the next one if and only if that has another key |
| MergingIterators.PrevDiffers | sharkCollector/Pods/leveldb-library/table/merger.cc:92-107 | and the place at a key is this one if and only if the one before has another |
| MergingIterators.CanBeMerged | sharkCollector/Pods/leveldb-library/table/merger.cc:16-25 | any sorted children have a merge: by key, and of equal keys that of the earlier child first |
| MergingIterators.MergingIterator.FindSmallest | sharkCollector/Pods/leveldb-library/table/merger.cc:155-168 | with all children at or after a place, picks the child that owns the entry there, the first of those with an equal key |
| MergingIterators.MergingIterator.FindLargest | sharkCollector/Pods/leveldb-library/table/merger.cc:170-183 | with all children before a place, picks the child that owns the entry before it, the last of those with an equal key |
| MergingIterators.MergingIterator.MoveOthersAfter | sharkCollector/Pods/leveldb-library/table/merger.cc:62-79 | turning forwards puts every other child behind the key |
| MergingIterators.MergingIterator.MoveOthersBefore | sharkCollector/Pods/leveldb-library/table/merger.cc:88-108 | turning backwards puts every other child before the key, or nowhere |
| MergingIterators.MergingIterator.Next | sharkCollector/Pods/leveldb-library/table/merger.cc:59-83 | going on forwards, one entry on in the merge; turning round, to the first entry behind the key |
| MergingIterators.MergingIterator.Prev | sharkCollector/Pods/leveldb-library/table/merger.cc:85-112 | going on backwards, one entry back in the merge; turning round, to the last entry before the key |
| MergingIterators.MergingIterator.Seek | sharkCollector/Pods/leveldb-library/table/merger.cc:51-57 | to the first entry of the merge at or after the target |
| MergingIterators.MergingIterator.SeekToFirst | sharkCollector/Pods/leveldb-library/table/merger.cc:35-41 | to the first entry of the merge |
| MergingIterators.MergingIterator.SeekToLast | sharkCollector/Pods/leveldb-library/table/merger.cc:43-49 | to the last entry of the merge |
| MergingIterators.MergingIterator.constructor | sharkCollector/Pods/leveldb-library/table/merger.cc:16-25 | the iterator starts nowhere, over any sorted children |
| IteratorRuns.DriveMerging | sharkCollector/Pods/leveldb-library/table/merger.cc:14-153 | after any sequence of calls the iterator is where the walk over the merge is, and its current child is at that entry |
| IteratorRuns.WalksAsOneExactly | sharkCollector/Pods/leveldb-library/table/merger.cc:59-112 | it moves as one iterator over the merge would, whatever the calls, if and only if no key is in two children |
| IteratorRuns.DriveBoth | sharkCollector/Pods/leveldb-library/db/db_impl.cc:1035-1060 | so over memtables and tables, which share no internal key, whoever drives it cannot tell it from one iterator over all entries |
| SkipLists.EmptyListInv | sharkCollector/Pods/leveldb-library/db/skiplist.h:323-335 | a new list is sorted, nested and complete on every level |
| SkipLists.MadeListInv | sharkCollector/Pods/leveldb-library/db/skiplist.h:323-370 | and so is every list that the writer makes from it |
| SkipLists.NewListRuns | sharkCollector/Pods/leveldb-library/db/skiplist.h:323-335 | a search may start on a new list |
| SkipLists.BeginKeepsInv | sharkCollector/Pods/leveldb-library/db/skiplist.h:337-360 | raising the height and making a node changes nothing a reader can see |
| SkipLists.CopyKeepsInv | sharkCollector/Pods/leveldb-library/db/skiplist.h:362-368 | storing the successor into the unpublished node keeps the list linked |
| SkipLists.PublishKeepsInv | sharkCollector/Pods/leveldb-library/db/skiplist.h:362-368 | publishing the node on a level keeps each level sorted and part of the one below |
| SkipLists.WriterStepKeepsInv | sharkCollector/Pods/leveldb-library/db/skiplist.h:337-370 | after every store of the writer all levels are sorted, each a sublist of the one below, and no node is lost |
| SkipLists.ReaderStepIsExact | sharkCollector/Pods/leveldb-library/db/skiplist.h:262-321 | a search that ends has the exact neighbours of its target at its last load: first at or after, last before, last of all |
| SkipLists.WriterKeepsReaderInv | sharkCollector/Pods/leveldb-library/db/skiplist.h:262-321 | a store of the writer disturbs no search under way |
| SkipLists.ReadsAreLinearizable | sharkCollector/Pods/leveldb-library/db/skiplist.h:262-370 | in every interleaving, what a search returns is exactly right for the list as it was at some moment of the search |
| SkipLists.ReadsMissNothing | sharkCollector/Pods/leveldb-library/db/skiplist.h:262-282 | a search finds a node no later than any at or after its target that was in the list when it began |
| SkipLists.FindGreaterOrEqual | sharkCollector/Pods/leveldb-library/db/skiplist.h:262-282 | the first node at or after the key, and the last node before it on each level |
| SkipLists.StartInsert | sharkCollector/Pods/leveldb-library/db/skiplist.h:337-360 | where the new node goes on every level, those above the old height included |
| SkipLists.LinkAt | sharkCollector/Pods/leveldb-library/db/skiplist.h:362-368 | two writer steps put the node on one more level and change no other |
| SkipLists.Insert | sharkCollector/Pods/leveldb-library/db/skiplist.h:337-370 | a run of writer steps after which the key is on exactly the levels below its height and all else is as before |
| BlockBuilders.CountShared | sharkCollector/Pods/leveldb-library/table/block_builder.cc:78-84 | the length of the longest common prefix |
| BlockBuilders.EncodeEntry | sharkCollector/Pods/leveldb-library/table/block_builder.cc:92-101 | the bytes of an entry |
| BlockBuilders.BlockBuilder.constructor | sharkCollector/Pods/leveldb-library/table/block_builder.cc:39-46 | an empty block with one restart point |
| BlockBuilders.BlockBuilder.Reset | sharkCollector/Pods/leveldb-library/table/block_builder.cc:48-55 | an empty block again |
| BlockBuilders.BlockBuilder.CurrentSizeEstimate | sharkCollector/Pods/leveldb-library/table/block_builder.cc:57-61 | exactly the size of the block that Finish gives |
| BlockBuilders.BlockBuilder.Add | sharkCollector/Pods/leveldb-library/table/block_builder.cc:73-107 | one more entry, with a restart after every interval and the longest shared prefix in between |
| BlockBuilders.BlockBuilder.Finish | sharkCollector/Pods/leveldb-library/table/block_builder.cc:63-71 | the bytes of the layout: entries, restart array, count |
| BlockBuilders.AddStep | sharkCollector/Pods/leveldb-library/table/block_builder.cc:73-107 | one more entry keeps the layout decodable, the restart points right and the last key known |
| BlockFormat.Layout.EntryAtOffset | sharkCollector/Pods/leveldb-library/table/block_builder.cc:5-27 | the bytes at the offset of entry i are those of entry i and then of the rest |
| BlockFormat.Layout.OffsetOrder | sharkCollector/Pods/leveldb-library/table/block_builder.cc:5-27 | offsets are in the order of the entries |
| BlockFormat.RestartAt | sharkCollector/Pods/leveldb-library/table/block_builder.cc:63-71 | each restart point is read back from its four bytes |
| BlockFormat.ParseVarint32RoundTrip | sharkCollector/Pods/leveldb-library/util/coding.cc:112-141 | a varint is read back, whatever follows |
| BlockFormat.ParseEntryRoundTrip | sharkCollector/Pods/leveldb-library/table/block.cc:53-75 | the header of an encoded entry is read back, whatever follows |
| BlockFormat.EntrySlices | sharkCollector/Pods/leveldb-library/table/block.cc:226-253 | key rest and value are where the header says |
| BlockIterators.DecodeHeader | sharkCollector/Pods/leveldb-library/table/block.cc:53-75 | the fast path for three small lengths gives what three varints do, on any bytes |
| BlockIterators.NewIterator | sharkCollector/Pods/leveldb-library/table/block.cc:256-266 | over any bytes: an iterator that stands nowhere if the trailer fits them, corruption if it does not, nothing if there is no restart; and over the bytes of any layout an iterator that holds that layout |
| BlockIterators.Iter.constructor | sharkCollector/Pods/leveldb-library/table/block.cc:112-124 | the iterator stands nowhere, over any bytes whose trailer fits them |
| BlockIterators.Iter.GetRestartPoint | sharkCollector/Pods/leveldb-library/table/block.cc:99-102 | the offset of a restart |
| BlockIterators.Iter.SeekToRestartPoint | sharkCollector/Pods/leveldb-library/table/block.cc:104-110 | poised just before the offset of that restart, with no key, the status as it was |
| BlockIterators.Iter.ParseNextKey | sharkCollector/Pods/leveldb-library/table/block.cc:226-253 | over any bytes goes where the specified parse does: an entry, past the end, or a failure that leaves it nowhere; it stands at an entry exactly if it says so, with the value inside the entries and a restart that is there |
| BlockIterators.Iter.Next | sharkCollector/Pods/leveldb-library/table/block.cc:139-142 | over any bytes as ParseNextKey; in whatever layout it stands at an entry of, it goes to the one after it |
| BlockIterators.Iter.Prev | sharkCollector/Pods/leveldb-library/table/block.cc:144-163 | over any bytes back to a restart point that is before the entry and then forwards; in whatever layout it stands at an entry of, it goes to the exact predecessor, from the first to nowhere |
| BlockIterators.Iter.Seek | sharkCollector/Pods/leveldb-library/table/block.cc:165-203 | over any bytes it ends at an entry at or after the target, or nowhere; over a layout with strictly increasing keys, at the first such entry, whatever the spacing of restarts |
| BlockIterators.Iter.FindRestart | sharkCollector/Pods/leveldb-library/table/block.cc:168-192 | over any bytes ends where the specified search does, or stops at the first key on its way that cannot be read or shares a prefix |
| BlockIterators.Iter.SeekToFirst | sharkCollector/Pods/leveldb-library/table/block.cc:205-208 | over any bytes to what is parsed at the first restart; over a layout to the first entry |
| BlockIterators.Iter.SeekToLast | sharkCollector/Pods/leveldb-library/table/block.cc:210-215 | over any bytes on from the last restart to an entry that ends at the restart array; over a layout to the last entry |
| BlockCursors.OpenBuilt | sharkCollector/Pods/leveldb-library/table/block.cc:23-38 | the trailer of a built block gives its restart array |
| BlockCursors.BisectFinds | sharkCollector/Pods/leveldb-library/table/block.cc:168-192 | over any bytes the restart found is the first one or has a key before the target, and the search stops only at a restart it looked at whose key cannot be read |
| BlockCursors.SoughtIsProper | sharkCollector/Pods/leveldb-library/table/block.cc:165-203 | over any bytes and from any place, a seek ends nowhere or at an entry that is not before the target and lies inside the entries |
| BlockCursors.PreviousIsProper | sharkCollector/Pods/leveldb-library/table/block.cc:144-163 | over any bytes going back ends nowhere or at an entry that lies inside the entries, with a restart that is there |
| BlockCursors.NothingIsSkipped | sharkCollector/Pods/leveldb-library/table/block.cc:226-253 | reading any bytes forwards, each entry begins where the one before ends; unless it ends in a failure it has taken in every byte up to the restart array |
| BuiltBlocks.OpensAsBuilt | sharkCollector/Pods/leveldb-library/table/block.cc:23-38 | the bytes of any layout open as that layout: its restart points are the offsets of the entries that restart, and at the offset of each entry its header is parsed |
| BuiltBlocks.RestartPointsAreOffsets | sharkCollector/Pods/leveldb-library/table/block.cc:99-102 | restart points are the offsets of the entries that restart |
| BuiltBlocks.ParseBuilt | sharkCollector/Pods/leveldb-library/table/block.cc:226-253 | in a built block, parsing from just before entry i gives entry i: its key from the shared prefix, its value, and the restart it falls under |
| BuiltBlocks.NextBuilt | sharkCollector/Pods/leveldb-library/table/block.cc:139-142 | from an entry to the one after it |
| BuiltBlocks.PreviousBuilt | sharkCollector/Pods/leveldb-library/table/block.cc:144-163 | from an entry to the one before it, from the first to nowhere |
| BuiltBlocks.FirstBuilt | sharkCollector/Pods/leveldb-library/table/block.cc:205-208 | to the first entry |
| BuiltBlocks.LastBuilt | sharkCollector/Pods/leveldb-library/table/block.cc:210-215 | to the last entry |
| BuiltBlocks.BisectOver | sharkCollector/Pods/leveldb-library/table/block.cc:168-192 | the binary search reads every key it looks at and ends at a restart before which every key is less than the target |
| BuiltBlocks.SoughtBuilt | sharkCollector/Pods/leveldb-library/table/block.cc:165-203 | to the first entry at or after the target, for strictly increasing keys and any restart spacing |
| BuiltBlocks.StandingIsAt | sharkCollector/Pods/leveldb-library/table/block.cc:128-129 | the offset says exactly whether there is a current entry |
| Coding.FixedRoundTrip | sharkCollector/Pods/leveldb-library/util/coding.h:58-86 | a fixed-width integer is read back from its little-endian bytes |
| Coding.VarintRoundTrip | sharkCollector/Pods/leveldb-library/util/coding.cc:81-90 | a varint is read back in as many bytes as it takes, whatever follows |
| Coding.EncodeVarint32 | sharkCollector/Pods/leveldb-library/util/coding.cc:47-73 | the unrolled encoder writes the varint |
| Coding.EncodeVarint64 | sharkCollector/Pods/leveldb-library/util/coding.cc:81-90 | so does the looping one |
| Coding.GetVarint | sharkCollector/Pods/leveldb-library/util/coding.cc:112-158 | on any bytes: the value modulo the width, and how many bytes it took, or a failure when too many bytes say that more follow |
| LogFormat.UnmaskUndoesMask | sharkCollector/Pods/leveldb-library/util/crc32c.h:31-41 | masking a checksum in 32 bits can be undone |
| LogFormat.Start | sharkCollector/Pods/leveldb-library/db/log_writer.cc:33-50 | a fragment starts where its header fits into the block, at most six bytes on |
| LogFormat.Split | sharkCollector/Pods/leveldb-library/db/log_writer.cc:34-72 | the fragments of a record are at least one and each stays inside a block |
| LogFormat.LayOutLength | sharkCollector/Pods/leveldb-library/db/log_writer.cc:75-100 | the length of what is laid out |
| LogFormat.LayOutConcat | sharkCollector/Pods/leveldb-library/db/log_writer.cc:75-100 | laying out two lists of fragments is laying out the one after the other |
| LogWriters.Writer.constructor | sharkCollector/Pods/leveldb-library/db/log_writer.cc:15-22 | a writer at the front of an empty file |
| LogWriters.Writer.SwitchBlock | sharkCollector/Pods/leveldb-library/db/log_writer.cc:35-50 | fills a trailer too small for a header with zeros |
| LogWriters.Writer.EmitPhysicalRecord | sharkCollector/Pods/leveldb-library/db/log_writer.cc:75-100 | appends the header and the payload of a fragment |
| LogWriters.Writer.AddRecord | sharkCollector/Pods/leveldb-library/db/log_writer.cc:27-73 | appends the layout of the record's fragments, with first, middle, last and full where they belong |
| LogWriters.AddAll | sharkCollector/Pods/leveldb-library/db/log_writer.cc:27-73 | the file after any records is the log of them |
| LogReaders.Reader.ReadPhysicalRecord | sharkCollector/Pods/leveldb-library/db/log_reader.cc:181-263 | on any bytes: the next fragment, or what is wrong, and all that is reported as dropped |
| LogReaders.Reader.ReadRecord | sharkCollector/Pods/leveldb-library/db/log_reader.cc:59-164 | on any bytes: the next record put together from fragments, and every report of what is dropped on the way |
| LogReaders.Reader.AddFragment | sharkCollector/Pods/leveldb-library/db/log_reader.cc:89-160 | what one fragment does to the record under way |
| LogRecovery.FragmentIsReadable | sharkCollector/Pods/leveldb-library/db/log_reader.cc:205-263 | the bytes of a fragment give back its length, kind, payload and checksum |
| LogRecovery.PhysicalReadsNext | sharkCollector/Pods/leveldb-library/db/log_reader.cc:181-263 | in any prefix of a log, a physical read gives the next fragment if it is whole and else the end of the file, and reports nothing |
| LogRecovery.LogicalReadsRecord | sharkCollector/Pods/leveldb-library/db/log_reader.cc:59-164 | and a logical read the next record if its last fragment is whole |
| LogRecovery.CrashLosesOnlyTheTail | sharkCollector/Pods/leveldb-library/db/log_reader.cc:59-164 | reading any byte prefix of a log gives exactly the records whose last fragment is complete, in order, and reports no corruption |
| LogRecovery.LogRoundTrip | sharkCollector/Pods/leveldb-library/db/log_reader.cc:59-164 | reading what was written gives the same records and reports nothing |
| Recoveries.RecoverLogFile | sharkCollector/Pods/leveldb-library/db/db_impl.cc:362-451 | a log of any bytes is replayed record by record, what is too small passed over and what is corrupt cut short |
| Recoveries.InsertRecord | sharkCollector/Pods/leveldb-library/db/db_impl.cc:409-432 | one record of any bytes: its updates under numbers that follow one another, and the largest number |
| Recoveries.LastOfBatch | sharkCollector/Pods/leveldb-library/db/db_impl.cc:427-429 | the last number, for which the count is taken as a signed 32-bit integer, is right exactly when the count is less than 2^31 |
| Recoveries.ReplayIsNumbered | sharkCollector/Pods/leveldb-library/db/db_impl.cc:409-432 | replaying contiguous groups gives their updates numbered without gaps, and the last number |
| Recoveries.GroupsSurvive | sharkCollector/Pods/leveldb-library/db/db_impl.cc:362-451 | replaying a log cut at any byte gives the batches of its first k groups |
| Recoveries.WholeGroupsSurvive | sharkCollector/Pods/leveldb-library/db/db_impl.cc:1162-1235 | at every moment of every interleaving of writers, a crash leaves the batches of whole groups from the first on, and numbering goes on from there |
| Recoveries.SyncedWriteSurvives | sharkCollector/Pods/leveldb-library/db/db_impl.cc:1188-1210 | a writer that asked for a sync and has returned finds its batch again after any crash, under the numbers it had |
| Recoveries.FirstEditsSurvive | sharkCollector/Pods/leveldb-library/db/version_set.cc:896-1009 | a manifest cut at any byte is that of its first k edits, from which recovery works |
| Comparators.LessIsTotal | sharkCollector/Pods/leveldb-library/util/comparator.cc:25-27 | the bytewise order is total and strict |
| Comparators.LessIsTransitive | sharkCollector/Pods/leveldb-library/util/comparator.cc:25-27 | and transitive |
| Comparators.LessAtDifference | sharkCollector/Pods/leveldb-library/util/comparator.cc:25-27 | the first byte in which two strings differ decides |
| Comparators.FindShortestSeparator | sharkCollector/Pods/leveldb-library/util/comparator.cc:29-51 | changes the string exactly when there is room for a byte where the two first differ, and then to a shortest string of all between them |
| Comparators.FindShortSuccessor | sharkCollector/Pods/leveldb-library/util/comparator.cc:53-66 | a shortest string of all after the key; only a run of 0xff is left alone |
| Comparators.FindShortestInternalSeparator | sharkCollector/Pods/leveldb-library/db/dbformat.cc:68-85 | changes the key exactly when a shorter user key is found, which is then between the two, a shortest one, with the number that sorts before all others |
| Comparators.FindShortInternalSuccessor | sharkCollector/Pods/leveldb-library/db/dbformat.cc:87-99 | changes the key exactly when there is a shorter user key after it |
| Comparators.IBeforeIsTotal | sharkCollector/Pods/leveldb-library/db/dbformat.cc:50-66 | the order on internal keys is total and strict |
| Comparators.IBeforeIsTransitive | sharkCollector/Pods/leveldb-library/db/dbformat.cc:50-66 | and transitive |
| KeyOrders.SameOrder | sharkCollector/Pods/leveldb-library/db/dbformat.cc:50-66 | keys of tables with their packed trailers are ordered as keys of the store are by user key, number and kind |
| BloomFilters.NextProbe | sharkCollector/Pods/leveldb-library/util/bloom.cc:52-59 | adding the rotated hash in 32 bits gives the next probe |
| BloomFilters.BloomFilterPolicy.AddKey | sharkCollector/Pods/leveldb-library/util/bloom.cc:51-60 | sets the bits of the key and clears none |
| BloomFilters.BloomFilterPolicy.CreateFilter | sharkCollector/Pods/leveldb-library/util/bloom.cc:35-61 | what is appended may match every key, the filter of no keys included |
| BloomFilters.BloomFilterPolicy.KeyMayMatch | sharkCollector/Pods/leveldb-library/util/bloom.cc:63-87 | on any bytes: true exactly when all probed bits are set, or the number of probes is reserved; never on less than two bytes |
| FilterBlocks.FilterBlockBuilder.StartBlock | sharkCollector/Pods/leveldb-library/table/filter_block.cc:22-28 | one filter for the keys so far and empty ones up to the 2KB of the block |
| FilterBlocks.FilterBlockBuilder.AddKey | sharkCollector/Pods/leveldb-library/table/filter_block.cc:30-34 | one more key of the current block |
| FilterBlocks.FilterBlockBuilder.GenerateFilter | sharkCollector/Pods/leveldb-library/table/filter_block.cc:52-77 | a filter that may match each pending key |
| FilterBlocks.FilterBlockBuilder.Finish | sharkCollector/Pods/leveldb-library/table/filter_block.cc:36-50 | filters, offsets, where those start, and the base |
| FilterBlocks.FilterBlockReader.KeyMayMatch | sharkCollector/Pods/leveldb-library/table/filter_block.cc:95-109 | on any bytes: which filter is asked, and what is said where there is none; a stored base of 64 or more, a shift that the source leaves undefined, is taken to lead to the first filter |
| FilterBlocks.NoKeyIsLost | sharkCollector/Pods/leveldb-library/table/filter_block.cc:95-109 | the filter found for the offset of a block may match every key added for its 2KB |
| Tables.TableBuilder.constructor | sharkCollector/Pods/leveldb-library/table/table_builder.cc:63-68 | an empty table |
| Tables.TableBuilder.Add | sharkCollector/Pods/leveldb-library/table/table_builder.cc:92-121 | one more entry at the end; the index key of the block before is at least its last key and before the new one |
| Tables.TableBuilder.Flush | sharkCollector/Pods/leveldb-library/table/table_builder.cc:123-137 | the entries stay; the finished block waits for its index key |
| Tables.TableBuilder.Finish | sharkCollector/Pods/leveldb-library/table/table_builder.cc:199-254 | a table whose blocks hold exactly what was added, whose index keys separate them and whose filter matches every user key |
| Tables.AddKeepsOrder | sharkCollector/Pods/leveldb-library/table/table_builder.cc:92-121 | last(block i) <= index key i < first(block i+1) is kept by adding an entry |
| Tables.FinishKeepsOrder | sharkCollector/Pods/leveldb-library/table/table_builder.cc:218-232 | and by the last index key |
| Tables.FlushKeepsFilter | sharkCollector/Pods/leveldb-library/table/table_builder.cc:133-136 | what filters know of a block they still know when the next block starts |
| Tables.FilterKnowsAll | sharkCollector/Pods/leveldb-library/table/table_builder.cc:202-216 | a finished filter block matches every user key of every block |
| Tables.InternalGet | sharkCollector/Pods/leveldb-library/table/table.cc:226-255 | what is passed on is never anything but the first stored entry at or after the key, and is that entry whenever it has the key's user key |
| Tables.NoMatchMeansOtherUserKey | sharkCollector/Pods/leveldb-library/table/table.cc:232-239 | a filter that does not match shows that no entry of the block has the user key |
| Tables.BlocksBefore | sharkCollector/Pods/leveldb-library/table/table.cc:229-231 | blocks whose index key is before the key hold nothing at or after it |
| Tables.OnlyInBlock | sharkCollector/Pods/leveldb-library/table/table.cc:229-247 | the first entry at or after the key is in the block the index leads to, if it has the key's user key |
| BlockSeeks.FirstAmongBytes | sharkCollector/Pods/leveldb-library/db/dbformat.cc:50-66 | under a comparator that orders encoded internal keys as the keys are, the first entry at or after a key is the same place among the bytes and among the keys |
| BlockSeeks.Seek | sharkCollector/Pods/leveldb-library/table/block.cc:165-203 | the iterator over the bytes of a block finds, by its restart points, the place that a search of the list of keys finds |
| BlockSeeks.FirstKeyIsOne | sharkCollector/Pods/leveldb-library/table/block.cc:165-203 | there is one such place, so the two searches end at the same |
| BlockSeeks.FirstInBlock | sharkCollector/Pods/leveldb-library/table/table.cc:226-250 | which is where the search of a data block in a table lookup ends |
| BlockSeeks.EncodeKeyIsInjective | sharkCollector/Pods/leveldb-library/db/dbformat.cc:18-21 | keys that are encoded alike are the same |
| TwoLevelIterators.TwoLevelIterator.constructor | sharkCollector/Pods/leveldb-library/table/two_level_iterator.cc:76-86 | the iterator starts nowhere |
| TwoLevelIterators.TwoLevelIterator.WhereItIs | sharkCollector/Pods/leveldb-library/table/two_level_iterator.cc:35-46 | the iterator is valid exactly when it stands at an entry of the concatenation, and that is the data iterator's |
| TwoLevelIterators.TwoLevelIterator.Seek | sharkCollector/Pods/leveldb-library/table/two_level_iterator.cc:91-96 | to the first entry of the concatenation at or after the key, also where the block the index leads to has none |
| TwoLevelIterators.TwoLevelIterator.SeekToFirst | sharkCollector/Pods/leveldb-library/table/two_level_iterator.cc:98-103 | to the first entry of the concatenation |
| TwoLevelIterators.TwoLevelIterator.SeekToLast | sharkCollector/Pods/leveldb-library/table/two_level_iterator.cc:105-110 | to the last entry of the concatenation |
| TwoLevelIterators.TwoLevelIterator.Next | sharkCollector/Pods/leveldb-library/table/two_level_iterator.cc:112-116 | to the next entry of the concatenation |
| TwoLevelIterators.TwoLevelIterator.Prev | sharkCollector/Pods/leveldb-library/table/two_level_iterator.cc:118-122 | to the previous entry of the concatenation |
| TwoLevelIterators.TwoLevelIterator.SkipEmptyDataBlocksForward | sharkCollector/Pods/leveldb-library/table/two_level_iterator.cc:125-136 | passes over empty blocks to the same place of the concatenation |
| TwoLevelIterators.TwoLevelIterator.SkipEmptyDataBlocksBackward | sharkCollector/Pods/leveldb-library/table/two_level_iterator.cc:138-149 | passes over empty blocks to the place before |
| TwoLevelIterators.TwoLevelIterator.InitDataBlock | sharkCollector/Pods/leveldb-library/table/two_level_iterator.cc:156-172 | the data iterator is over the block the index is at, and stays where it is if it was already |
| TwoLevelIterators.SeekIsExact | sharkCollector/Pods/leveldb-library/table/two_level_iterator.cc:91-96 | the place an index key and a block lead to is the first at or after the key |
| IteratorRuns.DriveTwoLevel | sharkCollector/Pods/leveldb-library/table/two_level_iterator.cc:18-157 | after any sequence of calls the iterator is where one over the concatenation of the blocks is, at its entry |
| HandleTables.HandleTable.constructor | sharkCollector/Pods/leveldb-library/util/cache.cc:55-55 | an empty table |
| HandleTables.HandleTable.FindPointer | sharkCollector/Pods/leveldb-library/util/cache.cc:98-105 | where a handle for the key and hash is in its chain, or the end of the chain |
| HandleTables.HandleTable.Lookup | sharkCollector/Pods/leveldb-library/util/cache.cc:58-60 | a handle for the key and hash, or none when there is none |
| HandleTables.HandleTable.Insert | sharkCollector/Pods/leveldb-library/util/cache.cc:62-76 | the handle is in, and any other for its key and hash is out and returned |
| HandleTables.HandleTable.Remove | sharkCollector/Pods/leveldb-library/util/cache.cc:78-86 | the handle for the key and hash is out, all others stay |
| HandleTables.HandleTable.Resize | sharkCollector/Pods/leveldb-library/util/cache.cc:107-131 | the contents stay the same, every handle in its new bucket, at most one a bucket on average |
| LruCaches.UnrefKeeps | sharkCollector/Pods/leveldb-library/util/cache.cc:186-194 | dropping a reference keeps the counts, the usage and that each deleter runs once |
| LruCaches.DropKeeps | sharkCollector/Pods/leveldb-library/util/cache.cc:196-199 | so does taking a handle out of the list |
| LruCaches.AppendedKeeps | sharkCollector/Pods/leveldb-library/util/cache.cc:225-240 | and a new entry with two references |
| LruCaches.EnteredKeeps | sharkCollector/Pods/leveldb-library/util/cache.cc:241-246 | and putting it in the place of another for its key |
| LruCaches.LookedKeeps | sharkCollector/Pods/leveldb-library/util/cache.cc:209-218 | a lookup keeps the invariant: references are list membership plus handles given out, usage the sum of charges of what is not freed |
| LruCaches.ReleasedKeeps | sharkCollector/Pods/leveldb-library/util/cache.cc:220-223 | so does a release |
| LruCaches.ErasedKeeps | sharkCollector/Pods/leveldb-library/util/cache.cc:258-265 | an erasure |
| LruCaches.InsertedKeeps | sharkCollector/Pods/leveldb-library/util/cache.cc:225-256 | and an insertion with its evictions |
| LruCaches.EvictsOldest | sharkCollector/Pods/leveldb-library/util/cache.cc:248-253 | evictions take the oldest handles, and only while too much is in use |
| LruCaches.LRUCache.constructor | sharkCollector/Pods/leveldb-library/util/cache.cc:170-175 | an empty cache, with nothing in use and nothing given out |
| LruCaches.LRUCache.Lookup | sharkCollector/Pods/leveldb-library/util/cache.cc:209-218 | the handle for the key, or none; it becomes the newest and has one reference more |
| LruCaches.LRUCache.Release | sharkCollector/Pods/leveldb-library/util/cache.cc:220-223 | one reference less, and freed at zero |
| LruCaches.LRUCache.Insert | sharkCollector/Pods/leveldb-library/util/cache.cc:225-256 | the whole new state: the entry newest, any other for the key out, the oldest out until usage fits or the list is empty |
| LruCaches.LRUCache.Erase | sharkCollector/Pods/leveldb-library/util/cache.cc:258-265 | the entry for the key is out of the list and the table |
| LruRuns.InUseHasEntry | sharkCollector/Pods/leveldb-library/util/cache.cc:186-195 | a handle is in use, listed or held by a client, exactly while it has an entry and is not freed |
| LruRuns.UsageIs | sharkCollector/Pods/leveldb-library/util/cache.cc:186-195 | and the usage is what the handles in use were charged |
| LruRuns.LookedMatches | sharkCollector/Pods/leveldb-library/util/cache.cc:209-218 | a lookup does what moving the item to the end of a plain list does, and gives out the same handle |
| LruRuns.EvictMatches | sharkCollector/Pods/leveldb-library/util/cache.cc:248-254 | eviction drops what the plain list drops from its front while more is in use than fits |
| LruRuns.InsertedMatches | sharkCollector/Pods/leveldb-library/util/cache.cc:225-256 | an insertion with its evictions does to the cache what it does to the plain list |
| LruRuns.Drive | sharkCollector/Pods/leveldb-library/util/cache.cc:135-265 | after any sequence of lookups, insertions, releases and erasures the cache holds what the plain list holds in the same order, has given out the same handles, is charged for what is in use, and has run the deleter once for just what is not |
| GroupCommit.BuildBatchGroup | sharkCollector/Pods/leveldb-library/db/db_impl.cc:1237-1282 | the batches of the front of the queue up to the last writer of the group, whose size is bounded and which holds no sync writer unless the leader is one |
| GroupCommit.GroupSyncs | sharkCollector/Pods/leveldb-library/db/db_impl.cc:1237-1282 | no sync writer is carried by a leader that does not sync |
| GroupCommit.ArriveKeeps | sharkCollector/Pods/leveldb-library/db/db_impl.cc:1162-1170 | a writer joining the queue, at any moment, keeps the invariant |
| GroupCommit.BeginKeeps | sharkCollector/Pods/leveldb-library/db/db_impl.cc:1178-1186 | so does the leader taking its group |
| GroupCommit.LogKeeps | sharkCollector/Pods/leveldb-library/db/db_impl.cc:1188-1196 | logging it as one record |
| GroupCommit.SyncKeeps | sharkCollector/Pods/leveldb-library/db/db_impl.cc:1196-1200 | syncing the log |
| GroupCommit.ApplyKeeps | sharkCollector/Pods/leveldb-library/db/db_impl.cc:1200-1203 | applying one update to the memtable |
| GroupCommit.FinishKeeps | sharkCollector/Pods/leveldb-library/db/db_impl.cc:1204-1232 | and letting the writers of the group return |
| GroupCommit.StepKeepsInv | sharkCollector/Pods/leveldb-library/db/db_impl.cc:1162-1235 | every step keeps the invariant |
| GroupCommit.RunKeepsInv | sharkCollector/Pods/leveldb-library/db/db_impl.cc:1162-1235 | which holds at every moment of every interleaving |
| GroupCommit.ReadersSeeWholeBatches | sharkCollector/Pods/leveldb-library/db/db_impl.cc:1162-1235 | a read at the last sequence number sees exactly the batches of the writers that have returned, in order, numbered without gaps, so whole groups only; the log holds these and at most one group more |
| GroupCommit.WriterIsServed | sharkCollector/Pods/leveldb-library/db/db_impl.cc:1162-1235 | a writer that has returned finds its batch in one record of the log, synced if it asked for that, and in the memtable under numbers of its own |
| WriteBatches.WriteBatch.constructor | sharkCollector/Pods/leveldb-library/db/write_batch.cc:29-40 | an empty batch |
| WriteBatches.WriteBatch.Count | sharkCollector/Pods/leveldb-library/db/write_batch.cc:82-84 | the number of updates |
| WriteBatches.WriteBatch.Sequence | sharkCollector/Pods/leveldb-library/db/write_batch.cc:90-92 | the sequence number |
| WriteBatches.WriteBatch.SetSequence | sharkCollector/Pods/leveldb-library/db/write_batch.cc:94-96 | changes the number and no update |
| WriteBatches.WriteBatch.PutKey | sharkCollector/Pods/leveldb-library/db/write_batch.cc:98-103 | one more update, the count with it |
| WriteBatches.WriteBatch.DeleteKey | sharkCollector/Pods/leveldb-library/db/write_batch.cc:105-109 | one more deletion |
| WriteBatches.WriteBatch.Append | sharkCollector/Pods/leveldb-library/db/write_batch.cc:141-145 | all updates of another batch after those of this one |
| WriteBatches.Iterate | sharkCollector/Pods/leveldb-library/db/write_batch.cc:42-80 | on any bytes: the updates up to what is wrong, in order, and what is wrong |
| WriteBatches.OpsRoundTrip | sharkCollector/Pods/leveldb-library/db/write_batch.cc:42-80 | the updates of a batch are read back |
| WriteBatches.HeaderIs | sharkCollector/Pods/leveldb-library/db/write_batch.cc:82-96 | so are its number and count |
| WriteBatches.InsertInto | sharkCollector/Pods/leveldb-library/db/write_batch.cc:112-134 | every update of a batch is inserted once, under numbers that follow one another |
| VersionEdits.EncodeTo | sharkCollector/Pods/leveldb-library/db/version_edit.cc:41-86 | the items of an edit in a fixed order |
| VersionEdits.DecodeFrom | sharkCollector/Pods/leveldb-library/db/version_edit.cc:109-210 | on any bytes: the edit or what is wrong; compaction pointers already there are kept |
| VersionEdits.ItemRoundTrip | sharkCollector/Pods/leveldb-library/db/version_edit.cc:109-210 | an item of any kind is read back, whatever follows |
| VersionEdits.EditRoundTrip | sharkCollector/Pods/leveldb-library/db/version_edit.cc:41-210 | decoding an encoded edit gives it back |
| Manifests.SortedIsUnique | sharkCollector/Pods/leveldb-library/db/version_set.cc:597-611 | a level sorted by smallest key and number is known by its files |
| Manifests.ApplyIsUpdate | sharkCollector/Pods/leveldb-library/db/version_set.cc:656-700 | giving the builder one edit more is one set update more |
| Manifests.BuilderIsUpdates | sharkCollector/Pods/leveldb-library/db/version_set.cc:656-700 | a builder given any edits leaves what the edits make of the base one at a time, provided no file number comes back to a level it left |
| Manifests.ApplyIsUpdateExactly | sharkCollector/Pods/leveldb-library/db/version_set.cc:656-700 | for any edit: it does to what the builder leaves what it does to a set if and only if, adding a number again, it revives no other file that the builder has met under it, and no added file finds its place taken |
| Manifests.KeepsUpExactly | sharkCollector/Pods/leveldb-library/db/version_set.cc:656-700 | so over any edits the builder keeps up with them, at every point, if and only if it takes in each of them like this |
| Manifests.AsItWasIsTakenIn | sharkCollector/Pods/leveldb-library/db/version_set.cc:656-700 | files that come under new numbers, or come back as they were, are taken in |
| Manifests.ReplacedComesBack | sharkCollector/Pods/leveldb-library/db/version_set.cc:696-697 | a file replaced by another under its number comes back with it |
| Manifests.UpperBound | sharkCollector/Pods/leveldb-library/db/version_set.cc:716-724 | the first file that an added one goes before |
| Manifests.SaveTo | sharkCollector/Pods/leveldb-library/db/version_set.cc:702-762 | the merge is sorted and holds exactly base and added files without the deleted ones |
| VersionSets.MakesOne | sharkCollector/Pods/leveldb-library/db/version_set.cc:896-1009 | edits make at most one version |
| VersionSets.ApplyEdit | sharkCollector/Pods/leveldb-library/db/version_set.cc:656-700 | an edit goes to the builder of each level |
| VersionSets.SaveAll | sharkCollector/Pods/leveldb-library/db/version_set.cc:702-748 | every level is saved |
| VersionSets.Recover | sharkCollector/Pods/leveldb-library/db/version_set.cc:896-1009 | over the records of any readable edits: the counters that the edits give, and the version that one builder makes of them all; if no number comes back, what they make one at a time |
| VersionSets.VersionSet.constructor | sharkCollector/Pods/leveldb-library/db/version_set.cc:767-785 | an empty version and no manifest |
| VersionSets.VersionSet.LogAndApply | sharkCollector/Pods/leveldb-library/db/version_set.cc:811-894 | the edit, completed with the counters, is logged, after a snapshot if the manifest is new, and becomes current; a manifest that is that of the version stays so if and only if the builder of its edits takes this one in |
| VersionSets.VersionSet.WriteSnapshot | sharkCollector/Pods/leveldb-library/db/version_set.cc:1054-1082 | one record with the comparator, the pointers and all files |
| VersionSets.VersionSet.Reopen | sharkCollector/Pods/leveldb-library/db/version_set.cc:896-1009 | recovering from what has been logged gives the current pointers and counters, and the current version if and only if the manifest is that of it |
| VersionSets.SnapshotRebuilds | sharkCollector/Pods/leveldb-library/db/version_set.cc:1054-1082 | a manifest that is a snapshot is that of the version it was taken of |
| VersionSets.RebuildsOneMoreExactly | sharkCollector/Pods/leveldb-library/db/version_set.cc:811-894 | with one more edit the manifest is that of the updated version if and only if the builder takes it in on every level |
| VersionSets.FreshIsTakenIn | sharkCollector/Pods/leveldb-library/db/version_set.h:189-191 | as it does when file numbers are given once |
| PbSchema.DefaultsAreSound | sharkCollector/Pods/nanopb/pb_decode.c:763-846 | the defaults of a struct have its shape and fit in it |
| PbWire.UnZigZagUndoesZigZag | sharkCollector/Pods/nanopb/pb_decode.c:1118-1130 | zig-zag is undone for every 64-bit integer |
| PbWire.IntRoundTrip | sharkCollector/Pods/nanopb/pb_decode.c:1165-1248 | an integer is stored as it was, at every width, signed, unsigned or zig-zag |
| PbWire.TagRoundTrip | sharkCollector/Pods/nanopb/pb_decode.c:251-275 | a tag and wire type are read back, whatever follows |
| PbWire.SkipsUnknown | sharkCollector/Pods/nanopb/pb_decode.c:277-290 | an unknown field of any wire type is skipped, and no more than it |
| PbParsing.StoreKeepsShape | sharkCollector/Pods/nanopb/pb_decode.c:402-420 | storing a member of a union unsets the others and keeps the struct sound |
| PbParsing.ParseBlob | sharkCollector/Pods/nanopb/pb_decode.c:1262-1332 | on any bytes: what is stored fits, a string with room for its NUL |
| PbParsing.ParseItems | sharkCollector/Pods/nanopb/pb_decode.c:370-400 | on any bytes: no more items than the array holds |
| PbParsing.ParseFields | sharkCollector/Pods/nanopb/pb_decode.c:852-953 | on any bytes: the struct stays sound |
| PbParsing.ParseMessage | sharkCollector/Pods/nanopb/pb_decode.c:852-953 | on any bytes: what is decoded fits in the struct |
| PbRoundTrip.ScalarComesBack | sharkCollector/Pods/nanopb/pb_decode.c:1165-1379 | a scalar of any type is read back, whatever follows |
| PbRoundTrip.PackedComesBack | sharkCollector/Pods/nanopb/pb_decode.c:370-400 | so are the items of a packed array |
| PbRoundTrip.FieldComesBack | sharkCollector/Pods/nanopb/pb_decode.c:356-429 | decoding what is written of a field takes the struct one field further |
| PbRoundTrip.MessageComesBack | sharkCollector/Pods/nanopb/pb_decode.c:852-953 | decoding what is written of a message, unknown fields in between included, gives it back |
| PbRoundTrip.ComesBackExactlyWhenItFits | sharkCollector/Pods/nanopb/pb_encode.c:451-473 | for every descriptor tree of static fields and every message of its shape: decoding its encoding gives it back up to absent fields and consumes exactly those bytes, if and only if its arrays, byte strings and strings with their NULs fit |
| PbRoundTrip.ComesBackAmongUnknownFields | sharkCollector/Pods/nanopb/pb_decode.c:886-909 | also with any unknown fields before any record and at the end of any message, nested ones included |
| PbFieldIters.FieldIter.constructor | sharkCollector/Pods/nanopb/pb_common.c:8-18 | at the first field |
| PbFieldIters.FieldIter.Next | sharkCollector/Pods/nanopb/pb_common.c:20-76 | to the next field, or round to the first, with the index among required fields kept right |
| PbFieldIters.FieldIter.Find | sharkCollector/Pods/nanopb/pb_common.c:78-97 | from anywhere, to the field with the tag; back where it was when there is none |
| PbEncoders.OStream.Write | sharkCollector/Pods/nanopb/pb_encode.c:91-109 | writes all or nothing, and counts; a sizing stream only counts |
| PbEncoders.OStream.EncodeVarint | sharkCollector/Pods/nanopb/pb_encode.c:494-514 | writes the varint if there is room |
| PbEncoders.OStream.EncodeTag | sharkCollector/Pods/nanopb/pb_encode.c:553-557 | writes tag and wire type |
| PbEncoders.OStream.EncodeString | sharkCollector/Pods/nanopb/pb_encode.c:592-598 | writes a length and that many bytes |
| PbEncoders.EncodeScalar | sharkCollector/Pods/nanopb/pb_encode.c:652-763 | succeeds exactly when the value is within its bounds and there is room, and then has written its bytes |
| PbEncoders.EncodeSubmessage | sharkCollector/Pods/nanopb/pb_encode.c:600-648 | the two passes agree: the size found first is the size written, so encoding fails only for lack of room or a value out of bounds |
| PbEncoders.PackedSize | sharkCollector/Pods/nanopb/pb_encode.c:135-157 | the size computed for a packed array is that of its bytes |
| PbEncoders.EncodeArray | sharkCollector/Pods/nanopb/pb_encode.c:116-201 | packed or not, succeeds exactly when the count is within bounds and there is room |
| PbEncoders.EncodeField | sharkCollector/Pods/nanopb/pb_encode.c:271-346 | a field is written or left out as its rule says |
| PbEncoders.EncodeMessage | sharkCollector/Pods/nanopb/pb_encode.c:451-473 | succeeds exactly when everything is within bounds and the stream has room for the whole message, and then has written its bytes |
| PbEncoders.GetEncodedSize | sharkCollector/Pods/nanopb/pb_encode.c:480-491 | the size of a message at any nesting depth is the number of bytes encoding writes |
| PbEncoders.EncodeToBuffer | sharkCollector/Pods/nanopb/pb_encode.c:74-88 | encoding into a buffer succeeds exactly when that size fits |
| PbDecoders.IStream.Read | sharkCollector/Pods/nanopb/pb_decode.c:91-125 | takes bytes off the front, or fails and leaves the stream |
| PbDecoders.IStream.DecodeVarint | sharkCollector/Pods/nanopb/pb_decode.c:209-229 | on any bytes: the varint modulo the width, or an error and where it leaves the stream |
| PbDecoders.IStream.DecodeTag | sharkCollector/Pods/nanopb/pb_decode.c:251-275 | on any bytes: the tag, the end of the stream or an error |
| PbDecoders.IStream.SkipField | sharkCollector/Pods/nanopb/pb_decode.c:277-290 | on any bytes: what is left after an unknown field |
| PbDecoders.IStream.MakeStringSubstream | sharkCollector/Pods/nanopb/pb_decode.c:322-335 | a stream over a length-delimited value, taken out of this one |
| PbDecoders.IStream.CloseStringSubstream | sharkCollector/Pods/nanopb/pb_decode.c:337-350 | the stream goes on after that value, however much of it was read |
| PbDecoders.DecodeScalar | sharkCollector/Pods/nanopb/pb_decode.c:1165-1379 | agrees with the parser on any bytes |
| PbDecoders.DecodePacked | sharkCollector/Pods/nanopb/pb_decode.c:370-400 | agrees with the parser on any bytes |
| PbDecoders.DecodeField | sharkCollector/Pods/nanopb/pb_decode.c:356-429 | agrees with the parser on any bytes, for every rule and wire type |
| PbDecoders.RequiredFieldsSeen | sharkCollector/Pods/nanopb/pb_decode.c:925-950 | the check by words and last bits is true exactly when every required field has been seen |
| PbDecoders.OneMoreMarked | sharkCollector/Pods/nanopb/pb_decode.c:911-915 | setting the bit of a required field marks that field and no other |
| PbDecoders.DecodeNoInit | sharkCollector/Pods/nanopb/pb_decode.c:852-953 | agrees with the parser on any bytes: same struct, same bytes consumed, same failures |
| PbDecoders.Decode | sharkCollector/Pods/nanopb/pb_decode.c:955-967 | the same from a struct set to its defaults |

## Left out

- Swift and Objective-C code, Firebase and GTM headers: no logic to model.
- Files, locks, mmap, atomics and threads of the environment: bytes, step boundaries and sequentially consistent memory stand for them.
- I/O errors, background errors, shutdown and info logs: every read and write succeeds; damage is modelled as bytes that are different.
- CRC32C, the key hash and Snappy: functions of which nothing is assumed; compression is off.
- When to compact, and what to pick: scores, seek charging, read sampling, compaction pointers as a way to choose, and manual compaction; any proper choice of inputs is covered.
- Delays of writers and the choice of when to switch memtables in MakeRoomForWrite: a switch may happen at any moment.
- The steps inside a flush: the table is written and installed at once, also while a compaction is under way.
- The byte encoding of entries in a memtable (db/memtable.cc:82-106) and its link to the skip list: a memtable is a sorted run.
- Versions that are still referenced by readers while newer ones are installed, and deletion of obsolete files.
- The file iterator of a level and IteratorWrapper's cache of key and validity: cursors over sorted runs.
- Table footers, block handles as bytes, checksums of blocks, the block cache and ApproximateOffsetOf.
- The sixteen shards of the cache, its NewId, and the values of handles: one shard is modelled.
- Intrusive links of the LRU list and of hash chains: the list and the chains are sequences, the buckets a sequence of them.
- The skip list's iterator as a class: its Prev, Seek and SeekToLast are the searches modelled; memory is a value, so that runs are sequences of it.
- The log reader's initial offset and resynchronization at it: reading is from the start.
- Spilling a memtable to level 0 in the middle of recovering a log.
- Paranoid checks: what is corrupt in a log that is recovered is dropped.
- repair.cc, dumpfile.cc, db_bench.cc, c.cc, filename.cc, logging.cc, arena.cc, histogram.cc and hash.cc: tools, wrappers and easy code.
- nanopb callbacks, extensions, pointer fields and release: user functions, or compiled out.
- nanopb struct offsets and sizes: a struct is a sequence of slots; members of a union exclude one another.
- Singular submessages of proto3: the test for a default value ignores the counts of arrays in them.
- Descriptors with 64 or more required fields, or a non-zero multiple of 32: the C code then shifts by the width of a word or reads past the bitmap.
- nanopb streams with callbacks of the user: streams over buffers, and sizing streams.
- Store.SnapshotReadsAreStable: asks that no merge on the way uncovers a value, with which it is false; moves and flushes leave the contents alone, and what they may spoil is the order of the levels, on which lookups rely (`StoreReads`).
- StoreReads.Get: asks for levels that can be searched, and `StoreReads.RunStandsExactly` says exactly when they can; of what binary search finds in others there is one example.
- BlockIterators.Iter.ParseNextKey: nothing is said once an entry is met whose two lengths add up to 2^32 or more, which the source adds in 32 bits; blocks of less than 4GB, since offsets are kept in 32 bits.
- VersionSets.VersionSet.LogAndApply: an edit adds files under numbers that no file of the level has; the new version's scores are not computed.
- PbRoundTrip.ComesBackExactlyWhenItFits: encodings of less than 4GB, since lengths are read in 32 bits.
- FilterBlocks.FilterBlockReader.KeyMayMatch: gives a result for a stored base of 64 or more, where the source's shift is undefined.
- Recoveries.SyncedWriteSurvives: asks that what is synced is on disk; one log file; batches of fewer than 2^31 updates, which is what their count can hold.
