# LevelDB and nanopb, modelled and proved in Dafny

A model of the two libraries of the app that hold state and formats: LevelDB (the storage engine
behind its local cache) and nanopb (its Protocol Buffers encoder and decoder).  Code that computes
is modelled as functions and lemmas; code that updates buffers, lists and counters in place is
modelled as classes and loops, each proved against a specification.

- **The engine** (`version`, `gaps`, `compaction`, `drop_rules`, `version_builder`,
  `version_changes`, `database`, `interruptions`, `exposure`, `db_impl`, `db`): levels of sorted files, the
  level-by-level read, how a compaction chooses its inputs, which entries it drops, and a state
  machine of writes, flushes, moves, compactions and snapshots.  The main question is whether a
  read answers as the history of all writes does; the answer is an exact condition over whole
  runs (`Database.RunKeepsReadsIff`), and two of the files are runs in which it fails
  (`lost_deletion`, `lost_write`).
- **Crashes** (`crash`, `lost_in_crash`, `recovery`): the same question when a crash may lose any part
  of the memtables, again with an exact condition over whole runs (`Crashes.LifeReadsIff`), and the
  recovery of two logs that were cut at any byte as such a crash.
- **Iterators** (`iterator`, `db_iter`, `merger`, `two_level_iterator`, `scan`): every iterator
  refines one cursor over one sorted run, in both directions; `DBIter` is a cursor over the snapshot
  map, which for the runs under it is the history of all writes.
- **Durable formats** (`coding`, `crc32c`, `checksums`, `log_format`, `log_writer`, `log_reader`,
  `log_recovery`, `log_wire`, `write_batch`, `log_replay`, `version_edit`, `manifest`, `comparator`,
  `block_format`, `block_builder`, `block`, `bloom`, `filter_block`, `table_format`,
  `table_layout`, `table_size`, `table_builder`, `table`,
  `known_bytes`): what was written is read back, also from a log or a
  manifest that was cut at any byte, and a table answers from the entries it was built from.
- **In memory** (`skiplist`, `memtable`, `handle_table`, `lru_cache`, `group_commit`): the skip
  list under one writer and any number of readers, the hash table and rings of the block cache,
  and the queue of writers with its log, memtable and syncs.
- **Bytes and ranks** (`key_ranks`): user keys are bytes in the formats and real-valued ranks in
  the engine; every rank that keeps the bytewise order carries the results over.
- **nanopb** (`pb`, `pb_common`, `pb_encode`, `pb_decoding`, `pb_varint`, `pb_decode`,
  `pb_round_trip`, `pb_exchange`, `pb_wire`, `pb_evolution`, `pb_accepts`): descriptors, both streams,
  the round trip for every message type, what any other reader finds in an encoded message, what a
  reader with fewer fields gets, and what the decoder may accept at all.

`sequences` and `arithmetic` hold small helpers.

## Findings

Where the code does less than it promises, each with an input and the condition under which it
does what it promises.

| what fails | source | shown by | when it holds |
|---|---|---|---|
| A compaction takes boundary files of its own level only, not of the next one, so it can drop a deletion and leave the older value, in a neighbouring file of the next level, to be read again. | app/Tootti/Pods/leveldb-library/db/version_set.cc:1407-1411 | `LostDeletion.DeletionComesBack` | `DropRules.LiveReadsPreservedIff` for one compaction, `Database.RunKeepsReadsIff` for whole runs; enough is that no file of the next level continues the last user key of the inputs (`Database.RunKeepsReads`) |
| The same, when no read shows it because a memtable has a newer value: a crash that loses the memtable lets the deleted value be read again. | app/Tootti/Pods/leveldb-library/db/version_set.cc:1407-1411 | `LostInCrash.ComesBackAfterCrash` | `Crashes.LifeReadsIff` for whole runs with crashes: exactly when no deletion is dropped while an older value is in a file outside the inputs |
| A memtable that is flushed while a compaction runs is placed by the files that are there, not by the outputs to come.  When a manual compaction has a gap between its files, a key in the gap can be flushed to the output level; then two files of that level overlap, and the binary search does not find the key. | app/Tootti/Pods/leveldb-library/db/db_impl.cc:906-919 | `LostWrite.WriteIsLost` | told from the state in which the compaction begins, with empty memtables: exactly when no user key strictly inside an output may be placed at its level (`Exposure.HarmlessIff`); with any memtables that is enough (`Exposure.UnexposedFits`), and so is that files cover the outputs (`Exposure.CoveredIsUnexposed`) or that there is no gap between the inputs (`Interruptions.GaplessFits`), as for every compaction that is not manual (`DB.DBImpl.StartCompaction`) |
| A varint of more than five bytes is taken as a 32-bit number although it does not fit: what the fifth byte holds beyond bit 31 is not looked at, and the bytes after it are judged one by one, so that those that extend a sign may be mixed with empty ones. | app/Tootti/Pods/nanopb/pb_decode.c:220-242 | `PbVarints.LostBits`, `PbVarints.MixedPadding` | a number that is taken fits exactly when it has at most five bytes, or its padding is even (`PbVarints.TakenFitsIff`); every number that fits is taken (`PbVarints.FittingIsTaken`), and what is taken is always the low 32 bits (`PbVarints.Varint32IsLow`) |

## Model

| member | source | states |
|---|---|---|
| InternalKey.ReadsIsAFunction | app/Tootti/Pods/leveldb-library/db/dbformat.cc:51-67 | if no two entries are the same version of a key, a read at a snapshot has exactly one answer |
| InternalKey.ReadNewerFirst | app/Tootti/Pods/leveldb-library/db/db_impl.cc:1100-1145 | when all versions of a key in one part are newer than those in the other, a search may stop at the first part that sees the key |
| Version.FindFile | app/Tootti/Pods/leveldb-library/db/version_set.cc:88-106 | the index splits the files of a level into those whose largest key is before the key and those where it is not |
| Version.SomeFileOverlapsRange | app/Tootti/Pods/leveldb-library/db/version_set.cc:122-157 | true exactly when some file meets the range, whether the binary search or the scan decides it |
| Version.GetOverlappingInputs | app/Tootti/Pods/leveldb-library/db/version_set.cc:519-559 | the files that meet the range; on level 0 the range is first widened to the least one that no overlapping file sticks out of, whatever order the files are in |
| Version.PickLevelForMemTableOutput | app/Tootti/Pods/leveldb-library/db/version_set.cc:491-516 | level 0 when a file of it meets the range; else the deepest of the first three levels that is reached through levels of which none has a file in the range and of which none has more than the limit of grandparent bytes under it |
| Version.SortedGetIsNewest | app/Tootti/Pods/leveldb-library/db/memtable.cc:100-134 | a seek to the lookup key in sorted entries finds a visible version exactly when there is one, and it is the newest |
| Version.NewestFirst | app/Tootti/Pods/leveldb-library/db/version_set.cc:278-280 | the same files, each as often, with the greatest number first |
| Version.Get | app/Tootti/Pods/leveldb-library/db/version_set.cc:326-421 | the level-by-level search that stops at the first file with an answer gives the answer that all entries of all files together give, for values, deletions and absent keys |
| Compactions.FindLargestKey | app/Tootti/Pods/leveldb-library/db/version_set.cc:1326-1340 | the largest key of the files, none exactly when there are no files |
| Compactions.FindSmallestBoundaryFile | app/Tootti/Pods/leveldb-library/db/version_set.cc:1344-1362 | of the files that continue the last user key, the one that starts first; none exactly when no file does |
| Compactions.AddBoundaryInputs | app/Tootti/Pods/leveldb-library/db/version_set.cc:1378-1400 | keeps the chosen files in front, adds files of the level only, ends with no file of the level that continues the last chosen user key, and keeps a run of neighbours a run |
| Compactions.ClosedIntervalIsIsolated | app/Tootti/Pods/leveldb-library/db/version_set.cc:1378-1400 | files without a gap and without a boundary file left are safe to move down: what stays on the level is newer for every user key they share |
| Compactions.ClosedRangeIsIsolated | app/Tootti/Pods/leveldb-library/db/version_set.cc:519-559 | so are the files of level 0 that meet a range which has been widened until nothing sticks out |
| Compactions.GetRange | app/Tootti/Pods/leveldb-library/db/version_set.cc:1205-1222 | the hull of the files: no key of theirs is outside it, and both ends are keys of theirs |
| Compactions.Compaction.SetupOtherInputs | app/Tootti/Pods/leveldb-library/db/version_set.cc:1403-1462 | the inputs of the level are isolated in it, those of the next level are all its files that meet the hull; the selection grows to all files of the level that meet the hull of both exactly when these are more, stay below the size limit, and meet as many files of the next level; a selection without a gap keeps being without one; the grandparents are all files that meet the hull of both |
| Compactions.Compaction.IsTrivialMove | app/Tootti/Pods/leveldb-library/db/version_set.cc:1515-1523 | exactly when there is one file, nothing to merge it with, and no more than the limit of grandparent bytes |
| Compactions.Compaction.IsBaseLevelForKey | app/Tootti/Pods/leveldb-library/db/version_set.cc:1533-1552 | with cursors that only move forward, and keys that never decrease, the answer is that of a scan of all files of all deeper levels |
| Gaps.LeastClosedIsAttached | app/Tootti/Pods/leveldb-library/db/version_set.cc:519-559 | on level 0, no gap between user keys is left between the range asked for and any file that is dragged along |
| Compactions.GrownStaysGapless | app/Tootti/Pods/leveldb-library/db/version_set.cc:1417-1446 | growing the inputs leaves no gap between the files of both levels when there was none |
| DBImplementation.PickCompaction | app/Tootti/Pods/leveldb-library/db/version_set.cc:1270-1322 | one file of a deeper level, or on level 0 all files that it drags along: a selection without a gap that SetupOtherInputs may complete |
| DBImplementation.CompactRange | app/Tootti/Pods/leveldb-library/db/version_set.cc:1464-1495 | the files that meet the range; after level 0 only as many of them from the front as it takes to reach the size limit; a run that SetupOtherInputs may complete |
| DropRules.DoCompactionWork | app/Tootti/Pods/leveldb-library/db/db_impl.cc:890-963 | the output files, put together, are sorted and have exactly the entries of the input but two kinds: those with a newer version in the input that is at or below the smallest snapshot, and deletions at or below it of a user key that no file two or more levels down has in its range; no output is empty; where one file ends and the next begins is any choice |
| DropRules.DroppedIff | app/Tootti/Pods/leveldb-library/db/db_impl.cc:929-957 | for any sorted input an entry is dropped exactly when a newer version of its key in the input is at or below the smallest snapshot, or it is a deletion at or below it and no file two or more levels down has its key in its range |
| DropRules.SurvivorsAreSorted | app/Tootti/Pods/leveldb-library/db/db_impl.cc:890-963 | what is kept of a sorted input is sorted |
| DropRules.ResurrectionIsSeen | app/Tootti/Pods/leveldb-library/db/db_impl.cc:929-944 | when a deletion is dropped over an older value outside the inputs, the read at the smallest snapshot changes its answer |
| DropRules.LiveReadsPreservedIff | app/Tootti/Pods/leveldb-library/db/db_impl.cc:890-963 | a compaction keeps every read at or after the smallest snapshot exactly when no deletion it drops as obsolete was the newest version over an older value left outside its inputs |
| VersionBuilder.FileView.SaveLevel | app/Tootti/Pods/leveldb-library/db/version_set.cc:695-739 | a level after an edit is sorted and holds each base or added file that is not deleted, once; the merge of two sorted lists does that |
| VersionBuilder.FileView.SortedIsDetermined | app/Tootti/Pods/leveldb-library/db/version_set.cc:695-739 | a sorted list of files is determined by which files are in it |
| DBImplementation.NextVersion | app/Tootti/Pods/leveldb-library/db/version_set.cc:650-754 | every level of the new version holds what Saved says of the edit: base files that are not deleted and added ones, in order |
| DBImplementation.InstallFlushed | app/Tootti/Pods/leveldb-library/db/db_impl.cc:491-566 | the version after a flush is the old one with the table at the level picked for it |
| DBImplementation.InstallPushed | app/Tootti/Pods/leveldb-library/db/db_impl.cc:860-876 | the version after a compaction is the old one without the inputs and with the outputs on the next level |
| DBImplementation.MergeInputs | app/Tootti/Pods/leveldb-library/db/version_set.cc:1237-1268 | the input of a compaction is sorted and holds the entries of the input files, no more and no less |
| VersionChanges.PlacedIsWellFormed | app/Tootti/Pods/leveldb-library/db/db_impl.cc:491-566 | a flush keeps the levels ordered, disjoint below level 0, and each newer than the ones below |
| VersionChanges.PushedDownIsWellFormed | app/Tootti/Pods/leveldb-library/db/db_impl.cc:860-876 | so does a compaction or a move whose inputs were chosen as above, with outputs cut anywhere |
| VersionChanges.ChosenInputsFit | app/Tootti/Pods/leveldb-library/db/version_set.cc:1403-1462 | outputs made of inputs that were chosen as above do not overlap any file that stays on the next level |
| Database.CutsAreOrdered | app/Tootti/Pods/leveldb-library/db/db_impl.cc:986-1000 | output files cut anywhere from a sorted stream are ordered and do not overlap |
| Database.NothingResurrects | app/Tootti/Pods/leveldb-library/db/version_set.cc:1403-1462 | when no file of the next level continues the last user key of the inputs taken from it, a compaction brings nothing back |
| Database.CompactionPreservesReadsIff | app/Tootti/Pods/leveldb-library/db/db_impl.cc:878-963 | in any state with well formed layers, a compaction keeps every live read exactly when none of the deletions it drops was hiding an older value outside the inputs |
| Database.RunKeepsStructure | app/Tootti/Pods/leveldb-library/db/db_impl.cc:688-767 | in every state of every run of writes, flushes, moves, compactions and snapshots the levels are ordered, the layers are newest first, and every stored entry was written; a compaction of the run is one whose outputs fit (`Fit`), as those of a compaction at once always do (VersionChanges.ChosenInputsFit), and those of an interrupted one exactly when the levels end in order (Interruptions.InterruptedIsCompaction) |
| Database.RunKeepsReads | app/Tootti/Pods/leveldb-library/db/db_impl.cc:688-767 | the same and every live read answers as the history of all writes does, for runs in which every compaction ends with all files of the next level that its inputs meet, and leaves that level closed (`Closing` with `NextIsClosed`, a sufficient condition on the files alone) |
| Database.RunKeepsReadsIff | app/Tootti/Pods/leveldb-library/db/db_impl.cc:688-767 | with no condition on the run: all its states answer all live reads as the history of all writes does exactly when none of its compactions drops a deletion over an older value outside its inputs |
| Interruptions.QuietRun | app/Tootti/Pods/leveldb-library/db/db_impl.cc:906-919 | while a compaction runs, what others write, flush and take snapshots of only adds files that are newer than all that was there and meet nothing down to their level |
| Interruptions.InterruptedIsCompaction | app/Tootti/Pods/leveldb-library/db/db_impl.cc:878-1000 | a compaction that was interrupted in any way ends in ordered levels exactly when its outputs fit beside the files of the next level in the version in which it ends; and then the whole is the same as one compaction at once at its end |
| Interruptions.GaplessFits | app/Tootti/Pods/leveldb-library/db/db_impl.cc:906-919 | the outputs always fit when no gap of user keys is between the inputs, as for every compaction that the code starts by itself |
| LostWrite.WriteIsLost | app/Tootti/Pods/leveldb-library/db/db_impl.cc:906-919 | a concrete run from an empty database with a manual compaction and a flush during it, after which two files of one level overlap and the search for a written key stops at the one without it |
| Exposure.UnexposedFits | app/Tootti/Pods/leveldb-library/db/db_impl.cc:906-919 | when no user key strictly inside an output may be placed at its level in the state in which the compaction begins, its outputs fit after any interruptions |
| Exposure.CoveredIsUnexposed | app/Tootti/Pods/leveldb-library/db/version_set.cc:491-516 | it is enough that every user key strictly inside an output is in the range of some file down to the level of the outputs |
| Exposure.ExposedHarms | app/Tootti/Pods/leveldb-library/db/db_impl.cc:906-919 | with such a key, and empty memtables, a run of writes and flushes during the compaction leaves the levels out of order |
| Exposure.HarmlessIff | app/Tootti/Pods/leveldb-library/db/db_impl.cc:906-919 | a compaction that begins with empty memtables survives every interruption exactly when no user key strictly inside an output may be placed at its level, which is told from the files it begins with and those it makes |
| LostDeletion.DeletionComesBack | app/Tootti/Pods/leveldb-library/db/version_set.cc:1403-1411 | a concrete run of 14 actions from an empty database: reads are right in all states but the last, in which a deleted key reads as its old value |
| DB.DBImpl.Write | app/Tootti/Pods/leveldb-library/db/db_impl.cc:1185-1256 | is the write of the run: the entry gets the next sequence number, and the reads that were right stay right |
| DB.DBImpl.SwitchMemTable | app/Tootti/Pods/leveldb-library/db/db_impl.cc:1310-1370 | is the switch of the run: the memtable becomes the immutable one |
| DB.DBImpl.CompactMemTable | app/Tootti/Pods/leveldb-library/db/db_impl.cc:535-566 | is the flush of the run, at the level that PickLevelForMemTableOutput says for the table: no entry is lost or added |
| DB.DBImpl.BackgroundCompaction | app/Tootti/Pods/leveldb-library/db/db_impl.cc:688-767 | is a move or a compaction of the run, for any file it starts from; reads stay right when the next level is left closed |
| DB.DBImpl.ManualCompaction | app/Tootti/Pods/leveldb-library/db/db_impl.cc:688-767 | is a compaction of the run that takes the files of the range, after level 0 up to the size limit, or changes nothing when the range has none |
| DB.DBImpl.TrivialMove | app/Tootti/Pods/leveldb-library/db/db_impl.cc:718-733 | is the move of the run: the file changes its level, and no read changes |
| DB.DBImpl.StartCompaction | app/Tootti/Pods/leveldb-library/db/version_set.cc:1270-1322 | what the code chooses by itself to compact has no gap, in any state of a run |
| DB.DBImpl.Compact | app/Tootti/Pods/leveldb-library/db/db_impl.cc:860-1000 | merge, drop rules, cut and installation together are one compaction of the run, when nothing else goes on |
| DB.DBImpl.FinishCompaction | app/Tootti/Pods/leveldb-library/db/db_impl.cc:860-1000 | after any interruptions the result is the compaction of the run at its end, exactly when the levels are in order; without a gap in the inputs they are |
| DB.DBImpl.GetSnapshot | app/Tootti/Pods/leveldb-library/db/db_impl.cc:1166-1169 | is the snapshot of the run, at the last sequence number |
| DB.DBImpl.ReleaseSnapshot | app/Tootti/Pods/leveldb-library/db/db_impl.cc:1171-1174 | is the release of the run: the reads of the other snapshots stay right |
| DB.DBImpl.Get | app/Tootti/Pods/leveldb-library/db/db_impl.cc:1100-1145 | the answer of memtable, immutable memtable and files, searched in that order, is that of all entries together, and in a state that answers live reads it is that of the history of all writes |
| Crashes.CrashProofIff | app/Tootti/Pods/leveldb-library/db/db_impl.cc:280-369 | all reads are those of the surviving history, whatever part of the memtables is lost, exactly when the files alone answer as what was flushed |
| Crashes.CrashProofReads | app/Tootti/Pods/leveldb-library/db/db_impl.cc:280-369 | a state that survives every crash is one in which all reads are right |
| Crashes.CrashKeeps | app/Tootti/Pods/leveldb-library/db/db_impl.cc:280-369 | after recovery the levels are in order, the layers newest first, and the counters of the manifest far enough |
| Crashes.LifeIsSound | app/Tootti/Pods/leveldb-library/db/db_impl.cc:280-369 | so they are in every state of every run with any number of crashes in it |
| Crashes.LifeReadsIff | app/Tootti/Pods/leveldb-library/db/db_impl.cc:280-369 | in a run with any number of crashes, each losing any part of the memtables: all reads are those of the surviving history, now and after any crash, exactly when no compaction drops a deletion of which an older value is in a file outside its inputs |
| LostInCrash.ComesBackAfterCrash | app/Tootti/Pods/leveldb-library/db/version_set.cc:1403-1411 | a concrete run in which all reads are right in all states, and a crash at its end after which a deleted key reads as its old value |
| Recovery.KeptIsPart | app/Tootti/Pods/leveldb-library/db/db_impl.cc:280-369 | the whole batches of a cut log are a part of the memtable it was the log of |
| Recovery.KeptIsRecovered | app/Tootti/Pods/leveldb-library/db/db_impl.cc:371-489 | the entries that are read from the bytes of a cut log are those of its whole batches |
| Recovery.Recover | app/Tootti/Pods/leveldb-library/db/db_impl.cc:280-369 | from the logs of both memtables, each cut at any byte: what is recovered is a crash of the run that keeps exactly the whole batches, with the sequence number of the code, and all reads are those of the surviving history if no compaction before had brought back anything in files |
| Iterators.Cursor.Seek | app/Tootti/Pods/leveldb-library/include/leveldb/iterator.h:33-70 | a cursor over a sorted run goes to its first entry not before the target: what each iterator below is held to |
| DBIterator.SnapshotMapIsReads | app/Tootti/Pods/leveldb-library/db/db_iter.cc:168-198 | the map of a snapshot is sorted by user key, and has a key with a value exactly when a read at that snapshot answers that value |
| DBIterator.DBIter.Next | app/Tootti/Pods/leveldb-library/db/db_iter.cc:141-198 | moves to the next pair of the snapshot map, in either direction of the internal iterator, past hidden versions and deletions |
| DBIterator.DBIter.Prev | app/Tootti/Pods/leveldb-library/db/db_iter.cc:200-267 | moves to the pair before in the snapshot map, in either direction of the internal iterator |
| DBIterator.DBIter.Seek | app/Tootti/Pods/leveldb-library/db/db_iter.cc:269-281 | the first pair of the snapshot map with a key not below the target |
| DBIterator.DBIter.SeekToFirst | app/Tootti/Pods/leveldb-library/db/db_iter.cc:283-292 | the first pair of the snapshot map, if there is one |
| DBIterator.DBIter.SeekToLast | app/Tootti/Pods/leveldb-library/db/db_iter.cc:294-299 | the last pair of the snapshot map, if there is one |
| DBIterator.DBIter.Current | app/Tootti/Pods/leveldb-library/db/db_iter.cc:64-71 | the key and the value of the pair that the iterator is at |
| Merger.MergingIterator.SeekToFirst | app/Tootti/Pods/leveldb-library/table/merger.cc:31-37 | the first entry of the sorted union of the children |
| Merger.MergingIterator.SeekToLast | app/Tootti/Pods/leveldb-library/table/merger.cc:39-45 | the last entry of the sorted union |
| Merger.MergingIterator.Seek | app/Tootti/Pods/leveldb-library/table/merger.cc:47-53 | the first entry of the sorted union that is not before the target |
| Merger.MergingIterator.Next | app/Tootti/Pods/leveldb-library/table/merger.cc:55-79 | one place on in the sorted union, also when the direction changes |
| Merger.MergingIterator.Prev | app/Tootti/Pods/leveldb-library/table/merger.cc:81-108 | one place back in the sorted union, also when the direction changes |
| Merger.MergingIterator.FindSmallest | app/Tootti/Pods/leveldb-library/table/merger.cc:148-161 | a child that is valid and before or equal to the others; none exactly when no child is valid |
| Merger.MergingIterator.FindLargest | app/Tootti/Pods/leveldb-library/table/merger.cc:163-176 | a child that is valid and after or equal to the others; none exactly when no child is valid |
| TwoLevel.TwoLevelIterator.SeekToFirst | app/Tootti/Pods/leveldb-library/table/two_level_iterator.cc:89-94 | the first entry of all blocks, past empty ones |
| TwoLevel.TwoLevelIterator.SeekToLast | app/Tootti/Pods/leveldb-library/table/two_level_iterator.cc:96-101 | the last entry of all blocks, past empty ones |
| TwoLevel.TwoLevelIterator.Seek | app/Tootti/Pods/leveldb-library/table/two_level_iterator.cc:82-87 | the first entry of all blocks that is not before the target, by one seek in the index and one in a block |
| TwoLevel.TwoLevelIterator.Next | app/Tootti/Pods/leveldb-library/table/two_level_iterator.cc:103-107 | one place on in the blocks put together |
| TwoLevel.TwoLevelIterator.Prev | app/Tootti/Pods/leveldb-library/table/two_level_iterator.cc:109-113 | one place back in the blocks put together |
| Scans.NewConcatenatingIterator | app/Tootti/Pods/leveldb-library/db/version_set.cc:223-228 | a two-level iterator over the files of a level, as one run |
| Scans.NewInternalIterator | app/Tootti/Pods/leveldb-library/db/db_impl.cc:1062-1088 | a merging iterator over the memtables, each file of level 0 and each other level, whose union has exactly the entries of the database |
| Scans.RunsMerge | app/Tootti/Pods/leveldb-library/db/db_impl.cc:1062-1088 | no entry is in two of these runs, so one sorted run has them all, each once |
| Scans.ScanIsHistory | app/Tootti/Pods/leveldb-library/db/db_impl.cc:1147-1157 | at a live snapshot the map that DBIter goes through has, in key order and once each, exactly the keys with a value in the history of all writes |
| KeyRanks.OrderCarries | app/Tootti/Pods/leveldb-library/db/dbformat.cc:51-67 | the comparator on encoded internal keys is the order of the entries above, for every rank of user keys that keeps the bytewise order |
| KeyRanks.FractionIsRank | app/Tootti/Pods/leveldb-library/util/comparator.cc:25-27 | there is such a rank: the key read as the digits of a fraction |
| KeyRanks.RunCarries | app/Tootti/Pods/leveldb-library/db/dbformat.cc:51-67 | a sorted run of encoded entries, as in a memtable or a table, is a sorted run of entries |
| KeyRanks.MemTableAnswers | app/Tootti/Pods/leveldb-library/db/memtable.cc:100-134 | what MemTable::Get answers on encoded entries is the answer of the read on the entries |
| KeyRanks.TableAnswers | app/Tootti/Pods/leveldb-library/db/version_set.cc:263-276 | what Table::InternalGet hands over, as SaveValue takes it, is the answer of the read on the entries of the table |
| KeyRanks.GroupIsRun | app/Tootti/Pods/leveldb-library/db/db_impl.cc:1185-1256 | a group of operations is a run of single writes of the database under consecutive sequence numbers |
| KeyRanks.CommitsAreWrites | app/Tootti/Pods/leveldb-library/db/db_impl.cc:1185-1256 | what the writers have committed is the history of a run of the database that writes the operations of all applied batches, in the order of the queue |
| Coding.EncodeVarint32 | app/Tootti/Pods/leveldb-library/util/coding.cc:47-73 | the five branches write the varint of the number |
| Coding.EncodeVarint64 | app/Tootti/Pods/leveldb-library/util/coding.cc:81-90 | the loop writes the varint of the number |
| Coding.VarintByte | app/Tootti/Pods/leveldb-library/util/coding.cc:47-73 | byte by byte: groups of seven bits, least significant first, the high bit set in all but the last, and as few bytes as the number needs |
| Coding.FixedByte | app/Tootti/Pods/leveldb-library/util/coding.cc:9-33 | byte by byte: the least significant first |
| Coding.GetVarint32PtrFallback | app/Tootti/Pods/leveldb-library/util/coding.cc:112-128 | reads at most five bytes before the limit and keeps 32 bits; none for a varint that does not end |
| Coding.Varint32RoundTrip | app/Tootti/Pods/leveldb-library/util/coding.cc:112-128 | a varint that was written is read back, and what follows it starts right behind |
| Coding.Varint64RoundTrip | app/Tootti/Pods/leveldb-library/util/coding.cc:142-157 | the same for 64 bits |
| Coding.LengthPrefixedRoundTrip | app/Tootti/Pods/leveldb-library/util/coding.cc:171-190 | a length-prefixed slice that was written is read back |
| Coding.Fixed32RoundTrip | app/Tootti/Pods/leveldb-library/util/coding.cc:9-18 | four little-endian bytes give back the number |
| Coding.Fixed64RoundTrip | app/Tootti/Pods/leveldb-library/util/coding.cc:20-33 | eight little-endian bytes give back the number |
| Crc32c.Extend | app/Tootti/Pods/leveldb-library/util/crc32c.cc:276-377 | the aligned, four-strided, table-driven computation gives the CRC-32C of the bytes, defined bit by bit, for every length and alignment |
| Crc32c.Strides | app/Tootti/Pods/leveldb-library/util/crc32c.cc:332-366 | the four partial sums of the strides, joined, are the running word over all bytes that were read |
| Crc32c.TableStep | app/Tootti/Pods/leveldb-library/util/crc32c.cc:287-291 | one look-up in the byte table is eight bit steps of the division |
| Crc32c.ExtendConcat | app/Tootti/Pods/leveldb-library/util/crc32c.h:14-17 | a checksum extended piece by piece is the checksum of the whole |
| Crc32c.TableEntries | app/Tootti/Pods/leveldb-library/util/crc32c.cc:20-63 | the look-up for each single bit is the entry that the literal table has |
| Crc32c.ThirtyTwoZeros | app/Tootti/Pods/leveldb-library/util/crc32c.cc:276-377 | the checksum of 32 zero bytes is the value that section B.4 of RFC 3720 publishes |
| Crc32c.OneByteChangeIsSeen | app/Tootti/Pods/leveldb-library/util/crc32c.cc:276-377 | changing any single byte changes the checksum |
| Crc32c.UnmaskMask | app/Tootti/Pods/leveldb-library/util/crc32c.h:29-38 | unmasking undoes masking |
| Checksums.StoredRoundTrip | app/Tootti/Pods/leveldb-library/util/crc32c.h:29-38 | a checksum that was masked and stored is read back |
| LogWriter.Writer.AddRecord | app/Tootti/Pods/leveldb-library/db/log_writer.cc:34-80 | appends the fragments of the record, with the trailer of a block that is too short for a header |
| LogWriter.Writer.EmitPhysicalRecord | app/Tootti/Pods/leveldb-library/db/log_writer.cc:82-108 | appends one header with its checksum, length and type, and the payload |
| LogReader.Reader.ReadPhysicalRecord | app/Tootti/Pods/leveldb-library/db/log_reader.cc:189-271 | block by block, the next fragment or end or corruption that the bytes of the file have, with what is reported |
| LogReader.Reader.ReadRecord | app/Tootti/Pods/leveldb-library/db/log_reader.cc:56-174 | the next logical record that the fragments make, with every corruption reported on the way |
| LogReader.Reader.ReadAll | app/Tootti/Pods/leveldb-library/db/log_reader.cc:56-174 | all records and reports from here to the end of the file |
| LogFormat.RoundTrip | app/Tootti/Pods/leveldb-library/db/log_writer.cc:34-80 | any records of any length that were logged are read back, in order, and nothing is reported |
| LogFormat.CrashPrefix | app/Tootti/Pods/leveldb-library/db/log_reader.cc:56-174 | from a log that was cut at any byte exactly the records that lie in it as a whole come back, in order, and nothing is reported |
| LogFormat.WholeRecordsSpan | app/Tootti/Pods/leveldb-library/db/log_reader.cc:205-233 | the number of whole records is the right one: they fit in the part that is left, and the next does not |
| LogRecovery.RecoverPrefix | app/Tootti/Pods/leveldb-library/db/log_reader.cc:56-174 | writer and reader together: records written in any number of sessions, cut at any byte, come back as the crash-prefix theorem says |
| LogWire.LogIsFormatted | app/Tootti/Pods/leveldb-library/db/log_format.h:14-29 | what is written, told without writer and reader: blocks of 32 KiB, types 1 to 4, masked checksums over type and payload, lengths with the low byte first, zeros where no header fits, and each piece but the last up to the end of its block |
| LogWire.RecordIsSound | app/Tootti/Pods/leveldb-library/db/log_reader.cc:56-174 | whatever the file holds: a record that is handed over is made of pieces in order, each with the right checksum of its type and payload, the first, the ones in the middle and the last of the right types |
| LogWire.DamageIsSeen | app/Tootti/Pods/leveldb-library/db/log_reader.cc:189-271 | when one byte of a payload that was written has changed, the reader reports a wrong checksum and takes nothing more from that block |
| LogWire.LengthIsSeen | app/Tootti/Pods/leveldb-library/db/log_reader.cc:189-271 | a length that leads out of its block is reported with all that is left of the block, but for the last block, where it is the end of the log |
| LogWire.NothingIsLost | app/Tootti/Pods/leveldb-library/db/log_reader.cc:56-174 | for any file at all: every byte of every fragment, and every byte skipped with a report, is in a record that was handed over, or reported, or of a record that the end of the file leaves unfinished |
| WriteBatches.WriteBatch.Put | app/Tootti/Pods/leveldb-library/db/write_batch.cc:98-103 | one operation more, and the count in the header with it |
| WriteBatches.WriteBatch.Delete | app/Tootti/Pods/leveldb-library/db/write_batch.cc:105-109 | one operation more, and the count in the header with it |
| WriteBatches.WriteBatch.Append | app/Tootti/Pods/leveldb-library/db/write_batch.cc:144-148 | the operations of the other batch follow, under the sequence number of this one |
| WriteBatches.Iterate | app/Tootti/Pods/leveldb-library/db/write_batch.cc:42-80 | hands over the operations that parse, and says whether the bytes are too small, malformed or miscounted |
| WriteBatches.BatchRoundTrip | app/Tootti/Pods/leveldb-library/db/write_batch.cc:42-80 | sequence number, count and operations of a batch that was written are read back |
| WriteBatches.CutIsSeen | app/Tootti/Pods/leveldb-library/db/write_batch.cc:42-80 | a batch that was cut anywhere after its header is malformed or has too few operations |
| KnownBytes.BatchLayout | app/Tootti/Pods/leveldb-library/db/write_batch.cc:5-14 | byte by byte: sequence number, count, and each operation with its type, 1 for a value and 0 for a deletion, in front |
| KnownBytes.KeyLayout | app/Tootti/Pods/leveldb-library/db/dbformat.cc:14-23 | byte by byte: the user key, the kind, and seven bytes of the sequence number with the least significant first |
| MemTables.MemTable.Add | app/Tootti/Pods/leveldb-library/db/memtable.cc:75-98 | exactly one entry more, in its place |
| MemTables.MemTable.Get | app/Tootti/Pods/leveldb-library/db/memtable.cc:100-134 | found, deleted or nothing, as the newest entry of the user key that is not after the snapshot says |
| MemTables.FirstIsNewest | app/Tootti/Pods/leveldb-library/db/memtable.cc:100-134 | the first entry from the lookup key on has the user key exactly when some version is visible, and is then the newest of them |
| LogReplay.InsertInto | app/Tootti/Pods/leveldb-library/db/write_batch.cc:116-137 | the operations of a batch are added under consecutive sequence numbers from its own on |
| LogReplay.RangesFollow | app/Tootti/Pods/leveldb-library/db/db_impl.cc:1205-1207 | in a log of groups the next batch starts where the one before ends |
| LogReplay.ChainedIsNumbered | app/Tootti/Pods/leveldb-library/db/db_impl.cc:1205-1207 | the batches of a log number all operations in order, each once |
| LogReplay.RecoverLogFile | app/Tootti/Pods/leveldb-library/db/db_impl.cc:371-489 | from a log cut at any byte, exactly the entries of the whole batches are in the memtables, each once, flushed or not, and the greatest sequence number is theirs |
| GroupCommit.WriteQueue.Enqueue | app/Tootti/Pods/leveldb-library/db/db_impl.cc:1185-1196 | a request joins at the end, and nothing else changes |
| GroupCommit.WriteQueue.BuildBatchGroup | app/Tootti/Pods/leveldb-library/db/db_impl.cc:1260-1306 | the group has the operations of its writers in order, and it is the longest prefix of the queue in which no writer asks for a sync that the first did not ask for, and all batches together are at most 1 MiB, or 128 KiB more than a first one that is no larger than that |
| GroupCommit.WriteQueue.Lead | app/Tootti/Pods/leveldb-library/db/db_impl.cc:1201-1207 | the first writer takes the whole such group, or only itself when it has no batch, and gives it the next sequence numbers |
| GroupCommit.WriteQueue.AddRecord | app/Tootti/Pods/leveldb-library/db/db_impl.cc:1214-1215 | the batch of the group is one record of the log, at its end |
| GroupCommit.WriteQueue.Sync | app/Tootti/Pods/leveldb-library/db/db_impl.cc:1216-1222 | after it, when it was asked for, all of the log survives |
| GroupCommit.WriteQueue.InsertIntoMem | app/Tootti/Pods/leveldb-library/db/db_impl.cc:1223-1225 | the memtable has the operations of the group under its numbers |
| GroupCommit.WriteQueue.Finish | app/Tootti/Pods/leveldb-library/db/db_impl.cc:1234-1253 | the group leaves the front of the queue, its followers are told, and the next writer leads |
| GroupCommit.WriteQueue.MakeRoomForWrite | app/Tootti/Pods/leveldb-library/db/db_impl.cc:1310-1370 | a new log and memtable take over with no entry lost |
| GroupCommit.WriteQueue.AppliedInOrder | app/Tootti/Pods/leveldb-library/db/db_impl.cc:1185-1256 | in every state the memtables hold the operations of the first requests of the queue, each once, under consecutive numbers in the order of the queue |
| GroupCommit.WriteQueue.RangesAreConsecutive | app/Tootti/Pods/leveldb-library/db/db_impl.cc:1205-1207 | no number is skipped or used twice between groups |
| GroupCommit.WriteQueue.SyncedSurvive | app/Tootti/Pods/leveldb-library/db/db_impl.cc:1216-1222 | every request that was answered and asked for a sync is whole in any part of the log that has what was synced |
| GroupCommit.WriteQueue.RecoverAfterCrash | app/Tootti/Pods/leveldb-library/db/db_impl.cc:371-489 | recovery from a log cut anywhere after its last sync gives back every such request; from the whole log, the memtable |
| SkipLists.SkipList.FindGreaterOrEqual | app/Tootti/Pods/leveldb-library/db/skiplist.h:260-280 | the first node not before the key, and on every level the last node before it |
| SkipLists.SkipList.FindLessThan | app/Tootti/Pods/leveldb-library/db/skiplist.h:283-302 | the last node before the key, or the head |
| SkipLists.SkipList.FindLast | app/Tootti/Pods/leveldb-library/db/skiplist.h:304-322 | the last node, or the head of an empty list |
| SkipLists.SkipList.SetNext | app/Tootti/Pods/leveldb-library/db/skiplist.h:159-164 | publishing a node on a level keeps every level sorted and a part of the one below |
| SkipLists.Reader.Step | app/Tootti/Pods/leveldb-library/db/skiplist.h:260-280 | one load of a search, which comes nearer to its end; it ends with what the list holds at that load |
| SkipLists.RunToEnd | app/Tootti/Pods/leveldb-library/db/skiplist.h:260-280 | a search that is left alone comes to its end |
| SkipLists.Inserter.Step | app/Tootti/Pods/leveldb-library/db/skiplist.h:336-368 | one store of an insertion: the list stays well formed, no node leaves a level, and the key appears with the store on level 0 |
| SkipLists.Insert | app/Tootti/Pods/leveldb-library/db/skiplist.h:336-368 | exactly one key more |
| SkipLists.Contains | app/Tootti/Pods/leveldb-library/db/skiplist.h:370-377 | whether the key is in the list |
| SkipLists.Interleave | app/Tootti/Pods/leveldb-library/db/skiplist.h:336-368 | any number of searches and a series of insertions, with loads and stores in any order: every search that ends has the answer for a list that holds all keys present when it began, and the list ends with exactly the keys that were published |
| SkipLists.Iterator.Seek | app/Tootti/Pods/leveldb-library/db/skiplist.h:223-226 | the first key of the list not before the target |
| SkipLists.Iterator.Next | app/Tootti/Pods/leveldb-library/db/skiplist.h:206-210 | the next key of the list |
| SkipLists.Iterator.Prev | app/Tootti/Pods/leveldb-library/db/skiplist.h:212-221 | the key before, found by a search |
| BlockBuilders.BlockBuilder.Add | app/Tootti/Pods/leveldb-library/table/block_builder.cc:72-106 | one entry more, sharing what its key has in common with the one before unless it is at a restart point |
| BlockBuilders.BlockBuilder.Finish | app/Tootti/Pods/leveldb-library/table/block_builder.cc:62-70 | the bytes of the block of all entries added, for any restart interval |
| BlockBuilders.EntryAppends | app/Tootti/Pods/leveldb-library/table/block_builder.cc:72-106 | one more entry leaves the bytes and restart points of the earlier ones as they are |
| KnownBytes.BlockLayout | app/Tootti/Pods/leveldb-library/table/block_builder.cc:5-28 | byte by byte, for two entries that share a byte |
| Blocks.DecodeWritten | app/Tootti/Pods/leveldb-library/table/block.cc:54-74 | the lengths of an entry that was written are decoded, on the fast path for three single bytes or off it |
| Blocks.OpenBlock | app/Tootti/Pods/leveldb-library/table/block.cc:24-39 | a block that was built opens, with its restart points where the array says |
| Blocks.Iter.SeekToFirst | app/Tootti/Pods/leveldb-library/table/block.cc:203-206 | the first entry that was added |
| Blocks.Iter.SeekToLast | app/Tootti/Pods/leveldb-library/table/block.cc:208-213 | the last entry that was added |
| Blocks.Iter.Next | app/Tootti/Pods/leveldb-library/table/block.cc:137-140 | the next entry that was added, its key put together from the shared part and the rest |
| Blocks.Iter.Prev | app/Tootti/Pods/leveldb-library/table/block.cc:142-161 | the entry before, from the last restart point before it forward |
| Blocks.Iter.Seek | app/Tootti/Pods/leveldb-library/table/block.cc:163-201 | the first entry with a key not before the target, for any order the block is sorted by |
| ByteKeys.LessIsTotal | app/Tootti/Pods/leveldb-library/util/comparator.cc:25-27 | exactly one of less, greater and equal |
| ByteKeys.FindShortestSeparator | app/Tootti/Pods/leveldb-library/util/comparator.cc:29-50 | not before the start and before the limit; when there is room for a byte in between where the two differ first, no key between the two is shorter, else it is the start |
| ByteKeys.FindShortSuccessor | app/Tootti/Pods/leveldb-library/util/comparator.cc:52-64 | the first byte that is not 255 one greater, and nothing after it; a key of 255s stays as it is |
| ByteKeys.KeyLessChains | app/Tootti/Pods/leveldb-library/db/dbformat.cc:51-67 | the order of internal keys is transitive, also through keys that are equal |
| ByteKeys.FindKeySeparator | app/Tootti/Pods/leveldb-library/db/dbformat.cc:69-86 | a key not before the first and before the second; it is a new one, with a user key before that of the second, whenever a shorter user key is to be had |
| ByteKeys.FindKeySuccessor | app/Tootti/Pods/leveldb-library/db/dbformat.cc:88-101 | a key not before the given one, and not longer |
| Bloom.BloomFilterPolicy.CreateFilter | app/Tootti/Pods/leveldb-library/util/bloom.cc:28-54 | appends a filter in which exactly the probes of the keys are set, of the size that the bits per key give, for any hash function |
| Bloom.BloomFilterPolicy.FilterMatches | app/Tootti/Pods/leveldb-library/util/bloom.cc:56-80 | so a filter matches every one of its keys |
| Bloom.BloomFilterPolicy.KeyMayMatch | app/Tootti/Pods/leveldb-library/util/bloom.cc:56-80 | true exactly when all probes of the key hit, and for filters too short or in an unknown encoding as the code says |
| Bloom.BloomFilterPolicy.OddFilters | app/Tootti/Pods/leveldb-library/util/bloom.cc:56-80 | a filter without bits matches nothing, one of an unknown encoding everything |
| FilterBlock.FilterBlockBuilder.StartBlock | app/Tootti/Pods/leveldb-library/table/filter_block.cc:21-27 | the filters up to the one of the block are made, and the keys added so far stay covered |
| FilterBlock.FilterBlockBuilder.AddKey | app/Tootti/Pods/leveldb-library/table/filter_block.cc:29-33 | one key more, for the block that was started |
| FilterBlock.FilterBlockBuilder.Finish | app/Tootti/Pods/leveldb-library/table/filter_block.cc:35-49 | the filter block matches every key that was added under the offset of its data block; the reader finds one filter for each 2 KiB, and it is that of exactly the keys added for blocks that start there |
| FilterBlock.KeyMayMatch | app/Tootti/Pods/leveldb-library/table/filter_block.cc:90-104 | what the filter of the block at that offset says, and a match when there is none to ask |
| FilterBlock.NeverMissed | app/Tootti/Pods/leveldb-library/table/filter_block.cc:90-104 | a key of a filter is found through the offset array |
| FilterBlock.NothingToAsk | app/Tootti/Pods/leveldb-library/table/filter_block.cc:90-104 | everything matches in a block too short to have filters, beyond the last filter, and where the offsets make no sense |
| TableFormat.HandleRoundTrip | app/Tootti/Pods/leveldb-library/table/format.cc:15-29 | a block handle that was written is read back |
| TableFormat.FooterRoundTrip | app/Tootti/Pods/leveldb-library/table/format.cc:31-62 | the two handles are read back from the end of the file |
| TableFormat.ReadWritten | app/Tootti/Pods/leveldb-library/table/format.cc:64-139 | a block that was stored is read back, with its checksum checked or not |
| TableFormat.DamageIsSeen | app/Tootti/Pods/leveldb-library/table/format.cc:64-139 | when one byte of a stored block or its type has changed, a reader that verifies checksums refuses the block |
| KnownBytes.FooterLayout | app/Tootti/Pods/leveldb-library/table/format.cc:31-40 | byte by byte: the handle of the metaindex, that of the index, padding, and the magic number with its low bytes first |
| KnownBytes.MagicIsChecked | app/Tootti/Pods/leveldb-library/table/format.cc:42-62 | nothing but a file that ends in the magic number is taken for a table |
| KnownBytes.TrailerLayout | app/Tootti/Pods/leveldb-library/table/table_builder.cc:177-194 | byte by byte: the type, and the masked checksum of contents and type |
| KnownBytes.FilterLayout | app/Tootti/Pods/leveldb-library/table/filter_block.cc:35-49 | byte by byte: the filters, their offsets, where those start, and the base |
| TableLayout.SearchIsNewest | app/Tootti/Pods/leveldb-library/table/table.cc:216-244 | one search in the index and one in the block find an entry of the user key exactly when the table has a visible one, and then the newest |
| TableBuilders.TableBuilder.Add | app/Tootti/Pods/leveldb-library/table/table_builder.cc:94-123 | one entry more, and a block is cut as soon as it is full; it fails only when what the entries so far cost is no less than the room |
| TableBuilders.TableBuilder.Flush | app/Tootti/Pods/leveldb-library/table/table_builder.cc:125-139 | the pending block is in the file, and everything added stays in order; it fails only when what the entries so far cost is no less than the room |
| TableBuilders.TableBuilder.WriteRawBlock | app/Tootti/Pods/leveldb-library/table/table_builder.cc:177-194 | the contents with type and checksum are at the handle, exactly when there is room for them |
| TableBuilders.TableBuilder.Finish | app/Tootti/Pods/leveldb-library/table/table_builder.cc:198-253 | a file whose footer leads to blocks that hold exactly what was added, each but the last just full, with separating index keys and a filter that covers all keys; it never fails with more room than a bound told from the entries |
| TableSizes.DataIsPaid | app/Tootti/Pods/leveldb-library/table/table_builder.cc:125-194 | however entries are cut into blocks, the blocks take no more than a cost told from the entries |
| TableSizes.IndexIsPaid | app/Tootti/Pods/leveldb-library/table/table_builder.cc:198-253 | and so for the index, whose keys are no longer than the last keys of the blocks |
| Tables.Open | app/Tootti/Pods/leveldb-library/table/table.cc:38-82 | a table over the blocks of the file, with the filter that its metaindex names, if the policy is the same |
| Tables.ReadMeta | app/Tootti/Pods/leveldb-library/table/table.cc:84-111 | the filter that was stored under the name of the policy; none under another name |
| Tables.Table.BlockReader | app/Tootti/Pods/leveldb-library/table/table.cc:155-208 | an iterator over the entries of the block that the index value leads to |
| Tables.Table.InternalGet | app/Tootti/Pods/leveldb-library/table/table.cc:216-244 | hands over the newest entry of the user key that is not after the snapshot exactly when there is one; the filter never hides it |
| Tables.BuildThenGet | app/Tootti/Pods/leveldb-library/db/builder.cc:17-77 | with room for a bound told from the entries, the table is built; every lookup in it answers from the entries it was built from, for any block size and restart interval, with a filter or without, up to 4 GiB |
| Tables.OpenThenGet | app/Tootti/Pods/leveldb-library/table/table.cc:216-244 | the same for opening and looking up alone, in a table of any size whose blocks are below 4 GiB each |
| Tables.SeesSnapshot | app/Tootti/Pods/leveldb-library/db/dbformat.cc:121-138 | a lookup key sees the versions of its user key up to its sequence number and no others |
| HandleTables.MaskIsRemainder | app/Tootti/Pods/leveldb-library/util/cache.cc:114-120 | for a length that is a power of two, the masked hash is the bucket |
| HandleTables.HandleTable.FindPointer | app/Tootti/Pods/leveldb-library/util/cache.cc:114-120 | the slot that holds the entry with this key and hash, or the end of its chain when there is none |
| HandleTables.HandleTable.Lookup | app/Tootti/Pods/leveldb-library/util/cache.cc:74-76 | the entry with this key and hash, none exactly when there is none |
| HandleTables.HandleTable.Insert | app/Tootti/Pods/leveldb-library/util/cache.cc:78-92 | takes the place of the entry with its key, or is one more; the table grows exactly when there are more entries than buckets |
| HandleTables.HandleTable.Remove | app/Tootti/Pods/leveldb-library/util/cache.cc:94-102 | the entry with this key is gone and all others are still found |
| HandleTables.HandleTable.Resize | app/Tootti/Pods/leveldb-library/util/cache.cc:122-147 | relinking every chain in place loses no entry; the new length is the least power of two from 4 on with at most one entry a bucket on average |
| LRUCaches.LruRemove | app/Tootti/Pods/leveldb-library/util/cache.cc:239-242 | the ring without the entry |
| LRUCaches.LruAppend | app/Tootti/Pods/leveldb-library/util/cache.cc:244-250 | the ring with the entry at its newest end |
| LRUCaches.LRUCache.Ref | app/Tootti/Pods/leveldb-library/util/cache.cc:217-223 | the first client moves the entry off the list of those that may be evicted |
| LRUCaches.LRUCache.Unref | app/Tootti/Pods/leveldb-library/util/cache.cc:225-237 | the last reference runs the deleter, once; the last client makes the entry evictable, as the newest |
| LRUCaches.LRUCache.FinishErase | app/Tootti/Pods/leveldb-library/util/cache.cc:307-316 | the entry leaves its ring and its charge; it is deleted now, or when its last client releases it |
| LRUCaches.LRUCache.Lookup | app/Tootti/Pods/leveldb-library/util/cache.cc:252-259 | a handle exactly when the key is cached, with one reference more |
| LRUCaches.LRUCache.Release | app/Tootti/Pods/leveldb-library/util/cache.cc:261-264 | one reference less; deleted exactly when it was erased and this was the last |
| LRUCaches.LRUCache.Insert | app/Tootti/Pods/leveldb-library/util/cache.cc:266-303 | the entry replaces the one with its key; then the oldest unused entries leave, as few as make it fit; usage is the sum of the charges of what is cached |
| LRUCaches.LRUCache.EvictUntilFits | app/Tootti/Pods/leveldb-library/util/cache.cc:293-300 | a prefix of the unused entries, the shortest that makes the rest fit, is deleted in order of age |
| LRUCaches.LRUCache.Erase | app/Tootti/Pods/leveldb-library/util/cache.cc:318-321 | the key is not cached any more; a held entry stays alive until it is released |
| LRUCaches.LRUCache.Prune | app/Tootti/Pods/leveldb-library/util/cache.cc:323-333 | all unused entries are deleted, and no others |
| VersionEdits.EncodeTo | app/Tootti/Pods/leveldb-library/db/version_edit.cc:41-85 | the fields of the edit in the order of the code |
| VersionEdits.DecodeFrom | app/Tootti/Pods/leveldb-library/db/version_edit.cc:107-205 | what the bytes decode to field by field, none for a corruption |
| VersionEdits.EditRoundTrip | app/Tootti/Pods/leveldb-library/db/version_edit.cc:107-205 | an edit that was encoded is decoded to the same edit, every field and list |
| VersionEdits.DecodedInLevels | app/Tootti/Pods/leveldb-library/db/version_edit.cc:107-205 | whatever the bytes are, an edit that is taken speaks of no level that does not exist |
| KnownBytes.FieldLayout | app/Tootti/Pods/leveldb-library/db/version_edit.cc:14-25 | byte by byte: the tag of each field and what it says |
| KnownBytes.FieldOrder | app/Tootti/Pods/leveldb-library/db/version_edit.cc:41-85 | the order of the fields |
| Manifest.Builder.Apply | app/Tootti/Pods/leveldb-library/db/version_set.cc:650-692 | the builder stands for the edits before and this one |
| Manifest.Builder.SaveTo | app/Tootti/Pods/leveldb-library/db/version_set.cc:695-739 | the version that all edits since the base make, whatever adds and deletes cancel |
| Manifest.VersionIsDetermined | app/Tootti/Pods/leveldb-library/db/version_set.cc:695-739 | a series of edits makes exactly one version |
| Manifest.SnapshotIsVersion | app/Tootti/Pods/leveldb-library/db/version_set.cc:1088-1116 | a snapshot record alone makes the version it was taken of |
| Manifest.VersionSet.WriteSnapshot | app/Tootti/Pods/leveldb-library/db/version_set.cc:1088-1116 | the record has the comparator and every file of every level |
| Manifest.VersionSet.LogAndApply | app/Tootti/Pods/leveldb-library/db/version_set.cc:801-884 | the manifest has one record more, which says what the edit says and the log numbers, the next file number and the last sequence number of this moment; the version in memory is the one that all its records make |
| Manifest.Recover | app/Tootti/Pods/leveldb-library/db/version_set.cc:886-1011 | from a manifest cut at any byte: the version and numbers of its whole records, or the error that the code gives when a number is missing or a record names another comparator |
| Manifest.Reopen | app/Tootti/Pods/leveldb-library/db/version_set.cc:886-1011 | recovery of a manifest gives back the files and log numbers of the database that wrote it, the last sequence number of its last record, and the file number after the one recorded |
| Manifest.NewDB | app/Tootti/Pods/leveldb-library/db/db_impl.cc:182-212 | the manifest of a new database is the log of its one record |
| Manifest.OpenNew | app/Tootti/Pods/leveldb-library/db/version_set.cc:886-1011 | a new database opens with no files and its first numbers |
| Manifest.OpenOther | app/Tootti/Pods/leveldb-library/db/version_set.cc:886-1011 | a new database that is opened with another comparator is refused |
| Pb.DefaultIsZero | app/Tootti/Pods/nanopb/pb_decode.c:839-921 | numbers start from zero, strings and blobs empty, bytes of a fixed length all zero |
| Pb.ZeroIsDefault | app/Tootti/Pods/nanopb/pb_encode.c:240-337 | a value that the encoder skips as zero is the one the decoder starts from |
| Pb.ScalarIsZero | app/Tootti/Pods/nanopb/pb_encode.c:240-337 | a number, string or blob is left out exactly when it is the default |
| Pb.MessageIsZero | app/Tootti/Pods/nanopb/pb_encode.c:240-337 | a message in a field is left out exactly when there is nothing to write of it |
| PbEncode.OStream.Write | app/Tootti/Pods/nanopb/pb_encode.c:103-124 | writes or only counts, and fails exactly when there is no room |
| PbEncode.EncodeVarint | app/Tootti/Pods/nanopb/pb_encode.c:608-628 | the varint of the number, written or counted |
| PbEncode.EncodeSubmessage | app/Tootti/Pods/nanopb/pb_encode.c:717-765 | the length that the counting pass finds, and as many bytes |
| PbEncode.EncodeArray | app/Tootti/Pods/nanopb/pb_encode.c:147-236 | packed with its size in front, or each entry with its tag |
| PbEncode.EncodeBasicField | app/Tootti/Pods/nanopb/pb_encode.c:341-426 | the field as its rule says: required, optional, implicit, repeated or one of a union |
| PbEncode.Encode | app/Tootti/Pods/nanopb/pb_encode.c:528-550 | writes the encoding of the message exactly when it fits, and counts as many bytes as it would write |
| PbEncode.GetEncodedSize | app/Tootti/Pods/nanopb/pb_encode.c:567-576 | the number of bytes that pb_encode writes |
| PbVarints.Varint32IsLow | app/Tootti/Pods/nanopb/pb_decode.c:187-247 | a number that the 32-bit decoder takes is the low 32 bits of the one that the 64-bit decoder takes, and ends at the same byte |
| PbVarints.ShortVarint32 | app/Tootti/Pods/nanopb/pb_decode.c:187-247 | a varint of at most five bytes is taken exactly when it is below 2^32 |
| PbVarints.LongVarint32 | app/Tootti/Pods/nanopb/pb_decode.c:187-247 | a longer one is taken exactly when every byte after the fifth is empty or extends the sign |
| PbVarints.FittingIsTaken | app/Tootti/Pods/nanopb/pb_decode.c:213-231 | every number that fits 32 bits, unsigned or sign-extended to 64, is taken |
| PbVarints.LostBits | app/Tootti/Pods/nanopb/pb_decode.c:220-242 | a six-byte varint of 2^35 - 1 is taken as 2^32 - 1 |
| PbVarints.MixedPadding | app/Tootti/Pods/nanopb/pb_decode.c:220-242 | a seven-byte varint whose padding is partly the sign and partly empty is taken as 2^32 - 1 |
| PbVarints.LongFits | app/Tootti/Pods/nanopb/pb_decode.c:220-242 | a longer varint fits exactly when its padding is even: all bytes after the fifth are empty and the fifth has no bit beyond 31, or it has ten bytes that all extend the sign |
| PbVarints.TakenFitsIff | app/Tootti/Pods/nanopb/pb_decode.c:187-247 | a number that is taken fits exactly when it has at most five bytes or even padding |
| PbDecode.IStream.DecodeVarint32 | app/Tootti/Pods/nanopb/pb_decode.c:187-247 | what the bytes of the stream hold as a 32-bit varint, by the loop over bit positions |
| PbDecode.IStream.DecodeVarint | app/Tootti/Pods/nanopb/pb_decode.c:255-275 | what they hold as a 64-bit varint of at most ten bytes |
| PbDecode.IStream.SkipField | app/Tootti/Pods/nanopb/pb_decode.c:278-331 | skips a value of any wire type, and fails exactly when it does not end in the stream |
| PbCommon.FieldIter.Find | app/Tootti/Pods/nanopb/pb_common.c:78-95 | the field with the tag, from wherever the iterator is, none exactly when there is none |
| PbDecode.DecodeField | app/Tootti/Pods/nanopb/pb_decode.c:406-483 | the message with the value stored or pushed, packed or not, up to the capacity of the array |
| PbDecode.DecodeSubmessage | app/Tootti/Pods/nanopb/pb_decode.c:1506-1528 | the message within its length, merged into what was decoded before |
| PbDecode.CheckRequired | app/Tootti/Pods/nanopb/pb_decode.c:1046-1071 | word by word: true exactly when every required field was seen |
| PbDecode.DecodeNoinit | app/Tootti/Pods/nanopb/pb_decode.c:928-1076 | the message that the tags and values of the stream make, none exactly when the code fails |
| PbDecode.Decode | app/Tootti/Pods/nanopb/pb_decode.c:1078-1090 | the same from defaults |
| PbRoundTrip.SlotWritten | app/Tootti/Pods/nanopb/pb_encode.c:341-426 | where a field was encoded, the decoder goes from the state of the fields before it to the state with it |
| PbRoundTrip.RoundTrip | app/Tootti/Pods/nanopb/pb_decode.c:1078-1090 | for every message type, nested to any depth, and every message of it whose length-prefixed parts are below 4 GiB each: decoding the encoding gives the same message |
| PbRoundTrip.SmallFits | app/Tootti/Pods/nanopb/pb_encode.c:717-765 | the parts of a message are below 4 GiB when its encoding is |
| PbExchange.Exchange | app/Tootti/Pods/nanopb/pb_encode.c:567-576 | sizing, encoding into a buffer of that size and decoding it, for any message with parts below 4 GiB: the size is exact and the message comes back |
| PbWire.EncodedIsRecords | app/Tootti/Pods/nanopb/pb_encode.c:608-765 | any reader of the format, without the descriptor, finds in an encoded message exactly the records of its fields: numbers, wire types and payloads, in order, arrays of numbers packed |
| PbWire.ItemIsRecord | app/Tootti/Pods/nanopb/pb_encode.c:669-706 | the key of an item has the wire type of its kind (0, 1, 2 or 5), by whose rule the value ends where the item ends |
| PbEvolution.ValueIsSkipped | app/Tootti/Pods/nanopb/pb_decode.c:320-331 | a value of any kind that was written is skipped by its wire type, to right behind it |
| PbEvolution.SkipIsRule | app/Tootti/Pods/nanopb/pb_decode.c:320-331 | of any bytes, what is skipped is one varint, eight bytes or four bytes, and other wire types than 0, 1, 2 and 5 are refused |
| PbEvolution.SubsetDecodes | app/Tootti/Pods/nanopb/pb_decode.c:928-1076 | a reader that knows any part of the fields gets from every message of the writer exactly what those fields hold |
| PbEvolution.ItemReplaces | app/Tootti/Pods/nanopb/pb_decode.c:406-483 | in any state the value of a field takes the place of the one before and of the other fields of its union, and nothing else changes: the last one wins |
| PbEvolution.ItemAppends | app/Tootti/Pods/nanopb/pb_decode.c:406-483 | in any state a value of an array that is not full is one more at its end |
| PbAccepts.DecodedFits | app/Tootti/Pods/nanopb/pb_decode.c:928-1076 | whatever the bytes are, what is decoded fits the descriptor: numbers in range, arrays, strings and blobs within their storage, at most one field of a union |
| PbAccepts.RequiredIsThere | app/Tootti/Pods/nanopb/pb_decode.c:1046-1071 | nothing is decoded from bytes in which the key of one of the first 64 required fields is nowhere |
| PbAccepts.FieldsIff | app/Tootti/Pods/nanopb/pb_encode.c:875-899 | a message that fits can be encoded exactly when no string in it has a zero byte |
| PbEvolution.AcceptedComesBack | app/Tootti/Pods/nanopb/pb_decode.c:1078-1090 | whatever was accepted, from any bytes, is encoded and decoded to the same message, if no string in it has a zero byte |
| PbAccepts.VarintTaken | app/Tootti/Pods/nanopb/pb_decode.c:1332-1367 | a signed field of 32 or 64 bits takes every varint by its low bits, a narrower one exactly what is then in its range |
| PbAccepts.UvarintTaken | app/Tootti/Pods/nanopb/pb_decode.c:1369-1391 | an unsigned field takes exactly what is in its range |
| PbAccepts.SvarintTaken | app/Tootti/Pods/nanopb/pb_decode.c:1274-1286 | even zigzag numbers are not negative, odd ones are, and exactly those in range are taken |
| PbAccepts.BoolTaken | app/Tootti/Pods/nanopb/pb_decode.c:1321-1330 | any number but zero is true |
| PbAccepts.ZeroEnds | app/Tootti/Pods/nanopb/pb_decode.c:928-1076 | a zero where a key should be ends the message |
| PbAccepts.TooFewEntries | app/Tootti/Pods/nanopb/pb_decode.c:928-1076 | a fixed-count array of two with one entry is refused |

## Left out

- Database.RunKeepsReads: has the hypothesis that every compaction of the run takes all that its inputs meet in the next level and leaves that level closed (`Closing`, `NextIsClosed`), which the code does not see to; without it the property is false, and Database.RunKeepsReadsIff is the exact statement.
- Database.CompactionPreservesReadsIff: where an output file ends and the next begins is any choice, of which the code's (output size, overlap with grandparents) is one.
- DB.DBImpl.Write: is a batch of one operation; KeyRanks.GroupIsRun and KeyRanks.CommitsAreWrites tie groups of batches to runs of such writes.
- DBImplementation.MergeInputs: merges the inputs two at a time; the merging iterator itself is MergingIterator.
- DBImplementation.PickCompaction: which level and file are chosen (scores, compact pointers, seeks that were charged to a file) is a parameter; the scores are floating point.
- Exposure.HarmlessIff: begins with empty memtables; entries that are in a memtable when the compaction begins are flushed as they are, and whether those meet an output depends on them, which Interruptions.InterruptedIsCompaction covers.
- Crashes.LifeReadsIff: recovery leaves what it finds in the memtable, from where the run flushes it; that recovery itself may flush it in several tables is in LogReplay.RecoverLogFile.
- Recovery.Recover: the files and counters of the manifest are given; Manifest.Reopen shows that they come back, and tables are whole because they are synced before they are recorded.
- Scans.NewInternalIterator: each child is a cursor over its run; that the iterators of memtables, tables and levels refine such cursors, and that DBIter may stand over a merging iterator as it stands over a cursor, is by their equal contracts.
- LogReader.Reader.ReadRecord: reads from the start of the log; a positive initial offset is not modelled.
- LogReplay.RecoverLogFile: which memtables are flushed during recovery, by their size, is any choice.
- SkipLists.Interleave: loads and stores are interleaved one at a time; what weaker memory orders allow beyond that is not modelled.
- MemTables.MemTable.Add: the memtable's table is a sorted sequence; the skip list is proved separately, over ranks of its keys.
- TableBuilders.TableBuilder.Add: the only I/O error is that there is no room.
- Tables.Table.BlockReader: has no block cache in front of it.
- Manifest.VersionSet.WriteSnapshot: compaction pointers are decoded and encoded, but the version set keeps none, as the level and file of a compaction are parameters.
- Tables.Open: opens files that a builder wrote; the errors for files that no builder wrote are not modelled.
- Tables.BuildThenGet: is for files up to 4 GiB; Tables.OpenThenGet is for any size.
- Bloom.BloomFilterPolicy.CreateFilter: the hash of a key is a parameter of the policy, so the result is for every hash.
- Crc32c.Extend: the tables are functions defined by the polynomial, not the literal constants, and the hardware path is not modelled.
- Merger.MergingIterator.Next: has any number of children; NewMergingIterator's shortcuts for none and one are not modelled.
- LRUCaches.LRUCache.Insert: is one shard; sharding by hash and the destructor are not modelled.
- PbDecode.IStream.DecodeVarint32: the bit position is a number without a limit; where uint_fast8_t has 8 bits it wraps around after 36 bytes.
- PbVarints.TakenFitsIff: is about varints of up to ten bytes, which have a 64-bit value.
- PbDecode.DecodeNoinit: a message type without fields skips every tag; in the code a tag with field number 0 matches the terminator of such a type.
- PbDecode.CheckRequired: the words of the bitmap are sequences of 32 booleans.
- PbRoundTrip.RoundTrip: fields are statically allocated with zero defaults, and a fixed-count array starts filled with them; callbacks, extensions, pointers and other defaults are not modelled.
- Entries whose internal key does not parse: a compaction keeps them, the model has none.
- I/O errors, background errors, shutting down, file names, locks and the environment; deleting obsolete files.
- RepairDB, DestroyDB, properties, approximate sizes, statistics and logging of messages.
- Read sampling in DBIter, and pinning of iterators and versions by reference counts.
- Snappy compression, mmap'd block contents, TableBuilder::ChangeOptions and Abandon.
- The snapshot list is a sequence, not a ring of pointers.
- The app's own screens, the Firebase headers and BoringSSL, which hold no state or format of this kind or come without their sources.
