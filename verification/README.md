# Verification of the vendored storage engine and message codec

The application vendors two pieces of infrastructure whose behaviour has a specification: LevelDB,
a log-structured key-value store, and nanopb, a codec for Protocol Buffers messages driven by field
descriptors. This project models both in Dafny and proves what they are for.

**The store.** A write goes through a queue whose head commits a group of batches to a log and a
memtable; memtables become tables; compactions merge tables down seven levels; a manifest of edits
makes the set of tables recoverable; cleanup deletes files nobody needs. A read at a snapshot has to
return the newest entry at or below it.

- Keys, Files, Versions: internal keys, levels, the level-order invariant, point reads.
- Compactions, CompactionInputs, CompactionWork, CompactionReads, LevelSteps, CompactionTheorems,
  SplitKey, SplitRun: the choice of inputs, the drop rules, what a compaction keeps, and when it does not.
- Builder, EditCodec, VersionSets: version edits, their encoding, the manifest and its recovery.
- Histories, Store, DbImpl: what a store that compacts still reads like, all its steps as a state machine,
  and the class that takes them.
- Durability, DurabilityProofs, Progress, ObsoleteFiles: the same store with its files, interleaved
  background work, cleanup, crashes and recovery; what every step keeps, and what can always be finished.
- GroupCommit, SequenceNumbers, ForcedSwitch, WriteBatches: the write queue, its numbering, and packed
  batches.
- LogFormat, LogWriter, LogReader, LogTheorems, LogReads: the log, byte by byte, whole, cut or damaged.
- Coding, KeyOrder, BlockFormat, BlockBuilders, BlockIter, Bloom, FilterBlock, TableFormat,
  TableBuilders, TableReaders, TwoLevel: tables, from varints to lookups, byte by byte.
- Cursors, Merger, InternalIterators, DbIter: iterators as cursors over sorted sets.
- HandleTables, LruCache, SkipLists, SkipListReads: the block cache and the memtable's skip list.

**The codec.** PbFormat holds descriptors, messages, the bytes an encoder writes and what a decoder
makes of any bytes; PbEncoder and PbDecoder are the streams and loops that do it; PbRoundTrip and
PbPrograms prove that messages survive. PbRequired, PbRange, PbLaws and PbVarints say what decoding any
bytes means: when it succeeds, that the result is in range, and what parts of messages add up to.

FormatSamples writes out the bytes of small values, so that the formats are not only those that the
encoders and decoders here agree on.

Code that updates state step by step is a class or a method with loops, proved against functions
and predicates on values; the lemmas are about those. User keys appear as positions in the
comparator's order where only their order matters (`KeyOrder.RankPreservesOrder` shows that this
loses nothing) and as byte strings where their bytes do.

## Findings

- **A compaction can bring a deleted value back.** Boundary files are added for the inputs of the
  level only (appLPS/Pods/leveldb-library/db/version_set.cc:1407 and 1422). When the versions of a
  user key are split across two files of the next level and only the newer one becomes an input, its
  deletion is dropped as obsolete at the base level while the older value stays.
  `SplitKey.DeletedValueComesBack` is such a version, with every choice made as the source makes it,
  and `SplitRun.ReachesResurfacing` a run of the store that comes to it and takes that compaction. The
  run needs one output file to end between the two versions, as it does when the user key itself is as
  long as an output file may be.
  `CompactionTheorems.CompactionKeepsReadsIff` gives the exact condition under which reads are kept,
  `ResurfacesIffSplit` states it by files, and `DurabilityProofs.InstallReadsIff` gives it for a
  compaction during which the store went on writing and flushing. The runs of Store and Durability take
  any compaction: the level order, cleanup and recovery do not depend on the condition, and reads are
  right for every user key that no compaction has brought back, or that has been written since
  (`Store.ReadsAreCorrect`, `Store.BackMeaning`, `DurabilityProofs.NothingIsLost`).
- **Reverse iteration may rest further back than its comment says.** The comment at
  appLPS/Pods/leveldb-library/db/db_iter.cc:47-49 puts the internal iterator just before all entries
  of the current key. It is at the last visible entry of a smaller user key, or at the end when there
  is none. `DbIter.LastKeyRestsEarly` is a list on which the two differ, and
  `DbIter.RestsJustBeforeIff` says when they agree: if and only if there is no entry before those of
  the current key or that one is visible. Every operation lands right all the same.
- **A lookup can end in the block before the answer.** The comment at
  appLPS/Pods/leveldb-library/include/leveldb/table.h:69-71 promises the entry found by Seek unless the
  filter says otherwise. `TableReaders.BuildsAndMisses` builds a table without a filter and asks for
  a key for which InternalGet reports nothing although an entry follows. `TableReader.InternalGet` states
  exactly when: if there is no such entry, the filter excludes the block, or the entry starts a block
  and the key is not past the separator in front of it. The entry missed never has the user key
  sought, so no read is affected.
- **A write without a batch may succeed without its memtable switch.** At the head of the queue it
  forces one (appLPS/Pods/leveldb-library/db/db_impl.cc:1196); taken into the group of an earlier
  leader it does not. `ForcedSwitch.SwitchedIff` says exactly when, `JoinsWithoutSwitch` is a run.
- **A 32-bit varint can overflow without an error.** The check at
  appLPS/Pods/nanopb/pb_decode.c:238-242 looks at the fifth byte only if it is the last, and the one at
  221-229 at later bytes only. `PbVarints.OverflowUnnoticed` is an encoding that is read as zero;
  `Varint32Is` says which encodings of up to ten bytes are accepted, and `ExactIff` which of those are
  read for what they stand for.
- **Numbers leave pending_outputs_ before the manifest names them.** Between WriteLevel0Table and the
  end of LogAndApply nothing protects the new table but the rule that one background call runs at a
  time; `DurabilityProofs.CleanupDuringInstallLosesTable` is a run to a state where cleanup would
  delete it.

## Model

| member | source | states |
|---|---|---|
| Keys.ViewIs | appLPS/Pods/leveldb-library/db/db_impl.cc:1100-1145 | The value a read has to return, the newest entry at or below the snapshot with a deletion counting as absent, does not depend on how the newest entry is picked |
| Keys.ViewOfNewer | appLPS/Pods/leveldb-library/db/db_impl.cc:1122-1134 | A source all of whose entries for the key are newer hides the sources after it as soon as it has one at or below the snapshot, and is transparent otherwise |
| Keys.FirstAtOrAfter | appLPS/Pods/leveldb-library/db/memtable.cc:100-134 | In a sorted table the first entry at or after (user key, snapshot, seek type) is the newest visible entry of the key, or the key has none |
| Files.FindFile | appLPS/Pods/leveldb-library/db/version_set.cc:88-106 | The binary search returns the first file whose largest key is not before the target: exactly the files before the index end before it |
| Files.SomeFileOverlapsRange | appLPS/Pods/leveldb-library/db/version_set.cc:116-155 | True if and only if some file meets the user-key range, by scan for overlapping files and by binary search for disjoint ones |
| Files.GetOverlappingInputs | appLPS/Pods/leveldb-library/db/version_set.cc:519-559 | At level 0 the result is the least set that holds every overlapping file and is closed under overlap, in spite of the restarts, which terminate; on other levels exactly the overlapping files |
| Versions.TableGetMeaning | appLPS/Pods/leveldb-library/db/version_set.cc:247-278 | A table lookup finds the newest visible entry of the key in that table, or there is none |
| Versions.LevelFileDecides | appLPS/Pods/leveldb-library/db/version_set.cc:363-385 | On a sorted level the one file found by binary search holds an entry at least as new as any visible entry of the key elsewhere on the level, also when the versions of a key are split across adjacent files |
| Versions.SortNewestFirst | appLPS/Pods/leveldb-library/db/version_set.cc:349-362 | Level-0 candidates are searched in descending file number, none lost |
| Versions.FoundInFile | appLPS/Pods/leveldb-library/db/version_set.cc:326-421 | Stopping early is right: with nothing visible on shallower levels, the newest entry of the level is the newest of the version |
| Versions.Get | appLPS/Pods/leveldb-library/db/version_set.cc:326-421 | Under the level-order invariant a version read returns the newest visible entry over all seven levels, and says correctly whether there is one |
| Compactions.PickLevelForMemTableOutput | appLPS/Pods/leveldb-library/db/version_set.cc:491-516 | A flush goes to a level up to 2 that overlaps nothing down to and including it, over at most ten files' worth of bytes two levels below; it stops only where the next level overlaps, or too many bytes lie below that |
| Compactions.GetRange | appLPS/Pods/leveldb-library/db/version_set.cc:1205-1222 | The smallest and the largest key of the inputs |
| Compactions.SizesAdd | appLPS/Pods/leveldb-library/db/version_set.cc:60-66 | The size of a list of files is the sum of their sizes |
| Compactions.FindLargestKey | appLPS/Pods/leveldb-library/db/version_set.cc:1344-1358 | The largest key of a list of files, none exactly for the empty list |
| Compactions.FindSmallestBoundaryFile | appLPS/Pods/leveldb-library/db/version_set.cc:1360-1376 | The first file of the level that starts after the key but with the same user key, none only if there is no such file |
| Compactions.AddBoundaryInputs | appLPS/Pods/leveldb-library/db/version_set.cc:1378-1401 | Files that go on with the last user key are added, one after the other and no others, until the next file does not; the inputs stay a contiguous part of a sorted level |
| CompactionInputs.ClosedInputsAreOldest | appLPS/Pods/leveldb-library/db/version_set.cc:1360-1401 | After closing, no file that stays behind at the level holds an older entry of a user key of the inputs |
| CompactionInputs.OverlappingIsSlice | appLPS/Pods/leveldb-library/db/version_set.cc:519-559 | On a sorted level the overlapping files are a contiguous slice |
| CompactionInputs.CloseInputs | appLPS/Pods/leveldb-library/db/version_set.cc:1403-1407 | The start of a compaction with exactly the files that go on with its last user key is closed; at level 0 it is left as it is |
| CompactionInputs.Compaction.SetupOtherInputs | appLPS/Pods/leveldb-library/db/version_set.cc:1403-1462 | The start is closed; inputs of the next level are exactly the files that meet it; the files of the level that meet both are taken instead if they are more, stay under 25 file sizes and leave the next level alone, and only then; grandparents are the files of level+2 that meet both |
| CompactionInputs.Expand | appLPS/Pods/leveldb-library/db/version_set.cc:1418-1447 | Exactly when the expansion is taken: it is larger, below the byte limit, and does not change the inputs of the next level |
| CompactionInputs.SameLowerInputs | appLPS/Pods/leveldb-library/db/version_set.cc:1424-1426 | Comparing the number of next-level files is enough: equal numbers mean the same files |
| CompactionInputs.Compaction.IsBaseLevelForKey | appLPS/Pods/leveldb-library/db/version_set.cc:1533-1552 | With pointers that only advance over ascending user keys, true if and only if no file of a level deeper than level+1 covers the key |
| CompactionInputs.PickFile | appLPS/Pods/leveldb-library/db/version_set.cc:1285-1300 | The file picked is the first one past the compaction pointer, or the first of the level when none is past it, or the given seek file |
| CompactionInputs.StartWith | appLPS/Pods/leveldb-library/db/version_set.cc:1303-1317 | One file, and at level 0 everything that overlaps it, is a legal start |
| CompactionInputs.PickCompaction | appLPS/Pods/leveldb-library/db/version_set.cc:1270-1322 | The file picked is the seek file, or the first past the pointer, or the first of all; the compaction starts with it, at level 0 with the least closed set around it, and the largest key becomes the pointer |
| CompactionInputs.PrefixWithin | appLPS/Pods/leveldb-library/db/version_set.cc:1472-1487 | A manual compaction keeps the shortest prefix of its inputs that reaches the size limit |
| CompactionInputs.CompactRange | appLPS/Pods/leveldb-library/db/version_set.cc:1464-1495 | A manual compaction exists if and only if something in the level overlaps the range. It starts with the first files that meet the range, up to and including the one that reaches the size limit, at level 0 with the least closed set, and goes on as every compaction does |
| CompactionWork.ShouldDrop | appLPS/Pods/leveldb-library/db/db_impl.cc:934-964 | An entry is dropped exactly under rule (A), a newer entry of the key at or below the smallest snapshot came before it, or as a deletion at or below the snapshot at the base level for its key |
| CompactionWork.KeptIff | appLPS/Pods/leveldb-library/db/db_impl.cc:921-1003 | For each entry by itself: it is kept unless a newer entry of its key is visible at the smallest snapshot, or it is a deletion visible there with no file two or more levels below that covers its key |
| CompactionWork.DoCompactionWork | appLPS/Pods/leveldb-library/db/db_impl.cc:890-1009 | Driving the merging iterator over the inputs, the outputs, cut anywhere, are together exactly the entries that the drop rules keep, in order, in consecutively numbered non-empty files with matching bounds |
| CompactionWork.OutputsAreSorted | appLPS/Pods/leveldb-library/db/db_impl.cc:989-1003 | The output files are valid, disjoint and in order |
| CompactionReads.ReadsKeptIff | appLPS/Pods/leveldb-library/db/db_impl.cc:927-999 | Dropping entries keeps every read at or above the smallest snapshot if and only if no user key resurfaces: none has its newest visible entry a dropped deletion while an older value stays outside the inputs |
| CompactionReads.RecentAreKept | appLPS/Pods/leveldb-library/db/db_impl.cc:934-964 | No entry above the smallest snapshot is ever dropped |
| Histories.ReadsLikeOnTop | appLPS/Pods/leveldb-library/db/db_impl.cc:1203-1235 | New entries on top keep a store reading like its history, and settle the keys they are for |
| Histories.ReadsLikeAfter | appLPS/Pods/leveldb-library/db/db_impl.cc:890-999 | Dropping entries at or below the horizon keeps a store reading like its history, the keys brought back excused until they are written again |
| CompactionTheorems.CompactionKeepsOrder | appLPS/Pods/leveldb-library/db/db_impl.cc:860-876 | Installing a merging compaction keeps the level-order invariant and adds no entry |
| CompactionTheorems.CompactionKeepsReadsIff | appLPS/Pods/leveldb-library/db/db_impl.cc:890-999 | A merging compaction keeps all reads at or above the smallest snapshot if and only if no user key resurfaces; the condition can be checked before the compaction is installed |
| CompactionTheorems.ResurfacesFromNextLevel | appLPS/Pods/leveldb-library/db/version_set.cc:1403-1447 | The only way a key can resurface: its dropped deletion comes from a next-level input and the older value from a file of the next level that is not an input |
| CompactionTheorems.ResurfacesIffSplit | appLPS/Pods/leveldb-library/db/version_set.cc:1403-1447 | The condition by files: a key resurfaces if and only if its newest visible entry is a deletion in a next-level input at the base level and its newest one in the next-level files left out is a value |
| CompactionTheorems.CompactionKeepsReads | appLPS/Pods/leveldb-library/db/db_impl.cc:890-999 | Reads are kept when no file left on the next level shares a user key with the next-level inputs |
| CompactionTheorems.MoveKeepsOrder | appLPS/Pods/leveldb-library/db/db_impl.cc:718-733 | A trivial move keeps the invariant and the entries |
| CompactionTheorems.FlushEditFlushes | appLPS/Pods/leveldb-library/db/db_impl.cc:491-533 | The edit of a memtable flush adds the new file at its level and changes nothing else |
| LevelSteps.ShiftKeepsOrder | appLPS/Pods/leveldb-library/db/version_set.cc:1403-1447 | Replacing closed inputs of two adjacent levels by files made of their entries keeps levels sorted, disjoint and ordered by age |
| LevelSteps.FlushKeepsOrder | appLPS/Pods/leveldb-library/db/version_set.cc:491-516 | A newer file added at a level that it may go to keeps the invariant and adds exactly its entries |
| SplitKey.DeletedValueComesBack | appLPS/Pods/leveldb-library/db/db_impl.cc:949-961 | A concrete version on which the invariant holds before and after, and a compaction chosen as the source chooses it makes a deleted key readable again |
| SplitRun.ReachesResurfacing | appLPS/Pods/leveldb-library/db/db_impl.cc:890-999 | A run of the store from empty, of writes, flushes, a snapshot and two compactions of level 1, the first cutting its outputs between two versions of a key, at whose end a deleted key can be read |
| Builder.Builder.Apply | appLPS/Pods/leveldb-library/db/version_set.cc:650-690 | Applying an edit to a builder adds its deletions, adds its files, and takes the numbers of the added files back out of the deletions |
| Builder.MergeLevel | appLPS/Pods/leveldb-library/db/version_set.cc:699-711 | Merging base files with added files and leaving out the deleted ones gives exactly the survivors, in order |
| Builder.Builder.SaveTo | appLPS/Pods/leveldb-library/db/version_set.cc:692-733 | The saved version has on every level exactly the surviving files, by smallest key |
| Builder.BuildVersion | appLPS/Pods/leveldb-library/db/version_set.cc:817-822 | The next version is the old one with the edit applied level by level, each in the order of smallest keys, then numbers |
| Builder.WriteSnapshot | appLPS/Pods/leveldb-library/db/version_set.cc:1088-1116 | The snapshot record lists every file of the version and deletes none |
| Builder.ReplayedIsLive | appLPS/Pods/leveldb-library/db/version_set.cc:650-754 | Level by level, replaying a snapshot and any number of edits with one builder gives the live files |
| Builder.ReplayEqualsLive | appLPS/Pods/leveldb-library/db/version_set.cc:886-998 | What one builder makes of a snapshot and any initial part of the edits is the live version at that point |
| VersionSets.VersionSet.LogAndApply | appLPS/Pods/leveldb-library/db/version_set.cc:801-884 | The record logged has the next file and last sequence numbers of before, the log numbers of the edit or those of before, and the files of the edit; a snapshot of the version before comes first if it is the first record; the manifest then holds the history of the new current version |
| VersionSets.VersionSet.WriteSnapshot | appLPS/Pods/leveldb-library/db/version_set.cc:1088-1116 | The first record names the comparator and replays to exactly the files of the current version |
| VersionSets.Recover | appLPS/Pods/leveldb-library/db/version_set.cc:886-998 | From the manifest cut at any byte, recovery gives the version after the last complete edit and the numbers that edit says, or that the next file number is missing when there is none |
| VersionSets.Conclude | appLPS/Pods/leveldb-library/db/version_set.cc:962-995 | After all complete records: the version built and the last numbers logged, or which number is missing |
| VersionSets.Reopen | appLPS/Pods/leveldb-library/db/version_set.cc:801-998 | Recovering a whole manifest gives the live version, log numbers and last logged sequence number back, and a file number above the logged one |
| VersionSets.LogAndReopen | appLPS/Pods/leveldb-library/db/version_set.cc:801-998 | A process that stops right after an edit goes on with the same version, last sequence and log numbers, and a file number above every one handed out |
| Store.NextKeepsInv | appLPS/Pods/leveldb-library/db/db_impl.cc:535-760 | Every write, memtable switch, flush, trivial move, merging compaction and snapshot operation keeps the invariant, whatever a compaction brings back |
| Store.WriteIsRead | appLPS/Pods/leveldb-library/db/write_batch.cc:121-128 | After a write step the last operation on a key decides what it reads as: its value for a Put, absent for a Delete |
| Store.WriteLeavesOthers | appLPS/Pods/leveldb-library/db/write_batch.cc:121-128 | Keys outside the batch read as before, and so does every key at earlier sequence numbers |
| Store.RunKeepsInv | appLPS/Pods/leveldb-library/db/db_impl.cc:535-760 | In every state of every run the levels are ordered, memory is newer than the tables, nothing above the largest snapshot used by a compaction is lost, and settled keys read like everything ever written |
| Store.ReadsAreCorrect | appLPS/Pods/leveldb-library/db/db_impl.cc:1100-1145 | In every state of every run, at any snapshot still held, a read of a user key that no compaction has brought back, or that was written since, returns the newest entry at or below it among everything ever written |
| Store.BackMeaning | appLPS/Pods/leveldb-library/db/db_impl.cc:890-999 | The excused keys are exactly those that some compaction of the run brought back |
| Store.UntouchedKeysReadRight | appLPS/Pods/leveldb-library/db/db_impl.cc:1100-1145 | A user key that no compaction of the run brought back reads right at every snapshot still held |
| Store.WrittenSinceReadsRight | appLPS/Pods/leveldb-library/db/db_impl.cc:1100-1145 | In every run a key reads right from the moment it is written until a later compaction brings it back |
| Store.SnapshotsAreStable | appLPS/Pods/leveldb-library/db/db_impl.cc:1166-1175 | What a snapshot reads never changes while it is held, for the keys that are settled at the end |
| DbImpl.InsertEntry | appLPS/Pods/leveldb-library/db/memtable.cc:75-98 | Adding to a memtable keeps it sorted and adds exactly the entry |
| DbImpl.MemGetMeaning | appLPS/Pods/leveldb-library/db/memtable.cc:100-134 | A memtable lookup finds the newest visible entry of the key, or there is none |
| DbImpl.DBImpl.Write | appLPS/Pods/leveldb-library/db/db_impl.cc:1185-1230 | A batch goes into the memtable under consecutive new sequence numbers; then a key reads as its last operation in the batch says, a Put as present even if empty, and every other key reads as before |
| DbImpl.DBImpl.SwitchMemTable | appLPS/Pods/leveldb-library/db/db_impl.cc:1344-1365 | The full memtable becomes immutable and an empty one takes its place |
| DbImpl.DBImpl.CompactMemTable | appLPS/Pods/leveldb-library/db/db_impl.cc:535-566 | The immutable memtable becomes a table by a flush step, at the level its key range suits, or nothing when it is empty |
| DbImpl.DBImpl.RunCompaction | appLPS/Pods/leveldb-library/db/db_impl.cc:712-747 | A file is moved exactly when the compaction is not manual, the file is the only input and it meets at most ten file sizes two levels below; otherwise the inputs are merged; either is a step of the store and keeps the object valid |
| DbImpl.DBImpl.GetSnapshot | appLPS/Pods/leveldb-library/db/db_impl.cc:1166-1169 | A snapshot is taken at the last sequence number |
| DbImpl.DBImpl.ReleaseSnapshot | appLPS/Pods/leveldb-library/db/db_impl.cc:1171-1175 | Exactly one entry for the snapshot is given up |
| DbImpl.DBImpl.Get | appLPS/Pods/leveldb-library/db/db_impl.cc:1100-1145 | Memtable, then immutable memtable, then tables: the newest entry at or below the snapshot of everything reachable, and of everything ever written for keys that are settled |
| DbImpl.DBImpl.NewIterator | appLPS/Pods/leveldb-library/db/db_impl.cc:1147-1156 | An iterator over the merging iterator over memtables and tables: its entries are exactly those reachable, and read like the whole history for keys that are settled |
| InternalIterators.MakeInputIterator | appLPS/Pods/leveldb-library/db/version_set.cc:1237-1268 | The merging iterator over the inputs of a compaction, level-0 files one by one and other levels concatenated, is well formed and ranges over exactly their entries |
| InternalIterators.TableChildren | appLPS/Pods/leveldb-library/db/version_set.cc:230-246 | The children for a version are sorted, share no key, and hold exactly its entries |
| InternalIterators.ReachableChildren | appLPS/Pods/leveldb-library/db/db_impl.cc:1062-1085 | The same together with the memtables |
| Merger.MergingIterator.FindSmallest | appLPS/Pods/leveldb-library/table/merger.cc:148-161 | The current child holds the smallest key among the children |
| Merger.MergingIterator.FindLargest | appLPS/Pods/leveldb-library/table/merger.cc:163-176 | The current child holds the largest key among the children |
| Merger.MergingIterator.SeekToFirst | appLPS/Pods/leveldb-library/table/merger.cc:31-37 | Lands on the smallest entry of the union |
| Merger.MergingIterator.SeekToLast | appLPS/Pods/leveldb-library/table/merger.cc:39-45 | Lands on the largest entry of the union |
| Merger.MergingIterator.Seek | appLPS/Pods/leveldb-library/table/merger.cc:47-53 | Lands on the first entry of the union at or after the target |
| Merger.MergingIterator.Next | appLPS/Pods/leveldb-library/table/merger.cc:55-79 | Lands on the successor in the union, whatever the direction before |
| Merger.MergingIterator.Prev | appLPS/Pods/leveldb-library/table/merger.cc:81-108 | Lands on the predecessor in the union, whatever the direction before |
| Merger.MergesLikeOneList | appLPS/Pods/leveldb-library/table/merger.cc:31-108 | Landing so makes the merging iterator indistinguishable from the cursor over the one merged list |
| Cursors.AgreesWithList | appLPS/Pods/leveldb-library/table/merger.cc:31-108 | Positions in a set of entries with different keys are those of the cursor over its sorted list |
| DbIter.DBIter.FindNextUserEntry | appLPS/Pods/leveldb-library/db/db_iter.cc:168-198 | From any state of a forward scan, stops at the first user key in scope whose newest visible entry is a value, with that value |
| DbIter.DBIter.FindPrevUserEntry | appLPS/Pods/leveldb-library/db/db_iter.cc:227-267 | From any state of a backward scan, stops with the last user key in scope whose newest visible entry is a value, holding that value, the internal position at the last visible entry of a smaller user key, or at the end when there is none |
| DbIter.DBIter.SeekToFirst | appLPS/Pods/leveldb-library/db/db_iter.cc:283-292 | The first visible user key and its value, or invalid if there is none |
| DbIter.DBIter.SeekToLast | appLPS/Pods/leveldb-library/db/db_iter.cc:294-299 | The last visible user key and its value, or invalid if there is none |
| DbIter.DBIter.Seek | appLPS/Pods/leveldb-library/db/db_iter.cc:269-281 | The first visible user key at or after the target |
| DbIter.DBIter.Next | appLPS/Pods/leveldb-library/db/db_iter.cc:141-166 | The next visible user key, also after moving backward |
| DbIter.DBIter.Prev | appLPS/Pods/leveldb-library/db/db_iter.cc:200-225 | The previous visible user key, also after moving forward |
| DbIter.RestsJustBeforeIff | appLPS/Pods/leveldb-library/db/db_iter.cc:41-49 | After a backward step the internal iterator is just before the entries of the current key, as the comment says, if and only if there is no entry before them or that one is visible |
| DbIter.LastKeyRestsEarly | appLPS/Pods/leveldb-library/db/db_iter.cc:41-49 | A list of three keys on which SeekToLast leaves it one entry further back |
| DbIter.ShownIsPresent | appLPS/Pods/leveldb-library/db/db_iter.cc:168-198 | A newest visible entry that is a value is what a read of its key returns |
| LogWriter.Writer.constructor | appLPS/Pods/leveldb-library/db/log_writer.cc:23-30 | A writer starts at the offset in the block that the length of the file gives |
| LogWriter.Writer.AddRecord | appLPS/Pods/leveldb-library/db/log_writer.cc:34-80 | Appends exactly the fragments of the record, with trailers where a header no longer fits, and keeps the block offset right |
| LogWriter.Writer.EmitPhysicalRecord | appLPS/Pods/leveldb-library/db/log_writer.cc:82-108 | Appends one physical record: masked checksum of type and payload, length, type, payload |
| LogFormat.LogInTwoSessions | appLPS/Pods/leveldb-library/db/log_writer.cc:23-30 | Records written in two sessions make the same file as in one |
| LogFormat.RoomAfterEmpty | appLPS/Pods/leveldb-library/db/log_writer.cc:53-76 | After a fragment without payload the next one has room, so fragmenting ends |
| LogReader.Reader.ReadPhysicalRecord | appLPS/Pods/leveldb-library/db/log_reader.cc:189-271 | The loop over buffered blocks delivers the physical record that the file holds at the reader position, or end of file, or a bad record with its report |
| LogReader.Reader.ReadRecord | appLPS/Pods/leveldb-library/db/log_reader.cc:56-174 | The loop over fragments delivers the logical record that the pure reader delivers, with the same reports, for any file |
| LogTheorems.ParsesRecord | appLPS/Pods/leveldb-library/db/log_reader.cc:217-271 | A physical record in place is read back, and one that the file ends within is taken for the end of the file |
| LogTheorems.ReadsFragment | appLPS/Pods/leveldb-library/db/log_reader.cc:189-271 | Trailer, block boundary and partly written header included, a fragment is read or taken for the end of the file |
| LogTheorems.ReadsRecord | appLPS/Pods/leveldb-library/db/log_reader.cc:56-174 | What is left of a record is read to its end across blocks, or nothing is returned and nothing reported |
| LogTheorems.CompleteIs | appLPS/Pods/leveldb-library/db/log_reader.cc:56-174 | The records counted as complete are exactly those whose last byte is in the file |
| LogTheorems.CrashPrefix | appLPS/Pods/leveldb-library/db/log_reader.cc:56-174 | From any byte prefix of a log the reader returns exactly the records that are completely in it and reports no corruption |
| LogTheorems.WriteAndRead | appLPS/Pods/leveldb-library/db/log_reader.cc:56-174 | Records written one by one, cut at any byte and read one by one: exactly those complete in the file come back, and nothing is reported |
| LogTheorems.RoundTrip | appLPS/Pods/leveldb-library/db/log_reader.cc:56-174 | The reader returns exactly the records written, over any number of sessions, and reports no corruption |
| LogReads.DeliversIntact | appLPS/Pods/leveldb-library/db/log_reader.cc:189-271 | With checksums on, a record that is complete in its block and has the right checksum is delivered as it is |
| LogReads.SkipsTheRest | appLPS/Pods/leveldb-library/db/log_reader.cc:214-262 | Anything else costs the rest of the block: reported, except for a record cut off by the end of the file and for room set aside |
| LogReads.RecordsAreRuns | appLPS/Pods/leveldb-library/db/log_reader.cc:60-176 | Whatever the file holds, the records read are exactly the unbroken runs of physical records, full or first, middle and last, in order |
| LogReads.BytesAreAccounted | appLPS/Pods/leveldb-library/db/log_reader.cc:60-187 | Every byte of payload in the file is in a record or in a report, except those of a record that the file ends in |
| Coding.FixedRoundTrip | appLPS/Pods/leveldb-library/util/coding.cc:9-33 | Fixed-width integers read back modulo their width |
| Coding.UnmaskInvertsMask | appLPS/Pods/leveldb-library/util/crc32c.h:29-38 | Unmasking a masked checksum gives it back |
| Coding.MaskInvertsUnmask | appLPS/Pods/leveldb-library/util/crc32c.h:25-33 | Masking an unmasked checksum gives it back, so every checksum on disk stands for one |
| Coding.VarintRoundTrip | appLPS/Pods/leveldb-library/util/coding.cc:81-90 | A varint reads back from the front of any input within the byte limit |
| Coding.EncodeVarint32 | appLPS/Pods/leveldb-library/util/coding.cc:47-73 | The unrolled 32-bit encoder writes the same bytes as the loop |
| Coding.EncodeVarint64 | appLPS/Pods/leveldb-library/util/coding.cc:81-90 | The encoding loop writes the base-128 digits, lowest first |
| Coding.DecodeVarint | appLPS/Pods/leveldb-library/util/coding.cc:112-169 | The decoding loops with their shifts and truncation return the value modulo the width and the rest of the input, or fail when the limit or the input ends first |
| FormatSamples.VarintLengths | appLPS/Pods/leveldb-library/util/coding.cc:108-160 | A varint of 32 bits has to end within five bytes, one of 64 bits within ten |
| Coding.LengthPrefixedRoundTrip | appLPS/Pods/leveldb-library/util/coding.cc:98-101 | A length-prefixed string reads back |
| EditCodec.EncodeTo | appLPS/Pods/leveldb-library/db/version_edit.cc:41-85 | The bytes written decode to exactly the edit, whatever order its deleted files are written in |
| EditCodec.DecodeFrom | appLPS/Pods/leveldb-library/db/version_edit.cc:107-205 | The loop over tagged fields gives the edit or the error that field-by-field reading gives |
| EditCodec.RoundTrip | appLPS/Pods/leveldb-library/db/version_edit.cc:41-205 | Reading an encoded edit gives the edit, whatever the order of its deletions |
| EditCodec.DecodedReadsBack | appLPS/Pods/leveldb-library/db/version_edit.cc:96-209 | Whatever bytes decode give levels below 7 and numbers in range, and the edit read can be written and read again |
| EditCodec.UnknownTag | appLPS/Pods/leveldb-library/db/version_edit.cc:107-200 | A tag that is not in use, and bytes that are no tag, make decoding fail |
| EditCodec.ManifestPrefix | appLPS/Pods/leveldb-library/db/version_set.cc:924-960 | A manifest cut at any byte yields an initial part of the logged edits, each unchanged, without a corruption report; a whole one yields all |
| DurabilityProofs.FaithfulGrows | appLPS/Pods/leveldb-library/db/db_impl.cc:1213-1225 | Entries appended to a log that a manifest replays are recovered with it |
| DurabilityProofs.InstallReadsIff | appLPS/Pods/leveldb-library/db/db_impl.cc:860-876 | With flushes and writes in between, installing exactly what the drop rules left of the inputs keeps all reads from the smallest snapshot on if and only if no deleted value resurfaces from the files and logs there are by then |
| DurabilityProofs.CompactedReadsLike | appLPS/Pods/leveldb-library/db/db_impl.cc:860-876 | What any installation leaves still reads like the history, apart from the keys it brings back, and has lost nothing above its snapshot |
| DurabilityProofs.NextKeepsInv | appLPS/Pods/leveldb-library/db/db_impl.cc:223-566 | Every step of logging, switching, flushing, compacting, installing, cleaning up, crashing and reopening keeps the invariant, whatever an installation brings back |
| DurabilityProofs.RunKeepsInv | appLPS/Pods/leveldb-library/db/db_impl.cc:223-566 | The invariant holds in every state of every run, over any number of crashes |
| DurabilityProofs.NothingIsLost | appLPS/Pods/leveldb-library/db/db_impl.cc:280-369 | At any moment of any run a crash leaves every table that the manifest names and every entry above the largest snapshot used by an installed compaction, and recovery rebuilds something that reads like everything ever logged for keys that are settled |
| DurabilityProofs.BackMeaning | appLPS/Pods/leveldb-library/db/db_impl.cc:860-876 | Only keys that some installation of the run brought back are excused |
| DurabilityProofs.UntouchedKeysAreKept | appLPS/Pods/leveldb-library/db/db_impl.cc:280-369 | A key that no installation brought back reads after recovery like everything ever logged |
| DurabilityProofs.NothingInUseIsDeleted | appLPS/Pods/leveldb-library/db/db_impl.cc:223-278 | Tables of listed versions and finished compaction outputs are on disk, and entries still in a memtable are in an undeleted log at or above the log number |
| DurabilityProofs.RunningStoreReadsRight | appLPS/Pods/leveldb-library/db/db_impl.cc:1100-1145 | A store brought up by a recovery numbers its next batch above everything ever logged, and reads settled keys right |
| DurabilityProofs.CleanupDuringInstallLosesTable | appLPS/Pods/leveldb-library/db/db_impl.cc:491-566 | A run of a new store, from its first write to LogAndApply of its first flush, at whose end the files cleanup may delete include the table about to be named; the rule of one background call excludes every cleanup step there |
| Progress.CrashAtAnyTime | appLPS/Pods/leveldb-library/db/db_impl.cc:280-369 | The process may stop in any state and what is on disk stays |
| Progress.RecoveryCompletes | appLPS/Pods/leveldb-library/db/db_impl.cc:280-369 | From whatever a crash leaves behind in any reachable state, recovery can go on to a running store with everything that was logged |
| Progress.WriteCompletes | appLPS/Pods/leveldb-library/db/db_impl.cc:1185-1230 | Entries with new numbers can be logged and inserted whenever no other group is in flight |
| Progress.SwitchIsPossible | appLPS/Pods/leveldb-library/db/db_impl.cc:1345-1366 | The memtable can be switched once the last one has been flushed and no group is in flight |
| Progress.FlushCompletes | appLPS/Pods/leveldb-library/db/db_impl.cc:491-584 | An immutable memtable can be written out and installed, after which its logs are not needed |
| Progress.CompactionBegins | appLPS/Pods/leveldb-library/db/db_impl.cc:712-747 | Any files of two neighbouring levels of the current version may be compacted while nothing else goes on in the background |
| Progress.CompactionCompletes | appLPS/Pods/leveldb-library/db/db_impl.cc:859-1003 | A compaction that has started can be finished: its inputs give way to what the drop rules leave of them |
| Progress.ReadersComeAndGo | appLPS/Pods/leveldb-library/db/db_impl.cc:1100-1145 | A reader can hold on to the current version and let go of it at any time, and leaves no trace |
| ObsoleteFiles.Directory.DeleteObsoleteFiles | appLPS/Pods/leveldb-library/db/db_impl.cc:223-278 | Without a background error the manifest in use and newer ones stay, logs stay from the log number on and the previous log, tables and temporary files stay if and only if they are live, CURRENT, LOCK and info logs stay; all else goes. After an error everything stays |
| ObsoleteFiles.CleanupIsCollect | appLPS/Pods/leveldb-library/db/db_impl.cc:223-278 | Cleanup is the collection step, and a complete one: no obsolete table or log is left |
| WriteBatches.WriteBatch.Put | appLPS/Pods/leveldb-library/db/write_batch.cc:98-103 | Appends a value record and counts it |
| WriteBatches.WriteBatch.Delete | appLPS/Pods/leveldb-library/db/write_batch.cc:105-109 | Appends a deletion record and counts it |
| WriteBatches.WriteBatch.Append | appLPS/Pods/leveldb-library/db/write_batch.cc:144-148 | Appends the records of the other batch and adds up the counts |
| WriteBatches.WriteBatch.SetSequence | appLPS/Pods/leveldb-library/db/write_batch.cc:94-96 | Changes the sequence number and nothing else |
| WriteBatches.InsertInto | appLPS/Pods/leveldb-library/db/write_batch.cc:42-80 | Hands the records to the memtable under consecutive sequence numbers, up to the first malformed one, and reports malformed batches and wrong counts |
| WriteBatches.RoundTrip | appLPS/Pods/leveldb-library/db/write_batch.cc:42-80 | Iterating a batch gives exactly the records put into it |
| WriteBatches.IterateStatus | appLPS/Pods/leveldb-library/db/write_batch.cc:42-80 | A batch is refused when it is too short, when its count is wrong, and at a record that is neither a Put nor a Delete |
| WriteBatches.AppendIteratesInOrder | appLPS/Pods/leveldb-library/db/write_batch.cc:42-148 | Iterating an appended batch gives the records of the one, then of the other |
| GroupCommit.GroupIsGood | appLPS/Pods/leveldb-library/db/db_impl.cc:1260-1306 | The group takes no sync writer unless its leader syncs, stays within the limit apart from the leader, and is the longest such prefix of the queue |
| GroupCommit.BuildBatchGroup | appLPS/Pods/leveldb-library/db/db_impl.cc:1260-1306 | The group batch holds the records of the group in queue order; the batches of the callers are not touched |
| GroupCommit.NextKeepsInv | appLPS/Pods/leveldb-library/db/db_impl.cc:1185-1256 | Arrivals, refusals, logging, inserting and finishing keep the invariant in every interleaving |
| GroupCommit.WritesAreSerial | appLPS/Pods/leveldb-library/db/db_impl.cc:1185-1256 | The memtable holds, in order of arrival, exactly the batches of the writers that succeeded and possibly those of the group being finished |
| GroupCommit.NumbersIncrease | appLPS/Pods/leveldb-library/db/db_impl.cc:1203-1235 | Sequence numbers increase through the memtable and from record to record of the log, also after failures |
| SequenceNumbers.NumbersAreContiguous | appLPS/Pods/leveldb-library/db/db_impl.cc:1203-1235 | While every append succeeds, each log record starts where the one before ends, and the numbers in the memtable are consecutive from the one after the initial last sequence number |
| SequenceNumbers.GapsAreFailures | appLPS/Pods/leveldb-library/db/db_impl.cc:1203-1235 | Between two neighbouring log records exactly the numbers of the groups are missing whose append failed in between |
| ForcedSwitch.SwitchedIff | appLPS/Pods/leveldb-library/db/db_impl.cc:1196-1238 | A successful write without a batch had the memtable switched for it if and only if no leader took it into a group |
| ForcedSwitch.JoinsWithoutSwitch | appLPS/Pods/leveldb-library/db/db_impl.cc:1196-1238 | A run in which such a write succeeds in the group of another and no switch is made for it |
| GroupCommit.LoggedExactlyOnce | appLPS/Pods/leveldb-library/db/db_impl.cc:1185-1256 | The batch of a successful writer is in exactly one log record, which was synced if the writer asked; no batch is in two |
| GroupCommit.OutcomesAreFinal | appLPS/Pods/leveldb-library/db/db_impl.cc:1238-1252 | Each writer is told once: outcomes do not change, and exactly the writers that left the queue have one |
| GroupCommit.HeadCanSucceed | appLPS/Pods/leveldb-library/db/db_impl.cc:1185-1250 | From every reachable state a writer at the head of the queue whose batch nobody has taken can commit its group, unless a failed sync has closed the store |
| BlockFormat.DecodesInPlace | appLPS/Pods/leveldb-library/table/block.cc:54-75 | The sizes of an entry in place are decoded, on the fast path and on the slow one |
| BlockBuilders.CommonPrefix | appLPS/Pods/leveldb-library/table/block_builder.cc:79-87 | The longest common prefix with the last key |
| BlockBuilders.BlockBuilder.Add | appLPS/Pods/leveldb-library/table/block_builder.cc:72-106 | Appends exactly the entry, without all that its key has in common with the last one, except at a restart point every interval entries |
| BlockBuilders.BlockBuilder.Finish | appLPS/Pods/leveldb-library/table/block_builder.cc:62-70 | The finished block holds the added entries, the restart offsets and their number |
| BlockIter.Iter.ParseNextKey | appLPS/Pods/leveldb-library/table/block.cc:224-251 | Rebuilds the next key from the one before and the shared prefix, and brings the restart index up to date |
| BlockIter.Iter.Next | appLPS/Pods/leveldb-library/table/block.cc:137-140 | Moves one entry forward or to the end |
| BlockIter.Iter.Prev | appLPS/Pods/leveldb-library/table/block.cc:142-161 | Moves one entry back, or to the end position from the first entry, in spite of the lagging restart index: the inverse of Next |
| BlockIter.Iter.FindRestart | appLPS/Pods/leveldb-library/table/block.cc:163-195 | The binary search finds the last restart point with a key below the target, or the first one |
| BlockIter.Iter.Seek | appLPS/Pods/leveldb-library/table/block.cc:163-201 | Lands on the first entry whose key is not below the target |
| BlockIter.Iter.SeekToFirst | appLPS/Pods/leveldb-library/table/block.cc:203-206 | Lands on the first entry |
| BlockIter.Iter.SeekToLast | appLPS/Pods/leveldb-library/table/block.cc:208-213 | Lands on the last entry |
| BlockIter.AllEntries | appLPS/Pods/leveldb-library/table/block.cc:203-251 | Reading a finished block from the front gives exactly the entries added to the builder |
| KeyOrder.BytewiseIsStrict | appLPS/Pods/leveldb-library/util/comparator.cc:25-27 | The bytewise order is a strict total order |
| KeyOrder.BytewiseIs | appLPS/Pods/leveldb-library/util/comparator.cc:25-27 | A string comes before another exactly if its first different byte is smaller or it is a proper prefix |
| KeyOrder.InternalIsStrict | appLPS/Pods/leveldb-library/db/dbformat.cc:51-67 | User keys ascending, then tags descending, is a strict total order on encoded internal keys |
| KeyOrder.InternalLikeKeys | appLPS/Pods/leveldb-library/db/dbformat.cc:51-66 | Encoded internal keys are ordered like the keys they stand for, the newer first for the same user key |
| KeyOrder.RankPreservesOrder | appLPS/Pods/leveldb-library/util/comparator.cc:25-27 | Numbering the byte strings of any finite set by their rank keeps their order and tells them apart |
| KeyOrder.FindShortestSeparator | appLPS/Pods/leveldb-library/util/comparator.cc:29-50 | The key is left alone or becomes no longer and strictly between the two keys |
| KeyOrder.FindShortSuccessor | appLPS/Pods/leveldb-library/util/comparator.cc:52-63 | The first byte that can grow does and the rest is cut off, so the key becomes no longer and strictly larger; a run of 0xff is left alone |
| KeyOrder.InternalShortestSeparator | appLPS/Pods/leveldb-library/db/dbformat.cc:69-86 | The separator is at or after the start and before the limit; unless it is the start itself its user key is below that of the limit |
| KeyOrder.InternalShortSuccessor | appLPS/Pods/leveldb-library/db/dbformat.cc:88-101 | The successor is at or after the key; it is shortened exactly when a user key byte before the last can grow |
| Bloom.OrBitSets | appLPS/Pods/leveldb-library/util/bloom.cc:44-52 | Setting a bit sets that bit and no other |
| Bloom.CreateFilter | appLPS/Pods/leveldb-library/util/bloom.cc:28-54 | Appends the filter of the keys, bits set in place by double hashing |
| Bloom.KeyMayMatch | appLPS/Pods/leveldb-library/util/bloom.cc:56-79 | The probing loop answers whether all bits of the key are set |
| Bloom.KeysMatch | appLPS/Pods/leveldb-library/util/bloom.cc:28-79 | Every key a filter was made of may match it |
| Bloom.FilterBits | appLPS/Pods/leveldb-library/util/bloom.cc:29-55 | A filter has at least 64 bits in whole bytes, set exactly where some probe of some key falls, and ends in the number of probes, between 1 and 30 |
| Bloom.MatchBits | appLPS/Pods/leveldb-library/util/bloom.cc:57-82 | A key may match if and only if all its probes find their bits set, or the filter has more than 30 probes |
| FilterBlock.BloomIsSound | appLPS/Pods/leveldb-library/util/bloom.cc:28-79 | The Bloom policy has no false negatives |
| FilterBlock.InternalIsSound | appLPS/Pods/leveldb-library/db/dbformat.cc:105-119 | With the policy for internal keys, any key with the user key of an added one may match |
| FilterBlock.FilterBlockBuilder.StartBlock | appLPS/Pods/leveldb-library/table/filter_block.cc:21-27 | Filters for all the 2 KB ranges before the block are generated, with the pending keys in the first |
| FilterBlock.FilterBlockBuilder.AddKey | appLPS/Pods/leveldb-library/table/filter_block.cc:29-33 | Records the key for the current block |
| FilterBlock.FilterBlockBuilder.GenerateFilter | appLPS/Pods/leveldb-library/table/filter_block.cc:51-75 | Appends the filter of the pending keys, or an empty one, and its offset |
| FilterBlock.FilterBlockBuilder.Finish | appLPS/Pods/leveldb-library/table/filter_block.cc:35-49 | The block: filters, their offsets, where the offsets start, the range size |
| FilterBlock.ReadsFilter | appLPS/Pods/leveldb-library/table/filter_block.cc:77-104 | The reader asks exactly the filter of the 2 KB range of the block offset |
| FilterBlock.AddedKeysMatch | appLPS/Pods/leveldb-library/table/filter_block.cc:21-104 | A key may match at the offset of the block it went to, through shared and empty filters |
| TableFormat.HandleRoundTrip | appLPS/Pods/leveldb-library/table/format.cc:15-29 | A block handle reads back, whatever follows it |
| TableFormat.FooterRoundTrip | appLPS/Pods/leveldb-library/table/format.cc:31-62 | The footer reads back both handles |
| TableFormat.ReadsStored | appLPS/Pods/leveldb-library/table/format.cc:64-135 | A stored block is read back, with and without verifying its checksum |
| TableFormat.ReadBlockIff | appLPS/Pods/leveldb-library/table/format.cc:64-139 | A block is read if and only if it is there in full, uncompressed, and, when that is asked for, with the checksum of its contents and type |
| TableBuilders.AddStep | appLPS/Pods/leveldb-library/table/table_builder.cc:94-123 | Adding an entry, and the index entry of the block before, keeps separators at or after their block and before the next |
| TableBuilders.FlushStep | appLPS/Pods/leveldb-library/table/table_builder.cc:125-139 | A finished block waits for its index entry |
| TableBuilders.IndexAscends | appLPS/Pods/leveldb-library/table/table_builder.cc:102-109 | The separators are in order |
| TableBuilders.TableBuilder.WriteRawBlock | appLPS/Pods/leveldb-library/table/table_builder.cc:177-194 | Writes contents and trailer at the end of the file and returns where |
| TableBuilders.TableBuilder.Add | appLPS/Pods/leveldb-library/table/table_builder.cc:94-123 | Adds exactly the entry, to the block being built or a new one, with the pending index entry under the shortest separator, and the filter key; a block is written exactly when it has reached the block size |
| TableBuilders.TableBuilder.Flush | appLPS/Pods/leveldb-library/table/table_builder.cc:125-139 | Writes the data block, if it has entries, and starts the next filter range |
| TableBuilders.TableBuilder.Finish | appLPS/Pods/leveldb-library/table/table_builder.cc:198-253 | A file under 4 GB is a table of exactly the entries added, in exactly the blocks that were built: blocks, filter, metaindex, index, footer; the last block is indexed under a short key after its last one |
| TableReaders.FirstFromAt | appLPS/Pods/leveldb-library/table/table.cc:216-244 | The first key at or after the target is decided by its two neighbours |
| TableReaders.BetweenBlocks | appLPS/Pods/leveldb-library/table/table_builder.cc:96-109 | A target after the last key of a block and not after its separator is answered by the start of the next block, which has another user key |
| TableReaders.TableReader.BlockReader | appLPS/Pods/leveldb-library/table/table.cc:155-208 | The handle in an index entry leads to an iterator over exactly that block |
| TableReaders.TableReader.FilterExcludes | appLPS/Pods/leveldb-library/table/table.cc:222-229 | The filter rules out a block only if none of its entries has the user key sought |
| TableReaders.GapSeparator | appLPS/Pods/leveldb-library/util/comparator.cc:29-50 | Between entries for "aa" and "d" the shortest separator is "b" |
| TableReaders.GapTable | appLPS/Pods/leveldb-library/table/table.cc:216-244 | In a table of two blocks with these entries and this separator a key for "ab" falls into the gap before the second block |
| TableReaders.MissesLaterEntry | appLPS/Pods/leveldb-library/table/table.cc:216-244 | Looking up "ab" in such a table without a filter reports nothing, although the entry for "d" follows |
| TableReaders.BuildsGap | appLPS/Pods/leveldb-library/table/table_builder.cc:94-139 | Adding the two entries with a flush in between makes such a table |
| TableReaders.BuildsAndMisses | appLPS/Pods/leveldb-library/table/table.cc:216-244 | Built, opened and asked for "ab", the table reports nothing although the entry for "d" follows |
| TableReaders.TableReader.InternalGet | appLPS/Pods/leveldb-library/table/table.cc:216-244 | Reports the first entry at or after the key in the whole table, and nothing if and only if there is none, the filter excludes the block the index leads to, or the entry starts a block whose preceding separator is not before the key; then no entry at or after the key has its user key |
| TableReaders.ReadMeta | appLPS/Pods/leveldb-library/table/table.cc:84-135 | The filter is found by the name of its policy, if there is one |
| TableReaders.Open | appLPS/Pods/leveldb-library/table/table.cc:38-82 | Opening a finished table gives a reader of exactly its entries, with its filter when the policy is known |
| TwoLevel.TwoLevelIterator.InitDataBlock | appLPS/Pods/leveldb-library/table/two_level_iterator.cc:146-160 | The data iterator ranges over the block that the index iterator stands on, reopened only when the handle differs |
| TwoLevel.TwoLevelIterator.SkipEmptyDataBlocksForward | appLPS/Pods/leveldb-library/table/two_level_iterator.cc:115-126 | Past the end of a block it stands on the start of the next one |
| TwoLevel.TwoLevelIterator.SkipEmptyDataBlocksBackward | appLPS/Pods/leveldb-library/table/two_level_iterator.cc:128-139 | Before the start of a block it stands on the end of the one before |
| TwoLevel.TwoLevelIterator.SeekToFirst | appLPS/Pods/leveldb-library/table/two_level_iterator.cc:89-94 | Lands on the first entry of the table |
| TwoLevel.TwoLevelIterator.SeekToLast | appLPS/Pods/leveldb-library/table/two_level_iterator.cc:96-101 | Lands on the last entry of the table |
| TwoLevel.TwoLevelIterator.Seek | appLPS/Pods/leveldb-library/table/two_level_iterator.cc:82-87 | Lands on the first entry of the table at or after the target |
| TwoLevel.TwoLevelIterator.Next | appLPS/Pods/leveldb-library/table/two_level_iterator.cc:103-107 | Moves one entry forward over the concatenation of all blocks |
| TwoLevel.TwoLevelIterator.Prev | appLPS/Pods/leveldb-library/table/two_level_iterator.cc:109-113 | Moves one entry back over the concatenation of all blocks |
| FormatSamples.LogBytes | appLPS/Pods/leveldb-library/db/log_writer.cc:77-110 | A short record in a log, byte for byte |
| FormatSamples.LogBlocks | appLPS/Pods/leveldb-library/db/log_format.h:27-30 | Where a header does not fit any more, and the room a block of 32768 bytes has left |
| FormatSamples.EditBytes | appLPS/Pods/leveldb-library/db/version_edit.cc:42-83 | Each field of a version edit, byte for byte |
| FormatSamples.EditOrder | appLPS/Pods/leveldb-library/db/version_edit.cc:42-62 | The order in which an edit lists its fields |
| FormatSamples.BatchBytes | appLPS/Pods/leveldb-library/db/write_batch.cc:6-14 | A batch with a Put and a Delete, byte for byte |
| FormatSamples.InternalKeyBytes | appLPS/Pods/leveldb-library/db/dbformat.cc:14-23 | An internal key, and the tag that shortened keys get, byte for byte |
| FormatSamples.BlockEntryBytes | appLPS/Pods/leveldb-library/table/block_builder.cc:9-17 | An entry of a block, byte for byte |
| FormatSamples.FooterBytes | appLPS/Pods/leveldb-library/table/format.cc:31-40 | The footer, byte for byte |
| FormatSamples.StoredBytes | appLPS/Pods/leveldb-library/table/table_builder.cc:181-205 | A stored block, byte for byte |
| FormatSamples.FilterBytes | appLPS/Pods/leveldb-library/table/filter_block.cc:45-72 | A filter block without keys, byte for byte |
| FormatSamples.FilterKey | appLPS/Pods/leveldb-library/table/table_builder.cc:217-225 | The name under which the metaindex has the filter |
| FormatSamples.FilterProbes | appLPS/Pods/leveldb-library/util/bloom.cc:47-53 | The step between two probes of a hash |
| FormatSamples.MessageBytes | appLPS/Pods/nanopb/pb_encode.c:769-850 | A field of each wire type, byte for byte |
| HandleTables.HandleTable.FindPointer | appLPS/Pods/leveldb-library/util/cache.cc:114-120 | The place of the matching handle in its bucket, or the end of the bucket when the table has none |
| HandleTables.HandleTable.Lookup | appLPS/Pods/leveldb-library/util/cache.cc:74-76 | The matching handle, or none exactly when there is none |
| HandleTables.HandleTable.Insert | appLPS/Pods/leveldb-library/util/cache.cc:78-92 | The table gains the handle and loses the one it replaces, and never has more handles than buckets |
| HandleTables.HandleTable.Remove | appLPS/Pods/leveldb-library/util/cache.cc:94-102 | The table loses the matching handle only |
| HandleTables.HandleTable.Resize | appLPS/Pods/leveldb-library/util/cache.cc:122-146 | The larger table holds the same handles, each in its bucket |
| HandleTables.AtMostOne | appLPS/Pods/leveldb-library/util/cache.cc:114-120 | At most one handle matches a key |
| LruCache.Cache.Ref | appLPS/Pods/leveldb-library/util/cache.cc:217-223 | A reference moves an idle entry to the in-use list |
| LruCache.Cache.Unref | appLPS/Pods/leveldb-library/util/cache.cc:225-237 | Dropping the last reference deletes; dropping the last but the cache one makes the entry the newest idle one |
| LruCache.Cache.Lookup | appLPS/Pods/leveldb-library/util/cache.cc:252-259 | Finds the cached entry of the key, if any, and hands out one more reference |
| LruCache.Cache.Release | appLPS/Pods/leveldb-library/util/cache.cc:261-264 | Takes one reference back; an entry nobody holds any more becomes the newest idle one |
| LruCache.Cache.Insert | appLPS/Pods/leveldb-library/util/cache.cc:266-303 | Caches the entry in place of one with the same key and evicts the oldest idle entries, no more than needed: afterwards the usage is within the capacity or nothing idle is left |
| LruCache.ChargesAdd | appLPS/Pods/leveldb-library/util/cache.cc:266-303 | What counts against the capacity is the sum of the charges |
| LruCache.Cache.FinishErase | appLPS/Pods/leveldb-library/util/cache.cc:305-316 | An entry out of the table leaves its list and the usage, and the cache drops its reference |
| LruCache.Cache.Erase | appLPS/Pods/leveldb-library/util/cache.cc:318-321 | Exactly the entry of the key leaves the cache |
| LruCache.Cache.Prune | appLPS/Pods/leveldb-library/util/cache.cc:323-333 | Exactly the entries that nobody holds leave the cache |
| LruCache.Cache.Destroy | appLPS/Pods/leveldb-library/util/cache.cc:205-215 | Once all clients have released their handles, every handle ever made has been deleted exactly once |
| SkipLists.SkipList.FindGreaterOrEqual | appLPS/Pods/leveldb-library/db/skiplist.h:260-281 | The first node at or after the key, and on each level the last node before it |
| SkipLists.SkipList.FindLessThan | appLPS/Pods/leveldb-library/db/skiplist.h:283-302 | The node with the greatest key below the given one, or the head exactly when no key is below it |
| SkipLists.SkipList.FindLast | appLPS/Pods/leveldb-library/db/skiplist.h:304-321 | The last node, or the head |
| SkipLists.SkipList.Insert | appLPS/Pods/leveldb-library/db/skiplist.h:336-367 | The list gains exactly the key, in exactly the lowest levels up to its height of twelve; every level stays sorted and part of the levels below after each store |
| SkipLists.SkipList.Publish | appLPS/Pods/leveldb-library/db/skiplist.h:360-366 | The two stores at one level splice the node in and leave the other levels alone |
| SkipLists.SkipList.Contains | appLPS/Pods/leveldb-library/db/skiplist.h:369-377 | Whether the key is in the list |
| SkipLists.PublishSorted | appLPS/Pods/leveldb-library/db/skiplist.h:360-366 | Publishing bottom up keeps every level sorted and part of the levels below |
| SkipLists.Iterator.Next | appLPS/Pods/leveldb-library/db/skiplist.h:206-210 | Moves one node forward |
| SkipLists.Iterator.Prev | appLPS/Pods/leveldb-library/db/skiplist.h:212-221 | Moves one node back by a search |
| SkipLists.Iterator.Seek | appLPS/Pods/leveldb-library/db/skiplist.h:223-226 | Moves to the first node at or after the target |
| SkipLists.Iterator.SeekToLast | appLPS/Pods/leveldb-library/db/skiplist.h:233-239 | Moves to the last node |
| SkipListReads.StepKeepsInv | appLPS/Pods/leveldb-library/db/skiplist.h:260-281 | Whatever stores come between its loads, a reader stands on a node of its level with a key below the target, and keys once visible stay visible |
| SkipListReads.ReadIsCurrent | appLPS/Pods/leveldb-library/db/skiplist.h:260-281 | A reader among the stores of a writer returns the first key at or after the target in the lowest list as it is at its last load, and misses none that was there when it started |
| SkipListReads.ReaderCanStep | appLPS/Pods/leveldb-library/db/skiplist.h:254-277 | A reader is never stuck: every step takes it along its level, down a level or to its result |
| SkipListReads.PublishIsStep | appLPS/Pods/leveldb-library/db/skiplist.h:360-366 | The store that splices a node in is the publishing step that readers see |
| PbFormat.Varint32RoundTrip | appLPS/Pods/nanopb/pb_decode.c:187-247 | The 32-bit decoder, which also accepts sign-extended encodings, reads canonical varints back |
| PbEncoder.OStream.Write | appLPS/Pods/nanopb/pb_encode.c:103-124 | Succeeds if and only if the bytes fit, counts them, and writes them unless the stream only counts |
| PbEncoder.EncodeVarint | appLPS/Pods/nanopb/pb_encode.c:608-628 | Writes the base-128 digits; the last byte loses its continuation bit again |
| PbEncoder.EncodeSvarint | appLPS/Pods/nanopb/pb_encode.c:630-639 | Writes the zigzag form computed by doubling and inverting |
| PbEncoder.EncodeString | appLPS/Pods/nanopb/pb_encode.c:709-715 | Writes a length and that many bytes, or fails exactly when they do not fit |
| PbEncoder.EncodeNumber | appLPS/Pods/nanopb/pb_encode.c:769-850 | Writes a number in the form of its field type |
| PbEncoder.EncodePackedTo | appLPS/Pods/nanopb/pb_encode.c:163-197 | The size written before a packed array, computed or counted, is the size of what follows |
| PbEncoder.EncodeArrayTo | appLPS/Pods/nanopb/pb_encode.c:147-234 | Writes numbers packed and other entries one by one; fails exactly when the count exceeds the array or the stream is full |
| PbEncoder.EncodeSubmessage | appLPS/Pods/nanopb/pb_encode.c:717-765 | The counting pass and the writing pass agree, so a submessage is written exactly when it fits |
| PbEncoder.EncodeFieldTo | appLPS/Pods/nanopb/pb_encode.c:341-426 | Writes a field exactly when it is present; a field without a flag counts as present when it is not zero |
| PbEncoder.Encode | appLPS/Pods/nanopb/pb_encode.c:528-550 | Writes the fields in the order of the descriptor |
| PbEncoder.GetEncodedSize | appLPS/Pods/nanopb/pb_encode.c:567-576 | The predicted size is exactly the number of bytes written |
| PbEncoder.EncodeToBuffer | appLPS/Pods/nanopb/pb_encode.c:86-550 | Encoding into a buffer succeeds if and only if the buffer is at least as large as the predicted size |
| PbDecoder.DecodeVarint32 | appLPS/Pods/nanopb/pb_decode.c:187-252 | The loop accepts and rejects what the pure decoder does |
| PbDecoder.DecodeVarint64 | appLPS/Pods/nanopb/pb_decode.c:255-275 | Reads up to ten bytes into 64 bits |
| PbVarints.Varint32Is | appLPS/Pods/nanopb/pb_decode.c:187-247 | Exactly which encodings of up to ten bytes the 32-bit decoder accepts, and that the result is the value modulo 2^32 |
| PbVarints.OverflowUnnoticed | appLPS/Pods/nanopb/pb_decode.c:221-242 | Six bytes that stand for more than 32 bits and are read as zero without an error |
| PbVarints.ExactIff | appLPS/Pods/nanopb/pb_decode.c:221-242 | An accepted encoding of more than five bytes has the value decoded, or its sign extended, if and only if the bits above the lowest 32 are all clear or all set |
| PbDecoder.SkipFieldOf | appLPS/Pods/nanopb/pb_decode.c:278-330 | Skips a field by its wire type |
| PbDecoder.MakeStringSubstream | appLPS/Pods/nanopb/pb_decode.c:372-385 | Splits off a window of the announced length, if the stream is long enough |
| PbDecoder.CloseStringSubstream | appLPS/Pods/nanopb/pb_decode.c:387-401 | The stream goes on after the window, whatever was read of it |
| PbDecoder.FieldIter.Next | appLPS/Pods/nanopb/pb_common.c:21-76 | Moves to the next field or wraps around, counting required fields |
| PbDecoder.FieldIter.Find | appLPS/Pods/nanopb/pb_common.c:78-95 | Finds the field of the tag from wherever the iterator stands, or there is none |
| PbDecoder.FieldIter.CountRequired | appLPS/Pods/nanopb/pb_decode.c:1028-1045 | The number of required fields of the descriptor |
| PbDecoder.DecodeNumberOf | appLPS/Pods/nanopb/pb_decode.c:1328-1438 | Reads a number and checks that it fits its field |
| PbDecoder.DecodePackedOf | appLPS/Pods/nanopb/pb_decode.c:425-453 | Reads entries until the window is empty; a full array with bytes left is an error |
| PbDecoder.DecodeFieldOf | appLPS/Pods/nanopb/pb_decode.c:406-483 | Reads one occurrence of a field into what the field holds |
| PbDecoder.DecodeSubmessage | appLPS/Pods/nanopb/pb_decode.c:1519-1541 | Reads a submessage within its window, merging into what is there |
| PbDecoder.DecodeNoInit | appLPS/Pods/nanopb/pb_decode.c:928-1076 | Reads fields in any order, skips unknown ones, and succeeds exactly when all fields parse and each of the first 64 required ones occurs in the input |
| PbDecoder.Decode | appLPS/Pods/nanopb/pb_decode.c:1078-1090 | Starts from the defaults; without the tag of a required field it fails |
| PbRoundTrip.NumberReadsBack | appLPS/Pods/nanopb/pb_decode.c:1328-1438 | Every number in the range of its field reads back |
| PbRoundTrip.DefaultValueIs | appLPS/Pods/nanopb/pb_encode.c:240-337 | A value that is left out as default is the one the decoder starts from |
| PbRoundTrip.ValueReadsBack | appLPS/Pods/nanopb/pb_decode.c:1328-1564 | Every value of a field type reads back, nested messages included |
| PbRoundTrip.TypedMsgEncodes | appLPS/Pods/nanopb/pb_encode.c:341-550 | Every message in the range of its descriptor can be encoded |
| PbRoundTrip.MsgReadsBack | appLPS/Pods/nanopb/pb_decode.c:928-1090 | Decoding what was encoded gives back the message and leaves nothing over |
| PbRoundTrip.RoundTrip | appLPS/Pods/nanopb/pb_decode.c:928-1090 | For every descriptor with distinct tags and every message in range, encoding succeeds and decoding gives the message back |
| PbPrograms.EncodeAndDecode | appLPS/Pods/nanopb/pb_decode.c:1078-1090 | Sizing, encoding into a buffer and decoding: the encoding succeeds if and only if the buffer has the predicted size, and then the message comes back |
| PbRoundTrip.UnknownFieldIsSkipped | appLPS/Pods/nanopb/pb_decode.c:321-330 | A field that the descriptor does not know is passed over, whatever its type |
| PbRequired.DecodesIff | appLPS/Pods/nanopb/pb_decode.c:1028-1073 | Decoding succeeds if and only if the fields parse and the tag of every required field, of the first 64, occurs among the tags of the message itself; the result does not depend on them |
| PbRange.DecodeMsgTyped | appLPS/Pods/nanopb/pb_decode.c:1328-1564 | Decoding any bytes into a message in range gives one in range: numbers fit, strings and blobs stay in their buffers, arrays in their bounds, at most one member of a union is set |
| PbRange.DecodedIsTyped | appLPS/Pods/nanopb/pb_decode.c:1078-1090 | What is decoded from any buffer is in the range of its descriptor |
| PbLaws.Concatenation | appLPS/Pods/nanopb/pb_decode.c:928-1023 | Two messages one after the other decode as the second one into what came of the first |
| PbLaws.NullTerminated | appLPS/Pods/nanopb/pb_decode.c:298-319 | A zero tag ends a message and what follows is left alone |
| PbLaws.SubmessageInParts | appLPS/Pods/nanopb/pb_decode.c:1519-1541 | A submessage may come in parts: reading them one after the other is reading them in one piece |
| PbLaws.EntryAppends | appLPS/Pods/nanopb/pb_decode.c:425-475 | An array entry with a tag of its own is appended, also where the encoder packs, and refused when the array is full |
| PbLaws.PackedTooLong | appLPS/Pods/nanopb/pb_decode.c:433-449 | A packed array with more entries than fit is refused |
| PbLaws.IntIff | appLPS/Pods/nanopb/pb_decode.c:1339-1374 | An integer field takes the number in its range that agrees with the varint, in 32 bits for fields of up to four bytes, and fails if there is none |
| PbLaws.SintIff | appLPS/Pods/nanopb/pb_decode.c:1400-1424 | Signed numbers alternate around zero and have to fit their field |
| PbLaws.FixedBlobIff | appLPS/Pods/nanopb/pb_decode.c:1543-1564 | A fixed-length blob takes exactly its length, or nothing, which stands for zeros |
| PbLaws.OtherWireTypes | appLPS/Pods/nanopb/pb_decode.c:321-331 | A field of a wire type that is not in use cannot be passed over |
| PbLaws.LastOneWins | appLPS/Pods/nanopb/pb_decode.c:406-423 | A field that is neither an array nor a message holds what its last occurrence says |
| PbLaws.UintIff | appLPS/Pods/nanopb/pb_decode.c:1376-1398 | An unsigned field takes the value of the varint if it fits |
| PbLaws.BoolIs | appLPS/Pods/nanopb/pb_decode.c:1328-1337 | A flag is set by every varint but zero |
| PbLaws.NumbersArePacked | appLPS/Pods/nanopb/pb_encode.c:147-234 | Numbers in an array are written under one tag and one length |
| PbLaws.LeftOutIff | appLPS/Pods/nanopb/pb_encode.c:240-426 | A number, string or blob without a flag is left out if and only if it is zero or empty; required ones never are |
| PbLaws.LastFieldLast | appLPS/Pods/nanopb/pb_encode.c:528-550 | Fields are written in the order of the descriptor |

## Left out

- I/O errors other than a crash between any two steps (write errors appear in GroupCommit only), corruption of files other than logs and version edits, and checksums that collide by chance.
- Interleaving in Store: a flush does not run inside a merging compaction there; Durability has the interleaving, but not the order of the levels.
- Store.ReadsAreCorrect: nothing is promised for a user key that a compaction has brought back until it is written again, because for such a key the property is false (see Findings).
- VersionSets.VersionSet.LogAndApply: file numbers name one file each throughout the manifest, which the file counter guarantees; write errors, compaction pointers and the CURRENT file are left out.
- VersionSets.Recover: the manifest is one that this code wrote, whole or cut; other corruption and the reuse of the manifest are left out.
- CompactionWork.DoCompactionWork: where outputs are cut (file size, grandparent overlap) is a parameter, so the result holds for every cut.
- Versions.SortNewestFirst stands for std::sort by a simple insertion with the same result.
- InternalIterators.ReachableChildren: children of the merging iterator are cursors over lists of entries; that an iterator over the bytes of tables is such a cursor is proved in TwoLevel, where keys are bytes.
- Compaction scores, seek statistics, read sampling, compaction pointers across runs, properties, approximate sizes, info logging: they only choose when to act.
- Widths of file sizes and of size_t sums; 64-bit wrap-around of sequence numbers and file numbers.
- DurabilityProofs.NothingIsLost: snapshots stay below the largest 56-bit sequence number; which levels the inputs of a compaction come from matters only to the drop rules there; tables and logs are sets of entries, the levels in a manifest are left to VersionSets and Store, and a log record counts as durable once it is appended; reuse_logs, repair and the order of logs during recovery are not modelled.
- Progress.RecoveryCompletes: that steps which can be taken are taken in the end is up to a scheduler, which is not modelled.
- Durability: the queue of writers is its head with one group in flight; GroupCommit has the queue.
- GroupCommit.WritesAreSerial: waiting and signalling are left out, a writer that may act is one that can take a step; log rotation in MakeRoomForWrite is in Durability.
- WriteBatches.InsertInto: the memtable is the list of what it is given; counts do not exceed 32 bits.
- LogReader.Reader.ReadRecord: reading starts at offset zero, so resynchronisation is not modelled; reads return full blocks except at the end of the file.
- EditCodec.DecodeFrom: an edit object is read into once; the source does not clear the compaction pointers of a used one.
- BlockIter.Iter.Seek and its siblings: blocks are those a builder finishes, under 4 GB; what the source does with malformed blocks and internal keys is left out.
- TableBuilders.TableBuilder.Add: blocks are stored without Snappy compression, and options do not change in between.
- TableBuilders.TableBuilder.Finish: the promise is made for files under 4 GB, since offsets in blocks and filters have 32 bits.
- TableReaders.TableReader.BlockReader: blocks are read from the file each time; the block cache is modelled on its own.
- Bloom.CreateFilter: the hash is a parameter, and so is the number of probes, which the source computes in floating point.
- HandleTables.HandleTable.FindPointer: a place in a bucket's sequence stands for the address of the link that points there.
- LruCache.Cache.Insert: the circular lists and bucket chains are sequences, so the pointer updates themselves are not modelled; sharding, locking and the values are left out.
- SkipLists.SkipList.Insert: the height of a node is a parameter; nodes are garbage collected instead of living in an arena.
- SkipListReads.ReadIsCurrent: loads and stores are atomic steps in one order, which acquire and release ordering justify; a reader sees the links of a level as a list.
- PbDecoder.DecodeNoInit: callbacks, extensions, pointer fields, fixed-count arrays, default values in descriptors, builds without 64-bit integers, and a field number of zero in a message without fields are left out; what an unset optional or union member leaves behind in its storage is forgotten; the bit words of fields_seen are a set.
- PbVarints.Varint32Is: encodings of more than ten bytes, which no encoder writes, are decoded as the source does, but not characterized.
- PbEncoder.OStream.Write: sizes do not wrap around, and the sink of a writing stream takes every byte that fits.
- PbRoundTrip.RoundTrip: encodings of 4 GB and more are excluded, since lengths are read with 32 bits.
- The Swift user interface, BoringSSL, hash and checksum tables, environment files: no state to reason about, or foreign calls.
