# A verified model of a LevelDB-style store

The Dafny files here model the storage engine of the repository: versions and compactions, the
manifest and the logs, the read path, the write queue, the caches and the on-disk formats. They state
what each part promises and prove it for all inputs, all runs or all reachable states.

`dafny verify dfyconfig.toml` checks the whole project.

## How the model is laid out

* **Values.** A user key is its rank in the comparator's order, a `real`. An entry is a user key, a
  sequence number, a kind and a value; a table is a list of entries sorted by internal key; a version
  is seven lists of files. `View(entries, k, s)` is what a set of entries says about key `k` at
  sequence `s`: the value of the newest entry at or below `s`, or nothing. It is the reference against
  which every read, flush, compaction and recovery is proved. For a history of batches it is a plain
  map: `History.HistoryIsMap` proves that the view at sequence `s` is what the first `s` operations
  leave when they are applied one after another.
* **Algorithms.** What the source does with loops and fields is a method or a class here, with the
  loops and the fields: `Versions`, `CompactionPicker`, `CompactionWork`, `VersionBuilder`, `Manifest`,
  `ReadPath`, and the classes of the iterators, builders, readers, lists and caches.
* **The engine.** `Engine` is a step machine over the whole store: append a write group to the log,
  insert its operations one by one, publish it, switch memtables, start and install a flush, start and
  install a compaction, delete obsolete files, take and release snapshots, pin and unpin versions, and
  crash and reopen between any two steps. A step appends a whole record to a log or the manifest; a
  crash in the middle of such an append is the subject of `LogRecovery.ReachableLogsRecover` and
  `Manifest.CrashInManifestAppend`. `EngineStructure`, `EngineRecovery` and `EngineMeaning` prove two
  invariants step by step, and `EngineTheorems` draws the conclusions about runs. A run may do the
  steps of a background flush or compaction in any interleaving with writers and readers.
* **Concurrent structures.** `WriteQueue` and `SkipListReaders` are step machines of their own, for
  writers that join each other's groups and for readers that search a skip list while it grows.
* **Reads.** `ReadPath` and `PinnedReads` run `Get` over the layers of the store, in one state and
  spread over many. `InternalIterator` puts the two-level iterators, the merging iterator and the
  database iterator on top of each other and proves what a scan of the whole store returns.
* **Bytes.** `Coding`, `LogFormat`, `LogReader`, `LogRecords`, `VersionEdits`, `InternalKeys`,
  `WriteBatches`, `Blocks`, `Bloom` and `FilterBlocks` work on bytes. `Manifest` and `LogRecovery`
  join bytes and machine: the bytes of a reachable manifest and of the logs recover to the machine's
  version and batches.

## Where the code departs from what it says

The model follows the code. These are the places where the code and its own comments or names differ,
or where a promise holds only under a condition.

* A compaction may cut its inputs between two entries of one user key, because levels above 0 start
  from a single file (db/version_set.cpp:1109-1116) and outputs are cut at any entry
  (db/db_impl.cpp:847-848). A deletion marker can then be dropped while an older value stays, and the
  value comes back. `UncleanRun.UncleanRunReadsWrong` is a run of the store that ends that way, and
  `CleanCuts.UncleanCutResurrects` the compaction alone. `CompactionWork.CompactionViewExact` says on
  the inputs and the other files exactly when a compaction changes no view: unless the newest entry of
  some key at the smallest snapshot is a marker among the inputs that is at base level, and the newest
  one outside the inputs is a value. `CleanCuts.CompactionRecencyExact` says the same of recency, and
  `CleanCuts.WithoutSnapshotsRunsAreClean` proves that runs without snapshots never get there. The
  theorems about reads and recovery are about runs whose compactions cut cleanly (`CleanRun`), which a
  caller can see on the file metadata.
* `ShouldStopBefore` never advances `grandparent_index_` (db/version_set.cpp:1288-1294): its loop does
  not end once it is entered, and if it is not entered no overlap is ever counted. A compaction does not
  return if and only if its last key lies beyond the first grandparent
  (`CompactionWork.DoCompactionWork`, with `CompactionWork.OneGrandparentHangs` as a case).
* A process that dies while it appends to the manifest leaves a store that cannot be opened, unless the
  cut lies right after a record or right after the padding behind it: `Manifest.CrashInManifestAppend`,
  with `Manifest.TornAppendFails` as the case of one byte.
* `FindPrevUserEntry` moves back only inside its visibility test (db/db_iter.cpp:196-216), so a reverse
  scan does not come past an entry newer than the snapshot. The methods of `DBIters.DBIter` return
  `stuck` if and only if `Blocked` holds, `NewerWriteBlocks` is a concrete case, and `NeverBlocked`
  gives the condition under which a reverse scan always works.
* The constructor of `Block` computes an offset that is three bytes too large (table/block.cpp:21,
  `Blocks.OffsetIsThreeOff`). With it `SeekToFirst` starts at the first entry if and only if there is a
  second restart point whose offset is a multiple of 2^24 (`Blocks.SeekToFirstStartsRight`);
  `Blocks.OnePairStartsWrong` is a block of one pair for which it starts beyond the block. The iterator
  is proved with the offset that was meant, read from the bytes (`Blocks.BuildAndRead`).
* `Block::Iter::Seek` does not use the result of its binary search (table/block.cpp:161). It finds the
  first pair at or after the target behind the one it stands at, which is the right one if and only if
  that one comes before the target: `Blocks.Iter.Seek` and `Blocks.SeekIsRight`.
* `DecodeEntry` adds two sizes in 32 bits (table/block.cpp:52), so it accepts entries that do not fit:
  `Blocks.AcceptedEntryFits` gives the condition, `Blocks.WrappingEntryIsAccepted` a case.
* `VersionEdit::Clear` keeps the compaction pointers (db/version_edit.cpp:26-39), so decoding inverts
  encoding only up to the pointers an edit already had: `VersionEdits.EditRoundTrip`.
* A slice of 2^32 bytes or more does not survive a length prefix: `Coding.PrefixedRoundTrip` is an
  if-and-only-if.

## Model

| member | source | states |
|---|---|---|
| `DbFormat.CompareIsOrder` | db/dbformat.cpp:47-65 | The three-way comparison on packed tags is the strict order: user key ascending, then sequence and kind descending; only equal keys compare equal, and it is antisymmetric |
| `DbFormat.NewestExists` | db/dbformat.h:63-73 | Any visible entry is bounded by a newest visible one, so the view of a key is defined whenever an entry is visible |
| `InternalKeys.KeyRoundTrip` | db/dbformat.cpp:9-18 | Parsing an appended internal key gives back user key, sequence and kind |
| `InternalKeys.ParsedKeyIsEncoded` | db/dbformat.h:169-180 | Whatever parses is the encoding of what it parses to, with a sequence in range |
| `InternalKeys.CompareEncodedIsOrder` | db/dbformat.cpp:47-65 | Comparing encoded keys, trailer bytes included, decides the abstract order, for any user comparator |
| `Versions.FindFile` | db/version_set.cpp:87-106 | The binary search returns the first file whose largest key is not below the key |
| `Versions.SomeFileOverlapsRange` | db/version_set.cpp:122-157 | True if and only if some file overlaps the range, open ends included, for disjoint and for overlapping files |
| `Versions.GetOverlappingInputs` | db/version_set.cpp:446-485 | The restart loop ends; every file that overlaps the request is in the result; the result is the selection by the final range, which above level 0 is the request; at level 0 that range is closed under overlap and is contained in every closed choice that covers the request |
| `Versions.PickLevelForMemTableOutput` | db/version_set.cpp:420-443 | The chosen level and all above it overlap nothing; no level passed had heavy grandparents; and it stops only for one of the reasons in the source |
| `Versions.TableGetIsNewest` | db/version_set.cpp:269-282 | Seeking in one table and looking at the entry there answers with the newest visible entry of the table, or there is none |
| `Versions.SortNewestFirst` | db/version_set.cpp:284-286 | The level-0 candidates are permuted into descending file number |
| `Versions.FilesToSearch` | db/version_set.cpp:297-344 | The files searched on a level are all that can hold a visible entry for the key, newest first at level 0 |
| `Versions.FirstHitWinsLevel0` | db/version_set.cpp:346-381 | Under level-0 recency the first hit in newest-first order is the newest of the level |
| `Versions.SelectedFileWins` | db/version_set.cpp:322-344 | On a sorted level the one file found by the search has the newest visible entry of the level |
| `Versions.LevelHitWins` | db/version_set.cpp:288-384 | Under the recency invariant the hit on the first level that has one is the newest over all files |
| `Versions.ProbeLevel` | db/version_set.cpp:346-381 | Probing the files of a level gives its newest visible entry, with the file probed last and the one to charge for a seek kept up to date |
| `Versions.Get` | db/version_set.cpp:288-384 | The search level by level answers with the view of all entries of the version; it is Missing if and only if no entry is visible; the first file probed is charged if and only if a second one was probed, and so it is listed at a level of at most 5 |
| `CompactionPicker.Finalize` | db/version_set.cpp:931-966 | The level with the first largest score among levels 0 to 5; the score is one or more if and only if level 0 has four files or some other of these levels holds at least 2^20 times 10^level bytes, and then the level is not empty |
| `CompactionPicker.MaxBytesForLevel` | db/version_set.cpp:29-39 | The loop computes 2^20 times 10 to the power of the level, and for level 0 what it computes for level 1 |
| `CompactionPicker.FullScore` | db/version_set.cpp:938-957 | A level scores one or more if and only if it is full: four files at level 0, the limit in bytes below |
| `Versions.TotalFileSize` | db/version_set.cpp:45-51 | The loop computes the total size of the files |
| `Versions.TotalSizeAdds` | db/version_set.cpp:45-51 | The total is additive over concatenation and for one file is its size |
| `CompactionPicker.GetRange` | db/version_set.cpp:1034-1054 | The smallest and largest bounds of the files, both attained |
| `CompactionPicker.CloseLevel0` | db/version_set.cpp:1130-1145 | The level-0 inputs contain the picked file, are closed under user-key overlap, are contained in every closed set with that file, and leave no gap in their range |
| `CompactionPicker.VersionSet.constructor` | db/version_set.cpp:688-706 | A new version set is scored and has no marked file |
| `CompactionPicker.VersionSet.Install` | db/version_set.cpp:732-808 | A new current version is scored, with no marked file and the same compaction pointers, and what PickCompaction relies on holds again |
| `CompactionPicker.VersionSet.UpdateStats` | db/version_set.cpp:387-398 | One seek less for the charged file and no other; the file is marked if and only if none was marked and its seeks ran out |
| `CompactionPicker.VersionSet.GetAndCharge` | db/version_set.cpp:387-398 | A read that marks a file is followed by a compaction that exists, at a level of at most 5 with non-empty inputs, and the read answers the view of the files |
| `CompactionPicker.VersionSet.SetupOtherInputs` | db/version_set.cpp:1147-1203 | The inputs of the level below are exactly the files meeting the hull of the given ones. With some of them, `all` are the files that GetOverlappingInputs gives for the hull of both lists, and the inputs of the level become `all` if and only if these are more files, hold with those below less than 25 times 2 MB, and meet no further file below; otherwise they stay. The result is a selection whose ranges leave no gap, and the pointer moves to the largest input key |
| `CompactionPicker.VersionSet.ExpandLevel` | db/version_set.cpp:1155-1162 | All files of the level that GetOverlappingInputs gives for the hull of both input lists; they contain the inputs and leave no gap |
| `CompactionPicker.AllMeetingMembers` | db/version_set.cpp:1155-1162 | Above level 0 these are exactly the files of the level that meet the hull |
| `CompactionPicker.VersionSet.Expand` | db/version_set.cpp:1161-1180 | The number of inputs below stays the same if and only if the expanded inputs meet no further file below, and then the expanded inputs are again a selection |
| `CompactionPicker.VersionSet.PickRoundRobin` | db/version_set.cpp:1108-1122 | The first file beyond the compaction pointer, or the first file if there is none |
| `CompactionPicker.VersionSet.PickCompaction` | db/version_set.cpp:1096-1145 | No compaction if and only if neither size nor seeks call for one; otherwise a selection with non-empty inputs at the level and around the file that called for it |
| `CompactionWork.Compaction.IsBaseLevelForKey` | db/version_set.cpp:1264-1283 | For keys asked in ascending order the moving cursors answer the same as scanning every file two or more levels down |
| `CompactionWork.ShouldDrop` | db/db_impl.cpp:797-830 | An entry is dropped if and only if a newer one for its key is at or below the smallest snapshot, or it is an obsolete deletion marker |
| `CompactionWork.Compaction.ShouldStopBefore` | db/version_set.cpp:1285-1304 | The loop does not end if and only if the key lies beyond the first grandparent; if it returns, it asks for a new output only if overlap had been counted before |
| `CompactionWork.OneGrandparentHangs` | db/version_set.cpp:1285-1304 | A selected compaction of one file with one grandparent whose last key lies beyond it |
| `CompactionWork.DoCompactionWork` | db/db_impl.cpp:744-892 | The call does not return if and only if the last input key lies beyond the first grandparent; if it returns, then however the outputs are cut, together they hold exactly the entries that the drop rules keep, in order, and no output is empty |
| `CompactionWork.KeptSorted` | db/db_impl.cpp:744-892 | What is kept is again sorted by internal key |
| `CompactionWork.KeptMembers` | db/db_impl.cpp:797-857 | An entry is kept if and only if it occurs in the input where it is not dropped |
| `CompactionWork.KeptExactly` | db/db_impl.cpp:797-857 | In terms of readers: an input entry is kept if and only if some reader at or above the smallest snapshot finds it as the newest of its key among the inputs and it is not a deletion marker at or below the snapshot with nothing two levels below |
| `CompactionWork.DroppedNewest` | db/db_impl.cpp:797-830 | If the newest visible entry at or above the smallest snapshot is dropped, it was a deletion marker at base level and nothing that survives for the key is visible |
| `CompactionWork.SameView` | db/db_impl.cpp:758-857 | A compaction that uncovers no value outside the inputs leaves every view at or above the smallest snapshot as it was |
| `CompactionWork.UncoveringShows` | db/db_impl.cpp:758-857 | A compaction that uncovers a value changes a view |
| `CompactionWork.CompactionViewExact` | db/db_impl.cpp:758-857 | All views at or above the smallest snapshot stay the same if and only if for no key the newest entry at the snapshot is a deletion marker among the inputs at base level while the newest one outside the inputs is a value |
| `VersionBuilder.UpperBound` | db/version_set.cpp:637-643 | The binary search of the merge finds the end of the base files that are not after the added one |
| `VersionBuilder.SaveLevelTo` | db/version_set.cpp:628-652 | The merge loop of one level computes the specified level |
| `VersionBuilder.SaveLevelSpec` | db/version_set.cpp:623-684 | A saved level is sorted and holds exactly the base and added files that are not deleted |
| `VersionBuilder.Builder.Apply` | db/version_set.cpp:577-620 | An edit is added to what the builder has collected for each level |
| `VersionBuilder.Builder.SaveTo` | db/version_set.cpp:623-684 | Every level of the saved version is the specified merge |
| `VersionBuilder.ApplyEditSpec` | db/version_set.cpp:732-753 | Installing an edit removes exactly its deleted files and adds exactly its new ones, level by level |
| `VersionBuilder.InstallEdit` | db/version_set.cpp:732-753 | LogAndApply builds the version that the edit describes |
| `VersionBuilder.ReplayOnceIsReplayEach` | db/version_set.cpp:514-684 | Collecting a whole edit history in one builder and saving once gives the version that building one version per edit gives, provided no file is added again after its deletion on a level |
| `VersionBuilder.RecoverLevels` | db/version_set.cpp:810-891 | One builder over the whole manifest rebuilds the version that the edits built one by one |
| `VersionBuilder.SnapshotRebuilds` | db/version_set.cpp:967-995 | The snapshot edit that starts a manifest rebuilds exactly the version it describes |
| `Store.GoodIsSorted` | db/version_set.cpp:653-667 | In a good version the overlap assertions cannot fire and every level below 0 may be searched |
| `Store.SelectionSeparates` | db/version_set.cpp:1147-1203 | Files of the two levels that are not inputs lie wholly before or wholly after the hull of the inputs |
| `Store.FlushKeepsGood` | db/db_impl.cpp:425-466 | A flushed table keeps levels sorted and disjoint at the level it is placed |
| `Store.CompactionKeepsGood` | db/db_impl.cpp:723-742 | Replacing inputs by outputs keeps levels sorted and disjoint in internal-key order, however the outputs were cut and whether or not the cut is clean |
| `StoreView.FlushKeepsRecency` | db/db_impl.cpp:425-466 | A flushed table that is newer than all files keeps the recency of the levels |
| `StoreView.CleanCutLeavesNothingOlder` | db/version_set.cpp:1096-1203 | With a clean cut a file outside the inputs is newer for the keys they share, or lies at least two levels down |
| `StoreView.CompactionKeepsRecency` | db/db_impl.cpp:723-742 | A clean compaction keeps the recency of the levels |
| `StoreView.NothingResurrected` | db/db_impl.cpp:813-827 | A clean compaction, with files flushed since it started, uncovers nothing |
| `StoreView.CompactionKeepsView` | db/db_impl.cpp:744-892 | A clean compaction leaves the value or absence of every key at every sequence from the smallest snapshot on unchanged over the whole version |
| `EngineStructure.SunkFileIsBeside` | db/version_set.cpp:420-443 | A file that meets none of a gapless set of inputs lies wholly on one side of their hull, so a flush pushed down while a compaction runs never overlaps its outputs |
| `EngineStructure.FlushStructure` | db/db_impl.cpp:468-499 | Installing a flush keeps the structural invariant, a running compaction included |
| `EngineStructure.CompactionStructure` | db/db_impl.cpp:723-742 | Installing a compaction keeps the structural invariant, though flushes were installed since it started |
| `EngineStructure.DeleteObsoleteStructure` | db/db_impl.cpp:203-250 | Deleting obsolete files keeps every table of the current version and every pending output |
| `EngineRecovery.RecoveredBatches` | db/db_impl.cpp:252-328 | The logs that recovery reads hold exactly the batches that no table covers, in order |
| `EngineRecovery.ReopenStructure` | db/db_impl.cpp:252-423 | Recovering after a crash between any two steps gives a state that keeps the structural invariant |
| `EngineMeaning.FlushMeaning` | db/db_impl.cpp:468-499 | Installing a flush keeps the files meaning the flushed part of the history |
| `EngineMeaning.CompactionMeaning` | db/db_impl.cpp:723-742 | Installing a compaction keeps the files meaning the flushed part of the history |
| `EngineMeaning.ReopenMeaning` | db/db_impl.cpp:252-423 | Recovering keeps recency and meaning of the files |
| `EngineTheorems.StructureNext` | db/db_impl.cpp:468-742 | Every step of the machine keeps the structural invariant, with no assumption on how compactions cut |
| `EngineTheorems.MeaningfulNext` | db/db_impl.cpp:468-742 | Every step keeps recency and meaning, if a compaction that starts cuts cleanly |
| `EngineTheorems.LevelsNeverOverlap` | db/version_set.cpp:623-684 | In every state of every run, levels 1 to 6 are sorted and pairwise disjoint |
| `EngineTheorems.LiveTablesSurvive` | db/db_impl.cpp:203-250 | In every state of every run, the tables of the current version, of every pinned version and of a running compaction exist and hold what their metadata says |
| `EngineTheorems.ManifestIsCurrent` | db/version_set.cpp:732-923 | In every state of every run, replaying the manifest gives the current version and log number, and a next file number above all its files |
| `EngineTheorems.ReaderSeesHistory` | db/db_impl.cpp:942-987 | At any sequence from the compaction floor to the last one, memtables and files together mean the acknowledged writes; a group in flight is invisible |
| `EngineTheorems.EveryReadIsRight` | db/db_impl.cpp:942-987 | In every clean run, at the last sequence and at every held snapshot, the store means the acknowledged writes; what these mean is a plain map by `History.HistoryIsMap` |
| `History.EntriesAreOperations` | db/write_batch.cpp:97-131 | The entry of sequence number n is the n-th operation of all batches in order, and there are no others |
| `History.HistoryIsMap` | db/db_impl.cpp:1041-1059 | The view of a history at sequence t is the lookup in the map that its first t operations build when they are applied one after another, a put setting its key and a delete removing it |
| `EngineTheorems.ReadsAreMap` | db/db_impl.cpp:942-987 | In every clean run, at the last sequence and at every held snapshot, Get returns the lookup in the map built by the acknowledged operations up to that sequence |
| `EngineTheorems.LayeredGetIsView` | db/db_impl.cpp:942-987 | Asking memtable, immutable memtable and files in turn gives the newest visible entry over all of them |
| `EngineTheorems.GetIsRight` | db/db_impl.cpp:942-987 | In every clean run the layered lookup answers what the acknowledged writes say |
| `EngineTheorems.NothingAcknowledgedIsLost` | db/db_impl.cpp:252-423 | In every state of every clean run, the version rebuilt from the manifest plus the logs from its log number on mean all acknowledged writes plus, whole, the group in flight if it was logged; a crash inside an append is the subject of LogRecovery and Manifest |
| `EngineTheorems.ReopenRestores` | db/db_impl.cpp:1207-1239 | A reopened store has that history, means it, and numbers later writes above every write in it |
| `EngineTheorems.SnapshotsAreStable` | db/db_impl.cpp:999-1007 | As long as a snapshot is held, every key reads the same through it |
| `EngineTheorems.OldViewsStay` | db/db_impl.cpp:1018-1078 | Appending to the history changes no view at an earlier sequence |
| `CleanCuts.CompactionRecencyExact` | db/db_impl.cpp:744-892 | A selected compaction keeps recency if and only if it drops every entry of every user key it splits |
| `CleanCuts.WithoutSnapshotsRunsAreClean` | db/db_impl.cpp:758-762 | A run that takes no snapshot is clean: all its compactions cut between user keys |
| `CleanCuts.NoSnapshotsNext` | db/db_impl.cpp:758-762 | While no snapshot is taken, user keys stay disjoint between files of a level and every step is clean |
| `CleanCuts.UncleanCutResurrects` | db/version_set.cpp:1108-1122 | A good version with one key split over two files of level 1, whose selected compaction brings a deleted value back |
| `UncleanRun.UncleanRunReadsWrong` | db/db_impl.cpp:797-857 | A run from a new database, not clean, at the end of which the store shows a value that the acknowledged writes deleted |
| `ReadPath.MemTableGet` | db/memtable.cpp:89-115 | Looking up a memtable answers with its view, and Missing if and only if it has no visible entry |
| `ReadPath.Get` | db/db_impl.cpp:942-987 | In every state that satisfies the invariants, Get run over the memtables and the files returns what the acknowledged writes say at its sequence |
| `PinnedReads.TablesStayAlong` | db/db_impl.cpp:203-250 | As long as a version is current or pinned, none of its tables changes or goes |
| `PinnedReads.MemGrowsAlong` | db/db_impl.cpp:954-978 | A memtable that a reader holds only gains entries newer than the last sequence when the reader began |
| `PinnedReads.PinnedGet` | db/db_impl.cpp:942-987 | A Get that pins memtables and version in one state and reads them in later ones, whatever happens meanwhile, returns what the writes acknowledged when it began say at its sequence |
| `InternalIterator.LevelIsFlat` | db/version_set.cpp:228-233 | The two-level iterator of a level, over file numbers and the tables they open, runs over the entries of the level in order |
| `InternalIterator.ReadChildren` | db/db_impl.cpp:913-940 | The list of children: memtables, level-0 tables, a concatenating iterator for each other level with files |
| `InternalIterator.ChildrenHoldStore` | db/db_impl.cpp:913-940 | The children are sorted and hold everything in the store, each entry in one of them |
| `InternalIterator.IteratorShowsHistory` | db/db_impl.cpp:989-997 | The database iterator over the merge of the children shows a key and a value if and only if the acknowledged writes say so |
| `InternalIterator.ScanStore` | db/db_impl.cpp:989-997 | A scan through all three kinds of iterators returns, in ascending order and each key once, exactly what the acknowledged writes say |
| `Rings.Ring.constructor` | db/snapshot.h:32-35 | The sentinel alone is an empty list |
| `Rings.Ring.Append` | util/cache.cpp:161-166 | Linking before the sentinel appends to the list, in both directions |
| `Rings.Ring.Remove` | util/cache.cpp:156-159 | Unlinking removes just that element, wherever it is |
| `Snapshots.SnapshotList.New` | db/snapshot.h:41-50 | A snapshot at the last sequence goes to the end, and numbers stay ascending |
| `Snapshots.SnapshotList.Delete` | db/snapshot.h:52-57 | Deleting any snapshot leaves the others in order |
| `Snapshots.SnapshotList.Smallest` | db/db_impl.cpp:758-762 | The oldest snapshot is the smallest held; without one it is the last sequence |
| `Manifest.Decode` | db/version_set.cpp:855-875 | A manifest record decodes to an edit of existing levels, or fails on corruption or another comparator |
| `Manifest.Recover` | db/version_set.cpp:810-923 | Reading, decoding, collecting and saving as Recover does gives the recovered version and counters, or fails on any report, bad record or missing counter; `Manifest.InstallTakesLast` says which counters |
| `Manifest.InstallTakesLast` | db/version_set.cpp:862-918 | For every list of edits: recovery installs the log number, the last sequence and one more than the next file number of the last edits that have them, and fails if and only if one of the three is in no edit |
| `Manifest.ManifestRecovers` | db/version_set.cpp:810-923 | The bytes of a manifest written from an edit history recover to the version that installing the edits one by one gave |
| `Manifest.ReachableManifestRecovers` | db/version_set.cpp:732-923 | In every state of every run, the bytes of the manifest recover to the current version and log number, to a next file number above every file and at most one beyond the current one, and to a last sequence between the end of the flushed history and the current one |
| `Manifest.TornManifest` | db/version_set.cpp:810-923 | A manifest cut at any byte recovers to the edits whose records are whole if the cut lies right after a record or the padding behind it, and fails otherwise |
| `Manifest.CrashInManifestAppend` | db/version_set.cpp:755-786 | In every state of every run, a crash while a record is appended to the manifest leaves one that recovers to the version before, or, unless the cut ends cleanly, one that cannot be recovered |
| `Manifest.TornAppendFails` | db/version_set.cpp:845-887 | One byte of the next record is enough to make recovery fail |
| `LogRecovery.RecoverLogFile` | db/db_impl.cpp:330-423 | The entries of the batches that the whole records stand for are inserted in order and the largest sequence is found; in paranoid mode it fails if and only if something was reported or malformed |
| `LogRecovery.EntriesAreInLog` | db/db_impl.cpp:330-423 | The entries inserted are exactly those of the batches |
| `LogRecovery.LogRecovers` | db/db_impl.cpp:330-423 | The bytes of a log, with whatever is there of one more record, give back its batches and its largest sequence, with a report unless the cut ends cleanly |
| `LogRecovery.ReachableLogsRecover` | db/db_impl.cpp:252-423 | In every state of every run, the bytes of the logs that recovery reads, each followed by whatever a crash left of one more record, give back exactly the batches that no table covers |
| `LogRecovery.ReachableSequenceRecovers` | db/db_impl.cpp:252-328 | In every state of every run, the larger of the last sequence in the manifest and the largest one in the logs is the number of the last logged operation |
| `VersionEdits.FieldRoundTrip` | db/version_edit.cpp:41-208 | Each field is read back from its bytes, whatever follows |
| `VersionEdits.FieldsRoundTrip` | db/version_edit.cpp:41-208 | A list of fields is parsed back in order to the end |
| `VersionEdits.VersionEdit.Clear` | db/version_edit.cpp:26-39 | Clearing resets everything but the compaction pointers |
| `VersionEdits.VersionEdit.EncodeTo` | db/version_edit.cpp:41-86 | The bytes spell fields, and parsing them sets exactly the contents of the edit |
| `VersionEdits.VersionEdit.DecodeFrom` | db/version_edit.cpp:109-208 | Decoding succeeds if and only if all bytes parse, and sets what the fields before the first bad one say |
| `VersionEdits.EditRoundTrip` | db/version_edit.cpp:41-208 | Decoding what was encoded gives the same edit, with its pointers behind those the decoding edit already had |
| `Coding.UnfixedFixed` | util/coding.cpp:5-24 | Decoding a fixed-width integer inverts encoding for every value that fits |
| `Coding.FixedUnfixed` | util/coding.h:37-48 | Encoding inverts decoding for every byte string, and the value fits |
| `Coding.FixedInBlock` | util/coding.cpp:14-24 | Each integer of an array of fixed-width integers is read back at its place inside a larger block |
| `Coding.EncodeVarint32` | util/coding.cpp:26-51 | The branches by size write the varint groups |
| `Coding.EncodeVarint64` | util/coding.cpp:59-68 | The loop writes the varint groups |
| `Coding.GetVarint32` | util/coding.cpp:90-118 | The shifting loop reads at most five groups and returns their value modulo 2^32 and the rest, or fails |
| `Coding.GetVarint64` | util/coding.cpp:120-147 | The same with ten groups and 2^64 |
| `Coding.Varint32RoundTrip` | util/coding.cpp:26-118 | Every 32-bit value is read back from its varint, whatever follows |
| `Coding.Varint64RoundTrip` | util/coding.cpp:59-147 | Every 64-bit value is read back from its varint, whatever follows |
| `Coding.VarintFits` | util/coding.cpp:81-88 | A value below 128^n takes at most n bytes |
| `Coding.VarintLength` | util/coding.cpp:81-88 | The counting loop gives the size of the varint |
| `Coding.GetLengthPrefixedSlice` | util/coding.cpp:160-169 | A slice is cut off if its length is there and enough bytes follow; otherwise it fails |
| `Coding.PrefixedRoundTrip` | util/coding.cpp:76-169 | A slice is read back behind its length if and only if it is shorter than 2^32 bytes |
| `LogFormat.UnmaskMask` | util/crc32c.h:27-36 | Unmasking inverts masking for every 32-bit checksum |
| `LogFormat.CrcFramingIsLawful` | db/log_writer.cpp:73-98 | Headers as written are accepted by the reader, for any checksum that satisfies the concatenation law |
| `LogFormat.Writer.EmitPhysicalRecord` | db/log_writer.cpp:73-98 | A header and the data are appended and the block offset advances by their size |
| `LogFormat.Writer.AddRecord` | db/log_writer.cpp:25-71 | The file afterwards is the specified log of all records so far, empty records and blocks with exactly seven bytes left included |
| `LogReader.Reader.ReadPhysicalRecord` | db/log_reader.cpp:177-254 | Reading block by block finds the physical record that the position in the whole file determines, with the same reports |
| `LogReader.Reader.ReadRecord` | db/log_reader.cpp:57-160 | The loop over fragments returns the record that the position in the whole file determines, the type bytes that stand for the end of the file and for a bad record included; which byte strings are records is the subject of `LogRecords` |
| `LogReader.ReadLog` | db/log_reader.cpp:57-160 | Reading until the end returns the specified records and number of reports |
| `LogRecords.FoundIsInFile` | db/log_reader.cpp:177-254 | A fragment that is found lies in the file, at the position or at the next block, with its length, type and checksum; otherwise the rest of the block is skipped, or the file ends |
| `LogRecords.OnlyRecordsAreReturned` | db/log_reader.cpp:57-160 | For every file: whatever is returned is the data of one fragment of type 1, or of consecutive ones of types 2, 3 any number of times, and 4 |
| `LogRecords.RecordChain` | db/log_reader.cpp:57-160 | The types of the fragments of such a record by number and place, each directly behind the one before |
| `LogRecords.RecordIsReturned` | db/log_reader.cpp:57-160 | Conversely, reading from such a fragment or chain of fragments on returns its data and goes on behind it |
| `LogRecords.BrokenRecordIsDropped` | db/log_reader.cpp:57-160 | A record that has begun and is followed by anything but a fragment of type 3 or 4 is dropped whole: reading goes on as if it had not been there |
| `LogRecords.CollectedIsDiscarded` | db/log_reader.cpp:57-160 | Wherever no fragment of type 3 or 4 is found, what has been collected changes neither the record returned nor where reading goes on, and a loss is reported once |
| `LogRecords.StrayIsSkipped` | db/log_reader.cpp:57-160 | Outside a record, what does not begin one is skipped |
| `LogRecords.WrittenKinds` | db/log_writer.cpp:25-71 | The type bytes of the fragments of a written record by number: 1 if there is one; otherwise 2 for the first, 4 for the last and 3 for all between |
| `LogTheorems.PieceIsRead` | db/log_reader.cpp:177-254 | A written fragment is read back, whatever follows it |
| `LogTheorems.TornPieceIsDropped` | db/log_reader.cpp:177-254 | A fragment cut anywhere is never taken for one |
| `LogTheorems.WholeRecordIsRead` | db/log_reader.cpp:57-160 | A record held whole by the file is returned without a report |
| `LogTheorems.TornRecordEnds` | db/log_reader.cpp:57-160 | A record cut anywhere is not returned, nor anything else, and it is reported unless the file ends cleanly |
| `LogTheorems.RoundTrip` | db/log_writer.cpp:25-98 | Reading what AddRecord wrote returns the same records with no report |
| `LogTheorems.TruncatedLog` | db/log_reader.cpp:57-254 | Cut at any byte, a log returns exactly the records wholly before the cut, and nothing is reported if and only if the cut lies right after a record or right after the padding behind it |
| `LogTheorems.ZeroTail` | db/log_reader.cpp:177-254 | Zero bytes after a log change no returned record |
| `WriteBatches.BatchRoundTrip` | db/write_batch.cpp:39-77 | Iterating over the bytes of a batch gives back its records, with a matching count |
| `WriteBatches.WriteBatch.Put` | db/write_batch.cpp:95-100 | The bytes become those of the batch with one more put |
| `WriteBatches.WriteBatch.Delete` | db/write_batch.cpp:102-106 | The bytes become those of the batch with one more deletion |
| `WriteBatches.WriteBatch.Append` | db/write_batch.cpp:138-142 | The bytes become those of the records of both batches, under the sequence of the first |
| `WriteBatches.WriteBatch.SetSequence` | db/write_batch.cpp:91-93 | The sequence is set and the records stay |
| `WriteBatches.Iterate` | db/write_batch.cpp:39-77 | The records up to the first malformed one are passed on, and it succeeds if and only if all bytes parse and the count matches |
| `WriteBatches.InsertInto` | db/write_batch.cpp:109-131 | The records up to the first malformed one are inserted with consecutive sequence numbers from that of the batch, the i-th record with the i-th number and its key, and it succeeds if and only if iterating does |
| `WriteBatches.BatchIsInserted` | db/write_batch.cpp:109-131 | The bytes of a batch are inserted as that batch |
| `Merger.MergeExists` | table/merger.cpp:13-34 | Sorted children with distinct keys have a sorted merge |
| `Merger.MergingIterator.FindSmallest` | table/merger.cpp:151-164 | The child with the smallest key among the valid ones, or none |
| `Merger.MergingIterator.FindLargest` | table/merger.cpp:166-179 | The child with the largest key among the valid ones, or none |
| `Merger.MergingIterator.SeekToFirst` | table/merger.cpp:34-40 | The iterator stands at the first entry of the merge |
| `Merger.MergingIterator.SeekToLast` | table/merger.cpp:42-48 | The iterator stands at the last entry of the merge |
| `Merger.MergingIterator.Seek` | table/merger.cpp:50-56 | The iterator stands at the first entry of the merge at or after the target |
| `Merger.MergingIterator.Next` | table/merger.cpp:58-82 | One entry ahead in the merge, whatever the direction before |
| `Merger.MergingIterator.Prev` | table/merger.cpp:84-111 | One entry back in the merge, whatever the direction before |
| `Merger.MergingIterator.Item` | table/merger.cpp:113-121 | The entry is the one of the merge at the position |
| `TwoLevel.FlatSorted` | table/two_level_iterator.cpp:11-77 | The blocks in index order make up one sorted table |
| `TwoLevel.SeekBlock` | table/two_level_iterator.cpp:79-84 | Seeking in the index and then in its block is seeking in the whole |
| `TwoLevel.TwoLevelIterator.InitDataBlock` | table/two_level_iterator.cpp:142-156 | The data iterator is that of the block the index stands at, also when it is reused |
| `TwoLevel.TwoLevelIterator.SkipEmptyDataBlocksForward` | table/two_level_iterator.cpp:112-122 | Skipping empty blocks loses no entry |
| `TwoLevel.TwoLevelIterator.SkipEmptyDataBlocksBackward` | table/two_level_iterator.cpp:124-135 | The same backwards |
| `TwoLevel.TwoLevelIterator.Seek` | table/two_level_iterator.cpp:79-84 | The first entry of the whole at or after the target |
| `TwoLevel.TwoLevelIterator.SeekToFirst` | table/two_level_iterator.cpp:86-91 | The first entry of the whole |
| `TwoLevel.TwoLevelIterator.SeekToLast` | table/two_level_iterator.cpp:93-98 | The last entry of the whole |
| `TwoLevel.TwoLevelIterator.Next` | table/two_level_iterator.cpp:100-104 | One entry ahead in the whole |
| `TwoLevel.TwoLevelIterator.Prev` | table/two_level_iterator.cpp:106-110 | One entry back in the whole |
| `DBIters.DBIter.FindNextUserEntry` | db/db_iter.cpp:132-160 | The iterator stands at the first shown entry from its start on: the newest visible entry of its key, and a value |
| `DBIters.DBIter.SeekToFirst` | db/db_iter.cpp:245-254 | The first shown entry |
| `DBIters.DBIter.Seek` | db/db_iter.cpp:231-243 | The first shown entry at or after the place of the target |
| `DBIters.SeekSkipsEarlierKeys` | db/db_iter.cpp:231-243 | A shown entry lies before that place if and only if its key is below the target |
| `DBIters.DBIter.Next` | db/db_iter.cpp:106-130 | The next shown entry, also after moving backwards |
| `DBIters.DBIter.FindPrevUserEntry` | db/db_iter.cpp:189-229 | The loop never ends if and only if it meets an invisible entry before it has found its answer; otherwise it finds the last shown entry before its start |
| `DBIters.DBIter.SeekToLast` | db/db_iter.cpp:256-261 | The last shown entry, under the same condition |
| `DBIters.DBIter.Prev` | db/db_iter.cpp:162-187 | The previous shown entry, also after moving forwards, under the same condition |
| `DBIters.NeverBlocked` | db/db_iter.cpp:189-229 | If all entries are visible the loop always ends |
| `DBIters.NewerWriteBlocks` | db/db_iter.cpp:189-229 | One entry newer than the snapshot keeps a reverse scan from ending |
| `DBIters.ItemsAscend` | db/db_iter.cpp:106-160 | The items shown have strictly ascending keys, each key once |
| `DBIters.ItemsAreView` | db/db_iter.cpp:106-160 | A key and a value are shown if and only if they are the view at the snapshot |
| `DBIters.ScanForward` | db/db_iter.cpp:106-160 | SeekToFirst and repeated Next give exactly the items shown, in order |
| `DBIters.ScanBackward` | db/db_iter.cpp:162-261 | If all entries are visible, SeekToLast and repeated Prev give exactly the items shown, from the end |
| `SkipLists.OwnLinkStep` | db/skiplist.h:360-371 | Storing the link of the new node changes no chain |
| `SkipLists.PublishStep` | db/skiplist.h:360-371 | Storing the link of its predecessor adds the new node, and no other change, to the sorted chain of one more level, and chains stay nested |
| `SkipLists.LoadStep` | db/skiplist.h:263-282 | One load moves a search along the chain or shows that it has found the last node before the key and the first at or after it |
| `SkipLists.SkipList.FindGreaterOrEqual` | db/skiplist.h:263-282 | The first node at or after the key, and for each level the last node before it |
| `SkipLists.SkipList.FindLessThan` | db/skiplist.h:285-303 | The last node before the key, or the head |
| `SkipLists.SkipList.FindLast` | db/skiplist.h:306-323 | The last node, or the head |
| `SkipLists.SkipList.Insert` | db/skiplist.h:338-371 | Adds exactly one node with the key, to the levels below its height and no other, and every level stays a sorted chain within the one below |
| `SkipLists.SkipList.Contains` | db/skiplist.h:374-382 | True if and only if a node has the key |
| `SkipListReaders.NextInv` | db/skiplist.h:338-371 | Every single load and store of writer and readers keeps chains sorted and nested, keeps every reader on its way, and loses no node |
| `SkipListReaders.RunInv` | db/skiplist.h:338-371 | So in every state of every run |
| `SkipListReaders.SearchIsExact` | db/skiplist.h:263-282 | A search among any number of inserts returns the first node at or after its key in the lowest list at its last load |
| `SkipListReaders.RunGrows` | db/skiplist.h:338-371 | Along a run nodes keep their keys and stay linked |
| `HandleTables.HandleTable.FindPointer` | util/cache.cpp:71-77 | The slot that holds the handle with the key and hash, or the end of its chain |
| `HandleTables.HandleTable.Lookup` | util/cache.cpp:39-41 | The one handle with the key and hash, or none |
| `HandleTables.HandleTable.Insert` | util/cache.cpp:43-54 | The handle takes the place of the one with the same key and hash, which is returned; others stay |
| `HandleTables.HandleTable.Remove` | util/cache.cpp:56-64 | Just the handle with the key and hash is taken out and returned |
| `HandleTables.HandleTable.Resize` | util/cache.cpp:79-103 | Relinking every handle into a larger table keeps all members and the chain invariants, with at least as many buckets as elements |
| `Caches.LRUCache.Unref` | util/cache.cpp:146-154 | The last reference, and no other, runs the deleter and gives back the charge; the books balance again |
| `Caches.LRUCache.Lookup` | util/cache.cpp:168-177 | The cached handle with the key is held once more, counts as used and moves to the end of the order of use; a miss changes nothing |
| `Caches.LRUCache.Release` | util/cache.cpp:179-182 | One reference of a client goes; the deleter runs if and only if it was the last |
| `Caches.LRUCache.Insert` | util/cache.cpp:184-215 | A new handle held by its caller counts as used and replaces one with the same key at the end of the order of use; then handles are evicted from the front, no more of them than needed, until the charge of live handles fits the capacity or nothing is cached; handles that stay keep value and charge |
| `Caches.LRUCache.Evict` | util/cache.cpp:208-213 | The handle that leaves table and ring is the least recently used one: every handle left in the cache has been inserted or found after its last use; its charge is given back if no client holds it |
| `Caches.LRUCache.EvictToFit` | util/cache.cpp:208-213 | The order of use loses a prefix; undoing the last eviction would exceed the capacity |
| `Caches.LRUCache.Erase` | util/cache.cpp:217-224 | Just the handles with the key leave the cache |
| `WriteQueue.BuildBatchGroup` | db/db_impl.cpp:1082-1127 | The group is the longest allowed prefix of the queue. If batches are joined it holds at most 131072 bytes more than its first batch when that has at most 131072, and at most 1048576 otherwise; it ends before the queue only if the next writer is synced under an unsynced leader or would exceed that bound. Its updates are the batch of the first writer, or, if batches are joined, the temporary batch with theirs appended in order |
| `WriteQueue.GroupIsWithinLimit` | db/db_impl.cpp:1090-1116 | The bound in bytes and the reason to stop hold of every group that a leader may form |
| `WriteQueue.GroupSizeAdds` | db/db_impl.cpp:1088-1112 | The size of a group is additive over its writers: the size of a batch, and nothing for a writer without one |
| `WriteQueue.SyncedTogether` | db/db_impl.cpp:1103-1106 | No member of a group asks for sync unless its leader does |
| `WriteQueue.NextInv` | db/db_impl.cpp:1018-1078 | Every step of arriving, forming a group, logging, inserting and finishing keeps the queue invariant |
| `WriteQueue.ServedInOrder` | db/db_impl.cpp:1018-1078 | In every run writers finish once and in order of arrival, with the status of their group; sync writers only under sync leaders; each batch gets the sequence numbers right after those before it |
| `WriteQueue.TemporaryBatchIsEmpty` | db/db_impl.cpp:1082-1127 | Whenever a group is formed the temporary batch is empty, though a group appends to it and it is cleared only by a group that used it |
| `WriteQueue.ReaderSeesWholeGroups` | db/db_impl.cpp:1050-1059 | In every state a reader at the last sequence sees all operations of a finished batch or none; what is inserted beyond belongs to the group in progress |
| `Blocks.FastSizes` | table/block.cpp:36-56 | The three-byte fast path agrees with decoding three varints |
| `Blocks.DecodeEntry` | table/block.cpp:36-56 | The header of an entry is decoded, or rejected if what follows is shorter than its sizes, compared in 32 bits |
| `Blocks.AcceptedEntryFits` | table/block.cpp:52-54 | In less than 2^32 bytes, an accepted entry fits if and only if its sizes do not wrap around |
| `Blocks.WrappingEntryIsAccepted` | table/block.cpp:52-54 | A header whose sizes add up to 2^32 is accepted with nothing behind it |
| `Blocks.EntryRoundTrip` | table/block_builder.cpp:42-71 | The header of a written entry is decoded back, whatever follows, if and only if it passes the 32-bit comparison |
| `Blocks.BlockBuilder.Add` | table/block_builder.cpp:42-71 | One more pair in the layout; it shares exactly the common prefix with the last key, or nothing and is a restart point if and only if the interval is used up |
| `Blocks.BlockBuilder.Finish` | table/block_builder.cpp:33-40 | The bytes are a whole block of the pairs added: entries, four bytes for each restart point, and their number, which fits |
| `Blocks.Iter.GetRestartPoint` | table/block.cpp:79-82 | The offset of an entry that shares nothing |
| `Blocks.Iter.ParseNextKey` | table/block.cpp:189-214 | The iterator moves to the next pair, rebuilding its key from the shared prefix, or to the end |
| `Blocks.Iter.SeekToFirst` | table/block.cpp:171-174 | The first pair |
| `Blocks.Iter.SeekToLast` | table/block.cpp:176-179 | The last pair |
| `Blocks.Iter.Next` | table/block.cpp:118-121 | The next pair |
| `Blocks.Iter.Prev` | table/block.cpp:123-138 | The previous pair, or the end before the first one |
| `Blocks.Iter.Item` | table/block.cpp:108-116 | The pair at the position |
| `Blocks.Build` | table/block_builder.cpp:33-71 | Building a block from pairs gives a block of exactly those pairs |
| `Blocks.BuildAndRead` | table/block.cpp:118-214 | Builder and iterator together: any pairs and any restart interval, read forward and backward with the number of restart points and the offset that was meant, both taken from the bytes, give the pairs that were added |
| `Blocks.ReadForward` | table/block.cpp:118-214 | SeekToFirst and repeated Next read all pairs |
| `Blocks.ReadBackward` | table/block.cpp:123-214 | SeekToLast and repeated Prev read all pairs |
| `Blocks.OffsetIsThreeOff` | table/block.cpp:14-28 | For every finished block the offset the constructor computes lies three bytes beyond the entries, and the one that was meant at their end |
| `Blocks.FirstOffsetIs` | table/block.cpp:79-82 | What is then read as the first restart point is 256 times the low three bytes of the next word |
| `Blocks.SeekToFirstStartsRight` | table/block.cpp:171-174 | With that offset SeekToFirst starts at the first entry if and only if there is a second restart point at a multiple of 2^24 |
| `Blocks.OnePairStartsWrong` | table/block.cpp:171-174 | A block of one pair for which it starts beyond the end of the block |
| `Blocks.PhantomEntry` | table/block.cpp:189-214 | With that offset one empty entry is found behind the last one |
| `Blocks.Iter.FindRestart` | table/block.cpp:140-160 | The binary search finds the last restart point with a key before the target, or the first one |
| `Blocks.Iter.Seek` | table/block.cpp:140-169 | The iterator moves to the first pair at or after the target behind the one it stood at |
| `Blocks.SeekIsRight` | table/block.cpp:140-169 | That is the first such pair of the block if and only if the pair it stood at comes before the target |
| `Bloom.SetBitSpec` | util/bloom.cpp:40-46 | Setting a bit sets that bit and leaves every other |
| `Bloom.DeltaRotates` | util/bloom.cpp:40-40 | Bit by bit, the step between probes is the hash rotated right by 17 bits |
| `Bloom.ProbeIsLinear` | util/bloom.cpp:40-45 | The j-th probe is the hash plus j times the step, in 32 bits |
| `Bloom.FilterBytes` | util/bloom.cpp:29-33 | The smallest number of bytes with bits for all keys, but at least eight |
| `Bloom.AddBits` | util/bloom.cpp:38-47 | Exactly the probes of a key are set in the array besides what was set |
| `Bloom.CreateFilter` | util/bloom.cpp:28-48 | Behind what was there, a filter of the right size whose set bits are exactly the probes of the keys, so that every key may match |
| `Bloom.KeyMayMatch` | util/bloom.cpp:50-69 | The probe loop answers whether all bits of the key are set, with the answers for short filters and reserved encodings |
| `FilterBlocks.FilterBlockBuilder.StartBlock` | table/filter_block.cpp:22-28 | Filters are generated up to the one for the block offset, and keys stay accounted for |
| `FilterBlocks.FilterBlockBuilder.AddKey` | table/filter_block.cpp:30-34 | The key is added under its block offset |
| `FilterBlocks.FilterBlockBuilder.GenerateFilter` | table/filter_block.cpp:53-77 | One more filter, over the keys collected |
| `FilterBlocks.FilterBlockBuilder.Finish` | table/filter_block.cpp:36-50 | Filters, their offsets, the offset of those and the base, covering every key added |
| `FilterBlocks.FilterBlockReader.constructor` | table/filter_block.cpp:79-93 | The shape of the contents, with the checks for short or bad ones |
| `FilterBlocks.FilterBlockReader.KeyMayMatch` | table/filter_block.cpp:95-109 | The answer of the filter of the block offset, or true without one |
| `FilterBlocks.NoFalseNegatives` | table/filter_block.cpp:22-109 | A key added under a block offset is never denied under that offset |
| `FilterBlocks.AskAfterBuilding` | table/filter_block.cpp:22-109 | Builder and reader together: every key of every block is found, if the block is smaller than 2^32 bytes |
| `VersionRefs.DropAll` | db/version_set.cpp:75-84 | Dropping one reference for each listed file leaves exact counts, and files without any are gone |
| `VersionRefs.VersionTable.Unref` | db/version_set.cpp:404-411 | The count goes down by one; the version goes if and only if nothing refers to it any more |
| `VersionRefs.VersionTable.BaseIsAlive` | db/version_set.cpp:542-553 | The version a builder is based on is alive as long as the builder |
| `VersionRefs.VersionList.Ref` | db/version_set.cpp:400-402 | One more holder of a live version |
| `VersionRefs.VersionList.Unref` | db/version_set.cpp:404-411 | One holder less; the version and its file references go if and only if it was the last reference |
| `VersionRefs.VersionList.NewBuilder` | db/version_set.cpp:542-553 | A builder holds the current version |
| `VersionRefs.VersionList.ApplyFile` | db/version_set.cpp:596-619 | A new file description is held by the builder |
| `VersionRefs.VersionList.SaveTo` | db/version_set.cpp:623-685 | Every file a builder keeps from its base or its own additions is alive, and the new version holds a reference to each |
| `VersionRefs.VersionList.DeleteBuilder` | db/version_set.cpp:555-574 | A builder drops its files and its base version |
| `VersionRefs.VersionList.AppendVersion` | db/version_set.cpp:715-730 | The new version is current with one reference, and the one before loses one |
| `VersionRefs.VersionList.FileAliveIff` | db/version_set.cpp:67-85 | A file description is alive if and only if a version in use, a builder or a version being prepared lists it |

## Left out

* I/O errors, corrupted tables and a crash of the machine: a process may crash at any moment and appended bytes survive, as leveldb/options.h:124-127 promises without sync. A flushed table is closed without a sync (db/builder.cpp:54-56), so a crash of the machine promises less.
* Progress: no compaction is scheduled after a memtable switch (db/db_impl.cpp:1184-1185), so the theorems are about safety. MaybeScheduleCompaction, the delays of MakeRoomForWrite and condition variables are not modelled.
* Manual compaction (CompactRange) and trivial moves; both go through the same edits.
* The table file format: Table, TableBuilder, TableCache, footers, block compression and the pending index entry that TableBuilder::Add never clears (table/table_builder.cpp:94-100). A table is its sorted list of entries.
* The checksum function itself (util/crc32c.cpp, whose STEP1 uses a shift that yields zero): any function with the concatenation law of util/crc32c.h:10-13 will do. The hash of the Bloom filter is any function.
* Reading a log from a nonzero initial offset, which no caller in the repository does.
* Corrupt internal keys inside an iterator or a compaction, and the memory use of saved values.
* Cache sharding: a shard is one LRUCache, and a key always goes to the same one.
* Weak memory: loads and stores of the skip list are sequentially consistent, each its own step. The height of a node is an input, since it is random.
* Floating-point scores are exact reals. Compaction pointers are state of `CompactionPicker.VersionSet`, and the engine may start any selected compaction.
* The engine takes the number of a flushed table when the flush starts; prev_log_number, which is only kept for old databases, is not part of it.
* Exhaustion of sequence numbers at 2^56 and of file numbers at 2^64.
* Batches of more than 2^31 - 1 records, whose count overflows.
* Linked nodes are numbers and their links are maps or sequences, so address reuse is not captured.
* Options, file names, environments, info logs, statistics and debug strings.
* CompactionPicker.VersionSet.Install: only the scores and marks of a new version; its files are the subject of `VersionBuilder`, its references of `VersionRefs`, its record of `Manifest`.
* CompactionWork.DoCompactionWork: takes the merged inputs as one sorted list; that a merging iterator yields it is proved in `Merger`. Keys that do not parse, shutting down, writing the outputs to files and the flush inside the loop, which is a step of its own in `Engine`, are not part of it.
* VersionBuilder.Builder.Apply: does not record compaction pointers, which no version depends on.
* EngineTheorems.NothingAcknowledgedIsLost: a crash inside an append is not a step of the machine.
* EngineRecovery.ReopenStructure: a crash inside an append is not a step of the machine.
* ReadPath.Get: reads all layers in one state; `PinnedReads.PinnedGet` is about a reader that pins them.
* Manifest.Decode: user keys in bounds are mapped to ranks by a given function, and a bound that does not parse as an internal key stands for a fixed key, where the code keeps the unparsed bytes.
* Manifest.Recover: begins with the bytes of the manifest; finding it through the CURRENT file and prev_log_number are not part of it. MarkFileNumberUsed has no effect there, because the next file number is assigned after it.
* WriteBatches.WriteBatch.Put: at most 2^31 - 1 records.
* WriteBatches.WriteBatch.Delete: at most 2^31 - 1 records.
* WriteBatches.WriteBatch.Append: at most 2^31 - 1 records in both batches together.
* Blocks.BlockBuilder.Add: keys and values of less than 2^32 bytes.
* Blocks.Iter.ParseNextKey: over blocks whose entries decode; CorruptionError is not modelled.
* VersionRefs.VersionList.SaveTo: which files are kept is given; that is the subject of `VersionBuilder`.
* DBIters.DBIter.FindPrevUserEntry: returns instead of looping forever.
