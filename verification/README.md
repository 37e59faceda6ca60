# Verified models of the storage engine, the timer heap and the thread pool

This project models the most intricate code the HomeLight app carries in its vendored libraries and proves what that
code promises.

* **LevelDB as a store.** Internal keys and their order, level-by-level lookup, the choice of flush levels and compaction
  inputs, the compaction loop with its drop rules, version edits, snapshots, the merging iterator and the database
  iterator. The main results say when every live snapshot reads the same before and after any run of writes, memtable
  switches, flushes, trivial moves and compactions.
* **LevelDB on disk.** The write-ahead log and its reader down to the byte, write batches, the queue of writers and its
  groups, the manifest with the encoding of its edits, and a machine of commits, flushes, compactions, crashes that cut
  unsynced bytes anywhere, and recoveries. The main results say which write batches a database stands for after any run,
  and exactly which of them no crash can take.
* **LevelDB's skip list.** One writer that inserts by single pointer stores, readers that load one pointer at a time in
  between.
* **libuv.** The pointer heap with removal of any node, the timer queue on it, and the thread pool with its slow-I/O
  throttle and cancellation.

`dafny verify dfyconfig.toml` checks everything.

## How the model is built

User keys are ordered like real numbers: the comparator only ever compares, and `Bytewise` proves that byte strings in
bytewise order embed into the reals. A file is its list of entries with its number, size and bounds; log files, write
batches and their encodings are bytes. Files, the clock and randomness are parameters: checksums, file sizes and the
heights of skip list nodes are arbitrary. I/O errors do not happen; a crash keeps the synced bytes of every log file and
any number of the others.

A store keeps a ghost `history` of everything ever written. `Read(content, user, s)` is the meaning of a lookup: the value
of the newest entry of `user` with sequence number at most `s`, and nothing if that entry is a deletion or missing. A
store is *faithful* when every user key reads the same from what is stored as from the whole history, at every sequence
number some reader may still use. A compaction is *harmless* to a store when no deletion marker it drops lets an older
value come back. The crash machine takes every compaction the store can take; what its runs answer is stated for runs
whose compactions are harmless to the files alone, and shown to fail for all others. Classes and methods follow the source's own fields and loops; each is proved against the
step of a state machine over values, and the theorems are about runs of that machine.

## Findings

`SetupOtherInputs` (`HomeLight/Pods/leveldb-library/db/version_set.cc:1403-1462`) extends the inputs with
`AddBoundaryInputs` at the upper level only (lines 1407 and 1422). A file left behind at the lower level may therefore
continue the last user key of the lower inputs. If the lower input ends with a deletion marker that the compaction then
drops, the older value left behind becomes visible again.

| what | where |
|---|---|
| a store, the code's only choice of inputs, and a deleted key that reads as present afterwards | `Resurfacing.DeletedKeyComesBack`, `Resurfacing.EveryChoiceSplitsTheKey` |
| that store is reached from the empty database | `Resurfacing.StoreIsReached` |
| the exact condition for one compaction, and for whole runs | `LsmStore.CompactFaithfulIff`, `LsmStore.RunFaithfulIff` |
| the one user key that decides it | `LsmStore.HarmlessIffLastKey` |
| the same over runs with crashes and recoveries | `Durability.RunAnswersIff` |
| the check that is missing at the lower level is enough, for one compaction and for whole runs | `LsmStore.LowerClosedIsHarmless`, `LsmStore.LowerClosedRunsAreFaithful` |

Starting a new log does not sync the old one (`HomeLight/Pods/leveldb-library/db/db_impl.cc:1346-1364`). A commit with a
sync therefore covers the earlier commits of its own log and no others: after a switch to a new memtable a crash may take
a commit that came before it and leave the synced one.

| what | where |
|---|---|
| exactly which commits no crash can take | `SafeCommits.SurvivesIff` |
| from any running database without an immutable memtable, a run that loses a commit and keeps a later, synced one | `SafeCommits.SyncIsNoBarrier` |

## Model

| member | source | states |
|---|---|---|
| Keys.CompareIsNewestFirstTotalOrder | HomeLight/Pods/leveldb-library/db/dbformat.cc:51-67 | the comparator is a total order in which entries of one user key come newest first |
| Bytewise.RankEmbedsByteStrings | HomeLight/Pods/leveldb-library/util/comparator.cc:25-27 | byte strings in bytewise order embed into the reals, so user keys may be taken as reals |
| Keys.SeekFindsNewest | HomeLight/Pods/leveldb-library/db/dbformat.cc:121-137 | seeking a sorted run to a lookup key lands on the newest visible entry of that user key if there is one, and on another user key if not |
| Version.FindFile | HomeLight/Pods/leveldb-library/db/version_set.cc:88-106 | the binary search finds the first file whose largest key is not before the key |
| Version.SomeFileOverlapsRange | HomeLight/Pods/leveldb-library/db/version_set.cc:122-162 | both the scan and the binary search answer whether any file meets the range, bounds absent or not |
| Version.Get | HomeLight/Pods/leveldb-library/db/version_set.cc:326-421 | the level-by-level search with early exit returns the newest visible entry of the whole version, or nothing if that is a deletion |
| Inputs.PickLevelForMemTableOutput | HomeLight/Pods/leveldb-library/db/version_set.cc:491-517 | a level above 0 is chosen only if nothing in it or above meets the table, and a lower one only if the next level meets it or too much below does |
| Inputs.GetOverlappingInputs | HomeLight/Pods/leveldb-library/db/version_set.cc:519-559 | the restarting search ends, and at level 0 its result is the set of files meeting the least closed range around the request |
| Inputs.AddBoundaryInputs | HomeLight/Pods/leveldb-library/db/version_set.cc:1378-1401 | the loop ends with the chain of files that each continue the last user key so far |
| Inputs.BoundariesClose | HomeLight/Pods/leveldb-library/db/version_set.cc:1344-1401 | after it no file left in the level holds anything older for a user key of the inputs |
| Inputs.PickCompactionStart | HomeLight/Pods/leveldb-library/db/version_set.cc:1270-1321 | the automatic choice is a legal start: the first file that ends past the compaction pointer, or the first of all if none does; at level 0 the files of the least closed range around it |
| Inputs.CompactRangeStart | HomeLight/Pods/leveldb-library/db/version_set.cc:1464-1495 | the manual choice is a legal start, empty exactly if nothing in the level meets the range: at level 0 the least closed range, below it the files that meet the range up to the one that fills an output |
| Inputs.SetupOtherInputs | HomeLight/Pods/leveldb-library/db/version_set.cc:1403-1462 | the upper inputs contain the start and are closed under older entries of their level, the lower inputs are all files meeting their range; the upper ones grow to everything around both exactly if that takes more files, leaves the lower inputs the same and stays within the size limit |
| CompactionJob.Job.IsBaseLevelForKey | HomeLight/Pods/leveldb-library/db/version_set.cc:1533-1552 | queried in key order, the advancing level pointers answer whether no deeper level covers the user key |
| CompactionJob.Job.DoCompactionWork | HomeLight/Pods/leveldb-library/db/db_impl.cc:878-1034 | the loop writes sorted, non-empty outputs that together hold exactly the entries the drop rules spare |
| CompactionJob.PassKeepsSurvivors | HomeLight/Pods/leveldb-library/db/db_impl.cc:937-978 | the one-pass rules over the sorted stream drop exactly what is hidden by a newer old-enough entry or is an old deletion at the base level |
| Compaction.CompactionInvisibleIff | HomeLight/Pods/leveldb-library/db/db_impl.cc:946-965 | dropping changes no answer at or above the smallest snapshot if and only if no dropped marker uncovers an older value outside the inputs |
| Install.InstallKeepsVersion | HomeLight/Pods/leveldb-library/db/db_impl.cc:860-876 | installing outputs keeps levels sorted and disjoint, shallower entries newer and numbers unique, and replaces exactly the inputs' entries |
| Install.FlushKeepsVersion | HomeLight/Pods/leveldb-library/db/db_impl.cc:491-533 | adding the memtable's table at the picked level keeps the same and adds exactly its entries |
| LsmStore.StepKeeps | HomeLight/Pods/leveldb-library/db/db_impl.cc:688-767 | every write, switch, flush, trivial move, compaction and snapshot step keeps the invariant of the store |
| LsmStore.CompactFaithfulIff | HomeLight/Pods/leveldb-library/db/version_set.cc:1403-1462 | a compaction keeps every live reader's answer if and only if no dropped marker uncovers an older value left behind |
| LsmStore.HarmlessIffLastKey | HomeLight/Pods/leveldb-library/db/version_set.cc:1403-1462 | whether a compaction is harmless is decided by the last user key of its lower inputs alone |
| LsmStore.LowerClosedIsHarmless | HomeLight/Pods/leveldb-library/db/version_set.cc:1344-1401 | that never happens if no lower file left behind continues the last user key of the lower inputs |
| LsmStore.RunFaithfulIff | HomeLight/Pods/leveldb-library/db/db_impl.cc:688-767 | every state of a run answers every live reader as the history does if and only if every compaction in it is harmless |
| LsmStore.LowerClosedRunsAreFaithful | HomeLight/Pods/leveldb-library/db/db_impl.cc:688-767 | runs whose compactions pass the missing check are faithful throughout |
| LsmStore.WriteIsVisible | HomeLight/Pods/leveldb-library/db/db_impl.cc:1185-1258 | after a write the last operation of the batch on a key decides what it reads as, and every other key reads as before |
| LsmStore.WriteKeepsOldViews | HomeLight/Pods/leveldb-library/db/db_impl.cc:1166-1175 | no write changes what a snapshot taken before it reads |
| Resurfacing.EveryChoiceSplitsTheKey | HomeLight/Pods/leveldb-library/db/version_set.cc:1403-1462 | in the concrete store the code can only choose inputs that leave the older value behind |
| Resurfacing.DeletedKeyComesBack | HomeLight/Pods/leveldb-library/db/version_set.cc:1403-1462 | there a deleted key reads as absent before the compaction and as present after it |
| Resurfacing.StoreIsReached | HomeLight/Pods/leveldb-library/db/db_impl.cc:688-767 | twelve enabled steps lead from the empty database to that store |
| Builder.SaveLevelOrdered | HomeLight/Pods/leveldb-library/db/version_set.cc:699-739 | merging ordered base and added files without a common number gives an ordered level |
| Builder.SaveToLevel | HomeLight/Pods/leveldb-library/db/version_set.cc:699-753 | the merge by upper bounds is the ordered merge without the deleted numbers |
| Manifest.VersionBuilder.Apply | HomeLight/Pods/leveldb-library/db/version_set.cc:650-697 | after any list of edits the builder holds for every level what those edits delete and add |
| Manifest.VersionBuilder.SaveTo | HomeLight/Pods/leveldb-library/db/version_set.cc:699-739 | the saved version is the one those edits give |
| Manifest.ReplayIsStepwise | HomeLight/Pods/leveldb-library/db/version_set.cc:650-753 | one builder over a list of edits equals one builder for each edit, if no level is given a number it already held |
| Manifest.ManifestStep | HomeLight/Pods/leveldb-library/db/version_set.cc:801-884 | the edit a step logs, replayed after the others, gives that step's levels, and no level is ever given a number again |
| Manifest.ManifestIsCurrent | HomeLight/Pods/leveldb-library/db/version_set.cc:1088-1116 | after any run a manifest that began with a snapshot replays to the store's levels |
| CrashManifest.ManifestRebuildsLevels | HomeLight/Pods/leveldb-library/db/version_set.cc:886-1011 | in every state of every run with crashes and recoveries the manifest replays to the levels on disk |
| VersionEdits.EditRoundTrip | HomeLight/Pods/leveldb-library/db/version_edit.cc:41-205 | decoding an encoded edit gives it back without error |
| VersionEdits.VersionEdit.EncodeTo | HomeLight/Pods/leveldb-library/db/version_edit.cc:41-85 | the bytes are those of the edit's fields in the order they are written |
| VersionEdits.VersionEdit.DecodeFrom | HomeLight/Pods/leveldb-library/db/version_edit.cc:107-205 | on any bytes at all the edit and the message are those of the parse, with earlier compaction pointers left in place |
| ManifestFile.Recover | HomeLight/Pods/leveldb-library/db/version_set.cc:914-1011 | on any bytes at all the installed version and numbers, or the failure, are those of the edits read from the file |
| ManifestFile.TornAppend | HomeLight/Pods/leveldb-library/db/version_set.cc:845-856 | however much of an append reaches the manifest, the whole edit is read back or none of it |
| ManifestFile.ManifestRestoresDisk | HomeLight/Pods/leveldb-library/db/version_set.cc:801-1011 | after any run, and with any part of a further edit behind it, the bytes of the manifest give back the levels, log number, file number and sequence number on disk |
| Merger.MergingIterator.SeekToFirst | HomeLight/Pods/leveldb-library/table/merger.cc:31-37 | lands on the first entry of the sorted union of the children |
| Merger.MergingIterator.SeekToLast | HomeLight/Pods/leveldb-library/table/merger.cc:39-45 | lands on its last entry |
| Merger.MergingIterator.Seek | HomeLight/Pods/leveldb-library/table/merger.cc:47-53 | lands on its first entry at or after the target |
| Merger.MergingIterator.Next | HomeLight/Pods/leveldb-library/table/merger.cc:55-79 | moves one entry forward in the union, after either direction |
| Merger.MergingIterator.Prev | HomeLight/Pods/leveldb-library/table/merger.cc:81-108 | moves one entry back, or off the beginning, after either direction |
| DbIter.HeadReads | HomeLight/Pods/leveldb-library/db/db_iter.cc:168-198 | the first visible entry of a user key is what the key reads as |
| DbIter.DBIter.Next | HomeLight/Pods/leveldb-library/db/db_iter.cc:141-166 | moves to the next user key that has a value at the sequence number, with that value, skipping none, also after moving backward |
| DbIter.DBIter.Prev | HomeLight/Pods/leveldb-library/db/db_iter.cc:200-225 | moves to the previous such key with its value, skipping none, also after moving forward |
| DbIter.DBIter.Seek | HomeLight/Pods/leveldb-library/db/db_iter.cc:269-281 | lands on the first such key at or after the target |
| DbIter.DBIter.SeekToFirst | HomeLight/Pods/leveldb-library/db/db_iter.cc:283-292 | lands on the first such key |
| DbIter.DBIter.SeekToLast | HomeLight/Pods/leveldb-library/db/db_iter.cc:294-299 | lands on the last such key |
| NewIterator.StoreRunsOk | HomeLight/Pods/leveldb-library/db/version_set.cc:230-246 | memtables, level-0 files and concatenated levels are sorted runs with no key in common that together hold the whole store |
| NewIterator.IteratorIsFaithful | HomeLight/Pods/leveldb-library/db/db_impl.cc:1147-1157 | over their union every user key reads, at any live sequence number, as the history says |
| NewIterator.MoveBoth | HomeLight/Pods/leveldb-library/table/merger.cc:31-108 | a merging iterator and a cursor on the union that stand at the same entry do so after any move |
| NewIterator.Create | HomeLight/Pods/leveldb-library/db/db_impl.cc:1062-1087 | the merging iterator and the cursor under the database iterator stand at the same entry, and the database iterator's view is that of the store and, for a live snapshot, that of the history |
| Db.MergeInputs | HomeLight/Pods/leveldb-library/db/version_set.cc:1237-1268 | draining the input iterator of a compaction gives the sorted union of the input files |
| Db.WriteOutputs | HomeLight/Pods/leveldb-library/db/db_impl.cc:786-876 | a compaction's output files form a sorted level, carry consecutive new numbers and hold exactly the survivors of the inputs |
| Db.DBImpl.Write | HomeLight/Pods/leveldb-library/db/db_impl.cc:1185-1258 | the memtable grows by the batch's entries under the next sequence numbers, and the invariant stays |
| WriteQueue.BuildBatchGroup | HomeLight/Pods/leveldb-library/db/db_impl.cc:1260-1305 | the group is the operations of a prefix of the queue in order: as long as the size limit allows, with no sync write behind a leader that does not sync |
| WriteQueue.GroupIsUnique | HomeLight/Pods/leveldb-library/db/db_impl.cc:1260-1305 | those rules leave exactly one group for a queue |
| WriteQueue.WritersAreServed | HomeLight/Pods/leveldb-library/db/db_impl.cc:1185-1258 | over whole runs writers come back in the order they arrived, the log holds exactly their operations in that order, and one that asked for a sync only comes back once a synced record covers its operations |
| Db.DBImpl.CompactMemTable | HomeLight/Pods/leveldb-library/db/db_impl.cc:535-566 | is the flush step at a level that step allows |
| Db.DBImpl.BackgroundCompaction | HomeLight/Pods/leveldb-library/db/db_impl.cc:688-767 | takes exactly one enabled step, the flush first if one is due, and none only for a manual range that meets no file |
| Db.DBImpl.Get | HomeLight/Pods/leveldb-library/db/db_impl.cc:1100-1145 | memtable, immutable memtable and version in turn give the newest visible entry of everything stored |
| Coding.MaskRoundTrip | HomeLight/Pods/leveldb-library/util/crc32c.h:29-38 | unmasking undoes masking for every 32-bit checksum |
| Coding.Fixed64RoundTrip | HomeLight/Pods/leveldb-library/util/coding.cc:41-45 | decoding undoes the fixed 64-bit encoding |
| Coding.Varint32RoundTrip | HomeLight/Pods/leveldb-library/util/coding.cc:47-80 | decoding undoes the varint encoding of every 32-bit number and leaves what follows |
| Coding.LengthPrefixedRoundTrip | HomeLight/Pods/leveldb-library/util/coding.cc:98-101 | reading undoes writing a length-prefixed slice and leaves what follows |
| Batches.BatchRoundTrip | HomeLight/Pods/leveldb-library/db/write_batch.cc:42-80 | iterating an encoded batch gives back its operations, count and sequence number without error |
| Batches.WriteBatch.Put | HomeLight/Pods/leveldb-library/db/write_batch.cc:98-103 | the bytes become those of the batch with the operation appended |
| Batches.WriteBatch.Append | HomeLight/Pods/leveldb-library/db/write_batch.cc:111-150 | the bytes become those of both batches' operations in order |
| Batches.WriteBatch.Iterate | HomeLight/Pods/leveldb-library/db/write_batch.cc:42-80 | on any bytes at all the loop makes the calls and reports the error of the parse |
| Log.Writer.AddRecord | HomeLight/Pods/leveldb-library/db/log_writer.cc:34-80 | appends exactly the fragments and padding of the record |
| LogReader.Reader.ReadRecord | HomeLight/Pods/leveldb-library/db/log_reader.cc:56-174 | on any file at all returns the next record, position and corruption reports of the reading function |
| LogReader.LogRoundTrip | HomeLight/Pods/leveldb-library/db/log_reader.cc:56-174 | reading what was written gives the same records and reports nothing |
| LogReader.TornTail | HomeLight/Pods/leveldb-library/db/log_reader.cc:189-271 | reading any prefix of the bytes gives exactly the records that lie in it in full, and reports nothing |
| OpenDb.LogReadsBack | HomeLight/Pods/leveldb-library/db/db_impl.cc:371-489 | a log cut at any byte reads back as the encodings of its surviving batches |
| OpenDb.RecoverLogFile | HomeLight/Pods/leveldb-library/db/db_impl.cc:371-489 | replaying a log, with tables written whenever the memtable fills, adds exactly its batches' entries and ends at their last sequence number |
| OpenDb.Open | HomeLight/Pods/leveldb-library/db/db_impl.cc:280-369 | opening after any crash is a recovery: exactly the surviving entries added, numbers and sequence above everything in use, a new empty log |
| Recovery.StepOk | HomeLight/Pods/leveldb-library/db/db_impl.cc:223-566 | every commit, switch, flush, move, compaction, log deletion, crash, interrupted and finished recovery keeps the invariant tying memory, logs, manifest and tables together |
| Recovery.StepLedger | HomeLight/Pods/leveldb-library/db/db_impl.cc:223-566 | only a crash loses entries, none of them durable; a commit adds exactly its entries, durable if synced; every other step loses and adds none |
| Recovery.StepAnswersIff | HomeLight/Pods/leveldb-library/db/db_impl.cc:688-767 | if the files answer for everything handed to tables, they do so after a step if and only if it is no compaction that is harmful to the files alone |
| Recovery.UpIsFaithful | HomeLight/Pods/leveldb-library/db/db_impl.cc:1100-1145 | while the files answer for what was flushed, a running database answers every live reader as the flushed and logged entries together say |
| Durability.LoggedIsWhole | HomeLight/Pods/leveldb-library/db/db_impl.cc:371-489 | what survives in the logs is made of whole batches; a torn one is not there at all |
| Durability.HistoryMoves | HomeLight/Pods/leveldb-library/db/db_impl.cc:280-489 | over any run every step adds what it writes to the history and takes nothing, but for a crash, which takes nothing durable |
| Durability.RunAnswersIff | HomeLight/Pods/leveldb-library/db/db_impl.cc:688-767 | over any run with crashes and recoveries the files answer in every state if and only if every compaction is harmless to them |
| Durability.CrashSafety | HomeLight/Pods/leveldb-library/db/db_impl.cc:280-489 | over any run the history is exactly the writes of the commits that are still there, each whole and none back after its loss, the running store is sound for it, no sequence number in use is above the last one, and, if every compaction is harmless to the files, every live reader gets what the history says |
| SafeCommits.SurvivesIff | HomeLight/Pods/leveldb-library/db/db_impl.cc:1211-1225 | some crash can take a commit if and only if neither it nor a later commit to its log was synced and its memtable was not flushed |
| SafeCommits.StaysKept | HomeLight/Pods/leveldb-library/db/db_impl.cc:280-489 | a commit is there until a crash, and for good once it is synced, covered by a later sync of its log, flushed, or found by a recovery |
| SafeCommits.PrefixKept | HomeLight/Pods/leveldb-library/db/db_impl.cc:371-489 | of two commits to one log, the earlier is there whenever the later is |
| SafeCommits.SyncIsNoBarrier | HomeLight/Pods/leveldb-library/db/db_impl.cc:1346-1364 | with a switch of logs in between, a crash can take a commit and leave a later, synced one |
| OpenDb.CrashSafetyOfFiles | HomeLight/Pods/leveldb-library/db/db_impl.cc:280-489 | the crash theorem for logs as bytes, cut anywhere |
| OpenDb.SurvivesCutsIff | HomeLight/Pods/leveldb-library/db/db_impl.cc:1211-1225 | exactly which commits no cut of the bytes can take |
| SkipList.EveryStateIsAList | HomeLight/Pods/leveldb-library/db/skiplist.h:337-368 | between any two stores of any insert every level is a sorted chain and a sublist of the level below |
| SkipList.SearchIsAtomic | HomeLight/Pods/leveldb-library/db/skiplist.h:262-322 | whatever is inserted meanwhile, a search ends with the first key at or after its target, and the last before it, of the list at its last load |
| SkipList.EarlierInsertsAreSeen | HomeLight/Pods/leveldb-library/db/skiplist.h:370-378 | a key inserted before a search began is found |
| SkipList.HoldsWhatWasInserted | HomeLight/Pods/leveldb-library/db/skiplist.h:337-368 | readers find exactly the keys of the inserts so far, but for one that has not reached its first publishing store |
| SkipList.List.Search | HomeLight/Pods/leveldb-library/db/skiplist.h:262-322 | the loop splits the keys at the target and leaves the last place before it on every level |
| SkipList.List.Insert | HomeLight/Pods/leveldb-library/db/skiplist.h:337-368 | with any height and any garbage in the new node, the list stays one and gains exactly the key |
| Heap.PathTo | HomeLight/Pods/Libuv-gRPC/src/heap-inl.h:119-124 | the bits computed from the element count lead from the root to that slot |
| Heap.TimerHeap.Min | HomeLight/Pods/Libuv-gRPC/src/heap-inl.h:67-69 | the root is a node not greater than any other |
| Heap.TimerHeap.NodeSwap | HomeLight/Pods/Libuv-gRPC/src/heap-inl.h:72-104 | the pointer surgery exchanges parent and child and leaves every other link consistent |
| Heap.TimerHeap.Descend | HomeLight/Pods/Libuv-gRPC/src/heap-inl.h:126-135 | walking the path reaches the pointer to the slot and the one to its parent |
| Heap.TimerHeap.Insert | HomeLight/Pods/Libuv-gRPC/src/heap-inl.h:106-148 | keeps the tree complete, linked and ordered and adds exactly the node |
| Heap.TimerHeap.Remove | HomeLight/Pods/Libuv-gRPC/src/heap-inl.h:150-237 | removing any member keeps the same and removes exactly that node |
| Timers.DeadlineSaturates | HomeLight/Pods/Libuv-gRPC/src/timer.c:66-81 | an overflowing 64-bit deadline becomes the largest number, any other is the sum |
| Timers.Loop.Start | HomeLight/Pods/Libuv-gRPC/src/timer.c:66-94 | a closing handle or missing callback changes nothing; otherwise the timer is in the heap once under its deadline and a fresh start number |
| Timers.Loop.Again | HomeLight/Pods/Libuv-gRPC/src/timer.c:110-120 | a repeating timer starts over from now; on a closing handle it only stops |
| Timers.Loop.NextTimeout | HomeLight/Pods/Libuv-gRPC/src/timer.c:133-150 | no timer is due before the returned time, one is due then unless it was capped, and -1 means there is none |
| Timers.Loop.RunTimers | HomeLight/Pods/Libuv-gRPC/src/timer.c:153-170 | exactly the timers that are due fire, each once, by deadline and start order; those that repeat stay with a new deadline and start numbers in firing order, the others end up inactive, timers not due wait as they were, and nothing is due afterwards |
| Timers.Loop.RunRounds | HomeLight/Pods/Libuv-gRPC/src/timer.c:153-170 | if the clock is at its last value and a due timer repeats, any number of rounds can be run and the same holds after them |
| ThreadPool.TurnConserves | HomeLight/Pods/Libuv-gRPC/src/threadpool.c:57-122 | a worker's turn between taking and releasing the mutex loses and duplicates no item |
| ThreadPool.TurnIsFair | HomeLight/Pods/Libuv-gRPC/src/threadpool.c:57-122 | it keeps at most one slow-work message, leaves it queued while slow work is pending, takes slow work only below the threshold and sleeps only if nothing can be run |
| ThreadPool.StepKeepsPool | HomeLight/Pods/Libuv-gRPC/src/threadpool.c:57-160 | every step of submitters, workers, cancels and completions keeps the pool's invariant |
| ThreadPool.PoolIsFair | HomeLight/Pods/Libuv-gRPC/src/threadpool.c:57-160 | in every reachable state pending slow work has its message queued, at most half the threads rounded up run slow work, and runnable work with a sleeper has a worker on its way |
| ThreadPool.ItemsAreConserved | HomeLight/Pods/Libuv-gRPC/src/threadpool.c:137-160 | in every reachable state a submitted item is in exactly one place, has run at most once and completed at most once |
| ThreadPool.CompletionIsHonest | HomeLight/Pods/Libuv-gRPC/src/threadpool.c:269-315 | a completion reports cancellation exactly if a cancel of the item returned 0 before, and exactly then its work never ran |
| ThreadPool.Globals.Work | HomeLight/Pods/Libuv-gRPC/src/threadpool.c:57-135 | the worker's loop is the turn of the state machine |
| ThreadPool.Globals.Cancel | HomeLight/Pods/Libuv-gRPC/src/threadpool.c:269-295 | looking only at the item's own links and work function, succeeds exactly for a queued, unfinished item, takes it out of its queue and hands it to the loop |
| ThreadPool.Globals.WorkDone | HomeLight/Pods/Libuv-gRPC/src/threadpool.c:298-315 | completes the whole queue in order, each item with the status of its work |

## Left out

- Flushes that run in the middle of a compaction: one compaction is one step.
- LsmStore.LowerClosedIsHarmless: gives the sufficient check only; the exact condition is the one in
  LsmStore.CompactFaithfulIff, which also allows a key to continue below when no marker is dropped.
- CompactionJob.Job.ShouldStopBefore: states only that a stop resets a bounded overlap count; where outputs are cut does
  not matter to any result.
- NewIterator.Create: the database iterator runs over a cursor on the union; NewIterator.MoveBoth keeps the merging
  iterator in step with it move by move, but is not called from the database iterator's methods.
- Db.DBImpl.Write: the writer queue, the log record and making room are not in this method; WriteQueue and the commits of
  the crash machine model them.
- Waiting for room in MakeRoomForWrite: a switch happens when it can. One record of the write queue is one commit of the
  crash machine; that link is not a theorem.
- Seek-triggered compactions, level scores, statistics and the compaction pointer's encoding.
- Tables, blocks, filters, the block and table caches: a file is its sorted list of entries.
- Two-level iterators: a sorted level is read as one run.
- Malformed internal keys, which the iterators and the compaction loop report or copy.
- LogReader.Reader.ReadRecord: without the initial offset and resynchronisation, and without the offset of the last record.
- OpenDb.RecoverLogFile: says nothing of logs with corrupt records or malformed batches, which a cut cannot produce and the
  source reports or skips.
- Log reuse, legacy previous logs, the repair tool, directory syncs: the entries of a log file's directory survive a crash.
- ManifestFile.Recover: without the CURRENT file, which names the manifest from one moment to the next, and without reuse of
  the old manifest; a table is found by its number, and what its record says of size and bounds is not compared with it.
- CrashManifest.ManifestRebuildsLevels: the version recovered from the old manifest and the edit of the recovery itself are
  one snapshot edit in the new one.
- Durability.CrashSafety: the recovered last sequence number is bounded from below only, since a real one may exceed it by
  the numbers of lost batches.
- Manifest.ReplayIsStepwise: asks that no level is given a number it already held; numbers are issued once and files only
  move down, so Manifest.ManifestStep proves this of every run.
- Timers.Loop.RunTimers: requires that the clock is below its last value or no due timer repeats. In libuv it always is
  (`HomeLight/Pods/Libuv-gRPC/src/unix/internal.h:307` divides a 64-bit count by a million); Timers.Loop.RunRounds shows that
  the function alone would not end otherwise.
- Wrap-around of the heap's element count and of the timer start number, and timer callbacks that change the heap.
- Heap nodes are compared by deadline and start number, the only comparison libuv's timers use.
- ThreadPool.CompletionIsHonest: a cancel of an item whose completion has already run is outside the interface.
- ThreadPool.Globals.WorkDone: its callbacks do not cancel items of the queue being completed; ThreadPool.StepKeepsPool
  allows cancels between any two completions.
- Memory orderings, spurious scheduling and starvation of real threads: steps are atomic, and a wake-up may always happen.
- Thread pool start-up and forking, and the event loop's wake-up handle.
- nanopb, and the rest of the app: interface code, networking and generated data.
