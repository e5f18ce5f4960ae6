# What the vendored storage and network code promises

The application in this repository is a thin layer over four vendored C and C++ libraries. This project models
their hardest code in Dafny and proves what that code promises:

- **LevelDB**: versions, compactions and whole runs of the store; the manifest and the write-ahead logs, as
  values and as bytes; crashes and recovery; group commit; iterators; the skip list and its lock-free readers;
  tables, blocks and filters; the LRU cache; CRC32C and the integer codings.
- **libuv**: the worker pool as a protocol and as code, the pointer heap, timers, IPv4 and IPv6 text.
- **nanopb**: the two-pass encoder and the descriptor-driven decoder.

One module a file, named after the file. `dafny verify dfyconfig.toml` checks everything.

## How the store is modelled

`Lsm` is the centre: a state of the store (memtables, version, snapshots, counters), its history `hist` of all
writes made and not lost, and steps for a write, a memtable switch, a flush, a compaction, a trivial move, a
snapshot taken or released, a crash and a recovery. A run is any sequence of steps from the empty store.
`DbImpl.Store` is the store as an object whose methods work as the source does and are proved to take these
steps. `Versions`, `Selection`, `CompactionWork`, `Installing`, `VersionBuilder`, `Manifests` and `Recovery`
are the parts those methods are made of.

Entries are `(user key, sequence number, kind, value)`. User keys are reals, because the store only ever
compares them: `KeyEmbedding` gives every byte string a rank between 0 and 1 and proves that comparing ranks is
comparing strings, for user keys and for packed internal keys. `TableReads`, `Replaying` and `ManifestFiles`
use it to carry results about bytes (table files, log files, manifest files) over to entries and versions.

What is on disk or on the wire is pinned by itself, not only by what reads it back: `LogLayout` says where every
byte of a log is, `FormatBytes`, `KnownChecksums`, `ProtobufExamples` and `InetExamples` spell out bytes and texts
of every other format, and `LogDamage` says what damage to a log costs. `OutputCuts`, `CacheOrder` and `JobOrder`
do the same for where compactions cut their outputs, for what the cache evicts and for the order of jobs, on
histories rather than on the lists that implement them.

What a read means is `DbFormat.Read`: the newest entry of the key at or below a sequence number, as a value or
"not found". File sizes, the test that an output table is full, and the levels and files a compaction is asked
for are parameters, so every result holds for all choices of them.

## Findings

Where the code does not do what it is for, the model follows the code, a member names an input, and another
gives the exact condition.

1. **A compaction can bring a deleted value back.** `SetupOtherInputs`
   (`ios/Pods/leveldb-library/db/version_set.cc:1403-1447`) adds boundary files to the inputs of level L only.
   A tombstone in a selected file of level L+1 is then dropped although an unselected neighbour in the same
   level still holds an older value for its key. `LeakExample.SelectionPicksIt` shows the selection code picking
   such inputs and `LeakExample.DeletedValueReturns` the read that changes. `Compactions.KeyPreserved` gives the
   exact condition for one compaction and key, `Lsm.FaithfulIff` for whole runs, `Lsm.LeakVisible` when a user
   sees it, and `Compactions.NoStraddleNoSharedKey` a test on file bounds that excludes it.
2. **A synced write can come back without an earlier one.** The switch to a new memtable closes the old log
   without a sync (`ios/Pods/leveldb-library/db/db_impl.cc:1356-1357`), a sync reaches the current log only
   (`ios/Pods/leveldb-library/db/db_impl.cc:1217-1218`), and recovery replays each log by itself
   (`ios/Pods/leveldb-library/db/db_impl.cc:349-352`). `CrashExample.SyncedComesBackAlone` runs the store into
   it, `Lsm.SyncedNotPrefix` is the trace. `Lsm.CrashPrefixIff` and `DbImpl.Store.Reopen` say exactly when a
   prefix of the writes comes back, `Lsm.DurableIff` exactly which writes survive every crash, and
   `Lsm.SyncCovers` exactly when a synced write makes everything before it durable.
3. **A full char array does not come back.** nanopb's encoder sends a string that fills its array without a
   terminator (`ios/Pods/nanopb/pb_encode.c:875-899`), and the decoder refuses it
   (`ios/Pods/nanopb/pb_decode.c:1481-1517`). `ProtobufRoundTrip.TextReads` gives the exact condition.
4. **`VersionEdit::Clear` keeps the compaction pointers** (`ios/Pods/leveldb-library/db/version_edit.cc:26-39`),
   so decoding into a used edit appends to them; `VersionEdits.EditRoundTrip` states the result for any edit
   decoded into.
5. The comment on reverse iteration in `ios/Pods/leveldb-library/db/db_iter.cc:41-46` places the inner iterator
   just before all entries of the current key. It stands before the newest visible one, and entries too new to
   be visible may lie between (`DbIterator.DBIter.Prev` keeps the invariant `JustBefore`).

## Model

| member | source | states |
|---|---|---|
| Versions.Get | ios/Pods/leveldb-library/db/version_set.cc:326-421 | In every valid version the first level with a visible entry (covering level-0 files newest first, then one file a level) holds the newest entry of the key at or below the snapshot in the whole version. |
| Versions.FindFile | ios/Pods/leveldb-library/db/version_set.cc:88-106 | The binary search returns the first file whose largest key is not before the key. |
| Selection.SetupOtherInputs | ios/Pods/leveldb-library/db/version_set.cc:1403-1462 | From any legal start: the level inputs are its closure under boundary files, grown exactly when that adds files, takes no other of the next level and stays under 25 file sizes; the next-level inputs are exactly the overlapping files; the grandparents are the files two levels down that meet the range of all inputs; and nothing older is left behind at the level. |
| Selection.GrowsAlone | ios/Pods/leveldb-library/db/version_set.cc:1416-1440 | Growing the level inputs keeps all of them and takes in no further file of the next level. |
| Selection.GetOverlappingInputs | ios/Pods/leveldb-library/db/version_set.cc:519-559 | The restarting level-0 search returns the files overlapping the least range that contains the one asked for and is closed under overlap; deeper levels, exactly the files overlapping the range. |
| Selection.AddBoundaryInputs | ios/Pods/leveldb-library/db/version_set.cc:1378-1401 | The inputs followed by the least chain of boundary files, each continuing the largest user key so far; afterwards no file continues it; sorted and gap-free inputs stay so. |
| Selection.PickLevelForMemTableOutput | ios/Pods/leveldb-library/db/version_set.cc:491-516 | The exact level: 0 if level 0 meets the range, else the first level from which the next one meets the range or the one after it holds more than ten file sizes of it, and 2 if there is none; nothing at that level or above overlaps the table unless it is level 0. |
| Selection.PickBySize | ios/Pods/leveldb-library/db/version_set.cc:1284-1298 | The first file past the compaction pointer, or the first of the level when there is none. |
| Selection.CompactRange | ios/Pods/leveldb-library/db/version_set.cc:1464-1495 | A manual compaction has work exactly when a file of the level overlaps the range; it starts from those files, cut short past level 0 where their bytes reach the limit. |
| Compactions.KeyPreserved | ios/Pods/leveldb-library/db/db_impl.cc:905-998 | For every version, inputs the selection may give, and key: all reads of the key at or above the smallest snapshot are unchanged by the compaction if and only if the compaction does not leak that key. |
| Compactions.ReadsPreserved | ios/Pods/leveldb-library/db/db_impl.cc:905-998 | The two drop rules keep every read at or above the smallest snapshot if and only if nothing leaks. |
| Compactions.CompactedIsPruned | ios/Pods/leveldb-library/db/db_impl.cc:927-960 | The outputs hold an input entry if and only if some read at or above the smallest snapshot finds it among the inputs and it is not a tombstone no such read needs: one at or below the snapshot with no file of its key deeper than the outputs. |
| Compactions.LeakShows | ios/Pods/leveldb-library/db/version_set.cc:1403-1447 | A leak turns the read of the key at the smallest snapshot from "not found" into the old value. |
| Compactions.NoStraddleNoSharedKey | ios/Pods/leveldb-library/db/version_set.cc:1403-1447 | If no user key ends a file of the next level and begins its neighbour with only one of the two selected, then no user key is shared between selected and unselected files, which excludes leaks. |
| Compactions.InvariantKept | ios/Pods/leveldb-library/db/db_impl.cc:860-876 | A compaction or trivial move keeps the version valid: levels sorted and disjoint, numbers naming files, and shallower or newer level-0 data newer than deeper data. |
| LeakExample.SelectionPicksIt | ios/Pods/leveldb-library/db/version_set.cc:1403-1447 | On a concrete valid version the selection code itself chooses inputs that leak. |
| LeakExample.DeletedValueReturns | ios/Pods/leveldb-library/db/db_impl.cc:930-960 | Whatever tables that compaction writes, the read of the deleted key changes from "not found" to the value. |
| CompactionWork.DoCompactionWork | ios/Pods/leveldb-library/db/db_impl.cc:878-1036 | The outputs hold exactly the input entries a read at or above the smallest snapshot can find, less the tombstones at or below it whose key no deeper file covers; no output entry is overwritten by an input entry at or below the snapshot; they are in order, disjoint, freshly numbered, and cut exactly where an output is full or would come to overlap more than ten file sizes of grandparents. |
| CompactionWork.Compaction.IsBaseLevelForKey | ios/Pods/leveldb-library/db/version_set.cc:1533-1552 | For keys asked in nondecreasing order the forward-only cursors answer the full question whether any deeper file covers the key. |
| CompactionWork.HiddenByPrevious | ios/Pods/leveldb-library/db/db_impl.cc:931-949 | In merged order, remembering only the previous entry decides exactly whether a newer entry at or below the smallest snapshot hides this one. |
| Lsm.RunKeeps | ios/Pods/leveldb-library/db/db_impl.cc:718-725 | Every state of every run keeps the store's invariant: layers of recency, valid version, fresh numbers, snapshots above the floor, and table files that answer rightly for every unleaked key. |
| Lsm.RunReads | ios/Pods/leveldb-library/db/db_impl.cc:1100-1145 | In every run, crashes and leaking compactions included, a read of a key no compaction leaked, at any live snapshot or the last write, gives what the history of all writes says. |
| Lsm.FaithfulIff | ios/Pods/leveldb-library/db/db_impl.cc:905-998 | In every run the table files have answered every permitted read of a key rightly all along if and only if no compaction leaked the key. |
| Lsm.LeakVisible | ios/Pods/leveldb-library/db/version_set.cc:1403-1447 | After a leak, the whole-store read at the oldest snapshot or last write returns the deleted value unless a memtable holds a visible entry for the key. |
| Lsm.Layers3 | ios/Pods/leveldb-library/db/db_impl.cc:1122-1140 | Memtable, then immutable memtable, then version: the first to have a visible entry has the newest of all. |
| Lsm.CrashPrefixIff | ios/Pods/leveldb-library/db/db_impl.cc:1356-1357 | A crash that cuts each log anywhere past its last sync leaves a prefix of the writes if and only if the old log comes back whole or nothing of the new one does. |
| Lsm.DurableIff | ios/Pods/leveldb-library/db/db_impl.cc:1217-1218 | A write survives every possible crash if and only if it is in a table file or in the synced part of its own log. |
| Lsm.DurableForever | ios/Pods/leveldb-library/db/db_impl.cc:1217-1218 | Once durable, a write is in the history of every later state of the run. |
| Lsm.SyncCovers | ios/Pods/leveldb-library/db/db_impl.cc:1217-1218 | After a synced write every write so far is durable if and only if all of the immutable memtable was durable before. |
| Lsm.SyncedNotPrefix | ios/Pods/leveldb-library/db/db_impl.cc:1356-1357 | A run of five states in which a synced write survives a crash and the write before it does not. |
| Lsm.SnapshotStable | ios/Pods/leveldb-library/db/db_impl.cc:1166-1174 | What a sequence number denotes never changes without a crash, nor across crashes if everything up to it is durable and something keeps it from being handed out again. |
| DbImpl.Store.Get | ios/Pods/leveldb-library/db/db_impl.cc:1100-1145 | The result is the read of everything stored at the snapshot or the last write and, for an unleaked key, of the whole write history. |
| DbImpl.Store.NewIterator | ios/Pods/leveldb-library/db/db_impl.cc:1062-1087 | The user iterator over memtables, level-0 tables and concatenated levels has as rows, in key order, exactly the keys and values that reads at its sequence number find. |
| DbImpl.Store.Write | ios/Pods/leveldb-library/db/db_impl.cc:1185-1256 | One step of the run: the operations get the next numbers and join history, memtable and current log, a sync marks the current log only; and at the new last number a key reads as the value of the last operation on it, as nothing if that is a deletion, and as before if there is none; earlier reads do not change. |
| DbImpl.Store.SwitchMemTable | ios/Pods/leveldb-library/db/db_impl.cc:1345-1366 | One step: memtable and log become the old ones with the sync mark they had; the new ones are empty. |
| DbImpl.Store.CompactMemTable | ios/Pods/leveldb-library/db/db_impl.cc:535-566 | One step: the immutable memtable becomes a table with the next number at exactly the level PickLevelForMemTableOutput is to pick, and the manifest still replays to the version. |
| DbImpl.Store.BackgroundCompaction | ios/Pods/leveldb-library/db/db_impl.cc:688-767 | Exactly when the task has work, one step: a lone input with little below it moves down unchanged unless the compaction is manual, otherwise well cut files of the next level replace the inputs and hold of their entries just those some permitted read can find and needs; the manifest still replays to the version. |
| DbImpl.Store.Reopen | ios/Pods/leveldb-library/db/db_impl.cc:280-369 | After a crash that keeps the first n1 batches of the old log and n2 of the current one, exactly the flushed writes and those batches come back, and every key reads as the table files had it with those operations carried out in order; they are a prefix of the writes if and only if the lost part of the old log or the kept part of the new one has no operations; the new manifest starts with a snapshot. |
| Installing.InsertInto | ios/Pods/leveldb-library/db/write_batch.cc:119-137 | In the memtable each operation of a batch is seen from its own number on: after the first n, a key reads as the last of these on it says. |
| Installing.ReadStamped | ios/Pods/leveldb-library/db/write_batch.cc:119-130 | One more operation: its key reads as its value, or as nothing if it deletes; every other key as before. |
| CrashExample.SyncedComesBackAlone | ios/Pods/leveldb-library/db/db_impl.cc:349-352 | Through the store's own operations: write, switch, synced write, crash, reopen; the first key is gone and the second is there. |
| Recovery.CrashIsLoss | ios/Pods/leveldb-library/db/db_impl.cc:349-352 | Cutting the two logs at batch boundaries loses their tails and nothing else, and keeps the invariant and the logs in step with the memtables. |
| Recovery.LogReads | ios/Pods/leveldb-library/db/db_impl.cc:414-452 | The entries of a log on top of older ones read as its operations say, batch after batch. |
| Recovery.RecoverLogFile | ios/Pods/leveldb-library/db/db_impl.cc:371-489 | Replaying a log yields level-0 tables in order of recency, one for each memtable that became full and one for the rest, with exactly the log's entries added; every key reads as its operations leave it; and the last sequence number is that of the log if greater. |
| Recovery.RecoverAfterCrash | ios/Pods/leveldb-library/db/db_impl.cc:1474-1515 | Manifest and cut logs rebuild a valid store whose entries are the version's and the surviving batches', with a fresh manifest that replays to its version. |
| Recovery.ManifestWalks | ios/Pods/leveldb-library/db/version_set.cc:801-884 | A store's manifest that starts with a snapshot leads, edit by edit, from the version described to the current one. |
| VersionBuilder.ReplayStepwise | ios/Pods/leveldb-library/db/version_set.cc:650-754 | For any base and any edits that never reuse a (level, number) pair, accumulating all edits in one builder gives what applying them one version at a time gives. |
| VersionBuilder.Builder.SaveTo | ios/Pods/leveldb-library/db/version_set.cc:695-739 | The merge of base and added files gives every level exactly its surviving files in sorted order. |
| Manifests.ReplaySnapshot | ios/Pods/leveldb-library/db/version_set.cc:1088-1116 | One builder over the snapshot of a version and all later edits rebuilds exactly the live version; its levels above zero are sorted and disjoint if each edit keeps them so. |
| Manifests.ReplayLive | ios/Pods/leveldb-library/db/version_set.cc:886-1011 | Replay from any base equals the last of the versions made one edit at a time. |
| Manifests.LiveInOrder | ios/Pods/leveldb-library/db/version_set.cc:741-754 | If each edit adds nothing overlapping itself or what it leaves, every version of the chain keeps the level sorted and disjoint. |
| Manifests.StepInOrder | ios/Pods/leveldb-library/db/version_set.cc:741-754 | For one edit that condition is exact. |
| ManifestFiles.CrashAndRecover | ios/Pods/leveldb-library/db/version_set.cc:886-1011 | Records of a snapshot and edits, written to a manifest file, cut at any byte and recovered: exactly the version live at the last whole record with that record's counters; corruption without one; refusal under another comparator. |
| ManifestFiles.Describe | ios/Pods/leveldb-library/db/version_edit.cc:41-85 | Any edit with spelled keys and numbers in range has an encodable record describing it. |
| ManifestFiles.FileRecord | ios/Pods/leveldb-library/db/version_edit.cc:76-84 | The bytes of an added file: tag 7, level, number, size, least and largest key, these being the first and last of its run. |
| VersionEdits.EditRoundTrip | ios/Pods/leveldb-library/db/version_edit.cc:41-205 | Decoding an encoded edit gives the edit back, with its compaction pointers after those the target already had. |
| VersionEdits.VersionEdit.DecodeFrom | ios/Pods/leveldb-library/db/version_edit.cc:107-205 | On any bytes the loop agrees with the specification of the format, including every malformed case. |
| VersionEdits.CrashAndReadManifest | ios/Pods/leveldb-library/db/version_set.cc:929-968 | A manifest cut at any byte gives back exactly the edits whose records are whole, with nothing reported. |
| Replaying.ReplayFile | ios/Pods/leveldb-library/db/db_impl.cc:371-489 | A log file of batches cut at any byte and given to recovery replays exactly the batches whole in it: every byte-string key reads as the last of their operations on it says. |
| Replaying.CommitsReplayed | ios/Pods/leveldb-library/db/db_impl.cc:1204-1240 | For any fault-free run of group commits, its log file cut at any byte replays to the first operations of the successful calls numbered from 1; whole, every key reads as the last operation of a successful call on it says, and what inserting the applied batches puts in the memtable is the same. |
| GroupCommit.RunKeeps | ios/Pods/leveldb-library/db/db_impl.cc:1185-1306 | In every interleaving, with failed appends and syncs: order of arrival, disjoint number ranges, no synced call in an unsynced group. |
| GroupCommit.CompletesOnce | ios/Pods/leveldb-library/db/db_impl.cc:1240-1256 | Every call that arrived has completed exactly once or still waits, in order of arrival. |
| GroupCommit.CommitsInOrder | ios/Pods/leveldb-library/db/db_impl.cc:1185-1256 | Successful calls have disjoint, increasing ranges of sequence numbers in order of arrival, and those that asked for a sync are synced. |
| GroupCommit.ReplayIsCommits | ios/Pods/leveldb-library/db/db_impl.cc:1204-1240 | Without faults the log holds exactly the successful calls' operations, in order and numbered from 1 without a gap. |
| GroupCommit.BuildBatchGroup | ios/Pods/leveldb-library/db/db_impl.cc:1260-1306 | The code joins the longest group the rules allow, and the result holds its operations in order. |
| GroupCommit.GroupLimits | ios/Pods/leveldb-library/db/db_impl.cc:1260-1306 | A synced write joins no unsynced leader, a group stays within 1 MB or 128 kB past a small leader, and it ends only before a write that would break one of these. |
| LogCrash.CrashSafe | ios/Pods/leveldb-library/db/log_reader.cc:56-271 | From any byte prefix of what the writer produced from any position, the reader gets exactly the records whole in it and reports nothing. |
| LogCrash.WholeCounts | ios/Pods/leveldb-library/db/log_writer.cc:34-108 | A record counts as whole exactly when its last byte lies in the prefix. |
| LogLayout.EncodeLaid | ios/Pods/leveldb-library/db/log_writer.cc:34-108 | Wherever a record is written, its fragments are where the format says: four bytes of masked checksum of type and payload and two of length, low byte first, type 1 to 4 for whole, first, middle and last, as much payload as the 32 kB block has room for, zeros where a block has under seven bytes left. |
| LogLayout.ReadSound | ios/Pods/leveldb-library/db/log_reader.cc:56-271 | On any bytes the reader makes no record up: what it returns is spelled by fragments of the file in order, first to last, each with its checksum. |
| LogDamage.DamageCosts | ios/Pods/leveldb-library/db/log_reader.cc:56-271 | In a log of any records a fragment with a wrong checksum, or a length past its block, costs exactly the records with bytes in the rest of its block; all records before and after come back, and the reports are the rest of the block, what was put together of the first lost record, and what is left of the last. |
| LogDamage.IntactRead | ios/Pods/leveldb-library/db/log_reader.cc:91-168 | What a fragment of each type does inside and outside a record begun, with the report it draws when out of place. |
| LogDamage.FillPassed | ios/Pods/leveldb-library/db/log_reader.cc:235-243 | A block's rest of zero length and type is passed over, reported only if it interrupts a record. |
| LogDamage.CutIsEnd | ios/Pods/leveldb-library/db/log_reader.cc:190-233 | A header or payload cut off by the end of the file is the end of the log and no error. |
| LogFile.Writer.AddRecord | ios/Pods/leveldb-library/db/log_writer.cc:34-80 | The fragmenting loop appends the record laid out byte by byte as the format says (`LogLayout.Laid`), and nothing else. |
| LogFile.Reader.ReadRecord | ios/Pods/leveldb-library/db/log_reader.cc:56-174 | On any file the reassembly loop returns, reports and leaves what the format's meaning says, and a record returned is spelled by checksummed fragments of the file. |
| LogReplay.CrashAndReplay | ios/Pods/leveldb-library/db/db_impl.cc:414-452 | Batches logged, cut at any byte, read and decoded come back exactly as far as they are whole. |
| WriteBatch.BatchRoundTrip | ios/Pods/leveldb-library/db/write_batch.cc:42-80 | Sequence number, count and operations of an encoded batch are read back. |
| WriteBatch.Iterate | ios/Pods/leveldb-library/db/write_batch.cc:42-80 | On any bytes the loop hands over the operations before the first bad one and ends with the right error. |
| DbIterator.ViewIsMap | ios/Pods/leveldb-library/db/db_iter.cc:141-299 | The rows shown at a sequence number are exactly the keys a point read finds, with the value it finds. |
| DbIterator.DBIter.Next | ios/Pods/leveldb-library/db/db_iter.cc:141-198 | From any row and direction, exactly one row further, or past the last. |
| DbIterator.DBIter.Prev | ios/Pods/leveldb-library/db/db_iter.cc:200-267 | From any row and direction, exactly one row back, or before the first. |
| DbIterator.DBIter.Seek | ios/Pods/leveldb-library/db/db_iter.cc:269-281 | Lands on the first row whose key is not below the target. |
| DbIterator.DBIter.SeekToLast | ios/Pods/leveldb-library/db/db_iter.cc:294-299 | Lands on the last row. |
| DbIterator.DBIter.AtRow | ios/Pods/leveldb-library/db/db_iter.cc:64-71 | Key and value returned are those of the current row in either direction. |
| Merging.MergeAllSorted | ios/Pods/leveldb-library/table/merger.cc:148-176 | Runs without a shared internal key merge into one sorted run. |
| Merging.MergingIterator.Next | ios/Pods/leveldb-library/table/merger.cc:55-79 | One position further in the sorted union, a change of direction included. |
| Merging.MergingIterator.Prev | ios/Pods/leveldb-library/table/merger.cc:81-108 | One position back in the sorted union, a change of direction included. |
| Merging.MergingIterator.Seek | ios/Pods/leveldb-library/table/merger.cc:47-53 | Stands at the first entry of the union not before the target. |
| Iterating.ViewOfRuns | ios/Pods/leveldb-library/db/db_impl.cc:1147-1157 | Merging runs that hold a set of entries and filtering them gives the map of reads of that set. |
| Iterating.AddIterators | ios/Pods/leveldb-library/db/version_set.cc:230-246 | The children are every level-0 table and every nonempty deeper level concatenated, in this order. |
| SkipLists.SkipList.Insert | ios/Pods/leveldb-library/db/skiplist.h:337-368 | For any height, the new entry is linked into exactly its levels, each of which is the old list with it in its place; the list's height grows to the new entry's. |
| SkipLists.SkipList.FindGreaterOrEqual | ios/Pods/leveldb-library/db/skiplist.h:261-281 | The first node not before the key, with its predecessor at every level. |
| SkipLists.SkipList.LinkIsSuccessor | ios/Pods/leveldb-library/db/skiplist.h:153-164 | A loaded link leads to the least later entry of its level, which is what the protocol of concurrent reads assumes of a load. |
| ConcurrentReads.FoundAtAMoment | ios/Pods/leveldb-library/db/skiplist.h:261-281 | A lock-free search that races with inserts gives the exact answer for some moment while it ran. |
| ConcurrentReads.OldOrNew | ios/Pods/leveldb-library/db/skiplist.h:337-368 | While one entry is inserted, a search answers for the list without it or with it. |
| ConcurrentReads.GetDuringInserts | ios/Pods/leveldb-library/db/memtable.cc:100-134 | If all that is inserted meanwhile is newer than the snapshot, a lock-free lookup gives the read of what was there at the start. |
| ConcurrentReads.ScanDuringInserts | ios/Pods/leveldb-library/db/skiplist.h:207-231 | A racing scan is sorted, holds everything there at the start, and nothing made up. |
| ConcurrentReads.LoadProgress | ios/Pods/leveldb-library/db/skiplist.h:261-281 | Every load brings a search nearer to its end, whatever is inserted. |
| MemTables.MemTable.Get | ios/Pods/leveldb-library/db/memtable.cc:100-134 | The newest entry of the key visible at the sequence number. |
| MemTables.MemTable.Scan | ios/Pods/leveldb-library/db/memtable.cc:48-65 | Exactly the entries, in order. |
| KeyOrder.FindShortestSeparator | ios/Pods/leveldb-library/util/comparator.cc:29-50 | The start's bytes up to the first difference and the byte there raised by one, if that is still below the limit's byte; otherwise the start itself. Never longer, and strictly between the two when changed. |
| KeyOrder.InternalSeparator | ios/Pods/leveldb-library/db/dbformat.cc:69-86 | A key that is the start, or has a user key strictly between the two. |
| KeyOrder.GapHasNoEntry | ios/Pods/leveldb-library/table/table_builder.cc:94-123 | A target falling in the gap a shortened separator opens shares no user key with what follows. |
| KeyOrder.InternalTotal | ios/Pods/leveldb-library/db/dbformat.cc:51-67 | Of two internal keys one is before the other unless they are the same bytes. |
| KeyEmbedding.RankOrder | ios/Pods/leveldb-library/util/comparator.cc:25-27 | One byte string is before another exactly when its rank is smaller. |
| KeyEmbedding.ParsedOrder | ios/Pods/leveldb-library/db/dbformat.cc:51-67 | The comparator on packed internal keys is the model's order on what they parse to. |
| TableBuilding.TableBuilder.Add | ios/Pods/leveldb-library/table/table_builder.cc:94-123 | One more pair with the delayed index entry separating it from the block before; a block is closed exactly when its size reaches the block size. |
| TableBuilding.TableBuilder.Finish | ios/Pods/leveldb-library/table/table_builder.cc:198-253 | The file is a table of exactly the added pairs: blocks, index, filter, metaindex and footer where the handles say. |
| Tables.Table.constructor | ios/Pods/leveldb-library/table/table.cc:38-134 | Opening any table whose blocks fit 32 bits finds its index and, under the policy's name only, its filter. |
| Tables.Table.InternalGet | ios/Pods/leveldb-library/table/table.cc:216-244 | Through index, filter and block: the first pair not below the key; nothing is returned only if there is none or it belongs to another user key. |
| TableReads.TableGet | ios/Pods/leveldb-library/db/version_set.cc:263-276 | A lookup in a table file is the newest visible entry of the run the file stands for, as `DbFormat.RunGet` has it. |
| TableReads.BuildAndGet | ios/Pods/leveldb-library/table/table_builder.cc:94-253 | A file built from a run and opened again answers lookups for that run. |
| TwoLevel.TwoLevelIterator.Seek | ios/Pods/leveldb-library/table/two_level_iterator.cc:82-87 | Lands on the first pair of the table not below the target, across empty blocks. |
| TwoLevel.TwoLevelIterator.Prev | ios/Pods/leveldb-library/table/two_level_iterator.cc:109-113 | The exact inverse of Next across blocks. |
| TwoLevel.ScanTable | ios/Pods/leveldb-library/table/two_level_iterator.cc:89-139 | Opening and scanning a table file gives exactly its pairs. |
| TwoLevel.BuildAndScan | ios/Pods/leveldb-library/table/table_builder.cc:94-253 | Build, open and scan is the identity on ordered pairs. |
| Blocks.BlockBuilder.Add | ios/Pods/leveldb-library/table/block_builder.cc:72-106 | The pairs so far with one more; the buffer and restarts are those of the format. |
| Blocks.BlockBuilder.SizeIsExact | ios/Pods/leveldb-library/table/block_builder.cc:56-60 | The size estimate is the exact size of the finished block. |
| BlockIterator.Iter.Seek | ios/Pods/leveldb-library/table/block.cc:163-201 | Lands on the first entry whose key is not below the target, by binary search over restarts and a scan. |
| BlockIterator.Iter.Prev | ios/Pods/leveldb-library/table/block.cc:142-161 | The exact inverse of Next; invalid before the first entry. |
| BlockIterator.BuildAndRead | ios/Pods/leveldb-library/table/block.cc:224-251 | A block built with any restart interval reads back exactly its pairs. |
| Filters.BloomIsSafe | ios/Pods/leveldb-library/util/bloom.cc:28-80 | For every hash function and number of bits, a key the filter was made for always matches. |
| Filters.CreateFilter | ios/Pods/leveldb-library/util/bloom.cc:28-54 | The loops set exactly the specified bits, for any keys, and append the number of probes. |
| Filters.BloomExact | ios/Pods/leveldb-library/util/bloom.cc:28-54 | A bit of the filter is set if and only if it is a probe of one of its keys; the size and the number of probes follow the bits a key. |
| Filters.ProbeIs | ios/Pods/leveldb-library/util/bloom.cc:40-50 | Probe j of a hash is the hash plus j times its rotation by 17 bits, modulo 2 to the 32. |
| FilterBlocks.BlockKeysMatch | ios/Pods/leveldb-library/table/filter_block.cc:21-104 | A key added to a block matches the filter found at the block's offset, whatever the policy without false negatives. |
| FilterBlocks.AsksItsFilter | ios/Pods/leveldb-library/table/filter_block.cc:90-104 | The reader asks exactly the filter made for the 2 kB range the block offset lies in. |
| LruCache.Cache.Insert | ios/Pods/leveldb-library/util/cache.cc:266-303 | The new entry replaces one with its key, then oldest unused entries go until the budget holds or none is left. |
| LruCache.Cache.Lookup | ios/Pods/leveldb-library/util/cache.cc:252-259 | The entry for the key or null, now held once more and on the in-use list. |
| LruCache.Cache.Release | ios/Pods/leveldb-library/util/cache.cc:261-264 | The last hold makes the entry the newest unused one, or deletes it if the cache has dropped it. |
| LruCache.Cache.Erase | ios/Pods/leveldb-library/util/cache.cc:318-321 | The entry leaves cache and table, and is deleted unless a client holds it. |
| LruCache.Cache.Prune | ios/Pods/leveldb-library/util/cache.cc:323-333 | Exactly the unused entries are deleted, oldest first. |
| LruCache.DeletedIff | ios/Pods/leveldb-library/util/cache.cc:225-237 | Under the invariant every operation keeps, the deleter of every handle ever made has run exactly once if nothing refers to it and not at all otherwise. |
| LruCache.EvictedWithin | ios/Pods/leveldb-library/util/cache.cc:293-302 | Eviction takes from the old end, stops at the budget or an empty list, and touches nothing in use. |
| LruCache.InsertedKept | ios/Pods/leveldb-library/util/cache.cc:266-303 | What a client has just inserted stays cached, whatever had to go for it. |
| CacheOrder.LeastRecentlyUsed | ios/Pods/leveldb-library/util/cache.cc:266-303 | In every history of operations an eviction never takes an entry while one that has been unused for longer is there. |
| CacheOrder.EvictedSteps | ios/Pods/leveldb-library/util/cache.cc:293-302 | Making room is one eviction of the oldest unused entry after another, each made over the budget. |
| HandleTable.Table.Insert | ios/Pods/leveldb-library/util/cache.cc:78-92 | The table is the set of entries less the one with the same key plus the new one, across resizing. |
| HandleTable.Table.Resize | ios/Pods/leveldb-library/util/cache.cc:122-146 | Every entry is filed again under the least power of two of buckets, from four up, that is no less than the entries. |
| HandleTable.MaskIsModulo | ios/Pods/leveldb-library/util/cache.cc:114-120 | Masking a hash with a power of two less one is the remainder modulo it. |
| Coding.EncodeVarint32 | ios/Pods/leveldb-library/util/coding.cc:47-73 | The unrolled cases write the value's seven-bit groups, low first. |
| Coding.ParseVarint64 | ios/Pods/leveldb-library/util/coding.cc:142-157 | On any bytes: at most ten groups, kept modulo 2 to the 64. |
| Coding.Varint64RoundTrip | ios/Pods/leveldb-library/util/coding.cc:81-157 | A 64-bit varint is read back with the rest of the input. |
| Coding.PrefixedRoundTrip | ios/Pods/leveldb-library/util/coding.cc:98-190 | A length-prefixed string is read back with the rest of the input. |
| FormatBytes.FixedAt | ios/Pods/leveldb-library/util/coding.cc:9-45 | Byte i of a fixed-width number is its i-th digit to the base 256. |
| FormatBytes.VarintExample | ios/Pods/leveldb-library/util/coding.cc:47-96 | Varints spelled out. |
| FormatBytes.BatchExample | ios/Pods/leveldb-library/db/write_batch.cc:5-33 | A batch of a put and a deletion, byte by byte. |
| FormatBytes.UnknownTag | ios/Pods/leveldb-library/db/write_batch.cc:42-80 | Operations before an unknown tag are handed over, then the batch is refused. |
| FormatBytes.BadBatches | ios/Pods/leveldb-library/db/write_batch.cc:42-80 | A short header, key or value is the error of its kind. |
| FormatBytes.CountChecked | ios/Pods/leveldb-library/db/write_batch.cc:42-80 | The count in the header is checked after all operations are handed over. |
| FormatBytes.KeyLayout | ios/Pods/leveldb-library/db/dbformat.cc:14-23 | An internal key ends with a byte for the type, 1 for a value and 0 for a deletion, and seven for the number. |
| FormatBytes.SeekLayout | ios/Pods/leveldb-library/db/dbformat.cc:121-138 | A lookup key has the type of a value. |
| FormatBytes.ItemExample | ios/Pods/leveldb-library/db/version_edit.cc:41-85 | Each kind of item of a version edit, byte by byte, its tag first. |
| FormatBytes.EditExample | ios/Pods/leveldb-library/db/version_edit.cc:41-85 | The order of the items of an edit. |
| FormatBytes.BlockExample | ios/Pods/leveldb-library/table/block_builder.cc:62-106 | A block of two keys with a common prefix, byte by byte. |
| FormatBytes.FooterExample | ios/Pods/leveldb-library/table/format.cc:31-40 | A table's footer, byte by byte, with the magic number. |
| FormatBytes.TrailerExample | ios/Pods/leveldb-library/table/table_builder.cc:177-194 | The type and masked checksum behind a block. |
| FormatBytes.OneByteLog | ios/Pods/leveldb-library/db/log_writer.cc:82-108 | A log of one record of one byte, byte by byte, with its checksum 0xa20bcdb5. |
| Crc32c.Extend | ios/Pods/leveldb-library/util/crc32c.cc:276-377 | For every buffer and alignment the four-lane loop over words computes the bitwise checksum. |
| Crc32c.SimpleConcat | ios/Pods/leveldb-library/util/crc32c.cc:276-377 | Checksumming in pieces is checksumming the whole. |
| Crc32c.MaskRoundTrip | ios/Pods/leveldb-library/util/crc32c.h:22-38 | Unmasking a masked checksum gives it back. |
| KnownChecksums.Ascending | ios/Pods/leveldb-library/util/crc32c.cc:276-377 | The checksum of the bytes 0 to 31 is the one of RFC 3720, section B.4. |
| KnownChecksums.TableBasis | ios/Pods/leveldb-library/util/crc32c.cc:20-85 | The table entries the polynomial arithmetic stands for, at the powers of two, are the numbers in the source. |
| KnownChecksums.TableLinear | ios/Pods/leveldb-library/util/crc32c.cc:20-85 | Every other table entry is the exclusive or of these. |
| Threadpool.RunKeeps | ios/Pods/Libuv-gRPC/src/threadpool.c:57-160 | Every state of every interleaving of workers, submissions and cancellations keeps the pool's invariant. |
| Threadpool.SlowBounded | ios/Pods/Libuv-gRPC/src/threadpool.c:80-105 | Slow jobs running never exceed half the threads rounded up, and pending slow jobs have their message in the queue. |
| Threadpool.JobsAccountedFor | ios/Pods/Libuv-gRPC/src/threadpool.c:256-315 | A submitted job is in exactly one place, its done callback comes at most once, and says "cancelled" exactly if it never started. |
| Threadpool.NeverStalls | ios/Pods/Libuv-gRPC/src/threadpool.c:57-160 | When all workers wait, no work is queued. |
| Threadpool.StartedOnce | ios/Pods/Libuv-gRPC/src/threadpool.c:107-125 | A job that is taken was never taken before. |
| Threadpool.HeldBackAtHalf | ios/Pods/Libuv-gRPC/src/threadpool.c:45-97 | A worker goes to sleep over a pending slow job only when exactly half the threads, rounded up, are in slow work. |
| JobOrder.StartsInOrder | ios/Pods/Libuv-gRPC/src/threadpool.c:142-160 | In every interleaving, of two fast jobs or two slow ones the one submitted first is started or cancelled before the other is started. |
| JobOrder.CallbacksInOrder | ios/Pods/Libuv-gRPC/src/threadpool.c:295-315 | Of two jobs of one loop the one reported done first is called back first. |
| WorkerPool.Threads.Section | ios/Pods/Libuv-gRPC/src/threadpool.c:68-125 | A worker's turn under the mutex is a path of protocol steps that ends waiting or with a job. |
| WorkerPool.Threads.Post | ios/Pods/Libuv-gRPC/src/threadpool.c:142-160 | One submission: at the tail of the queue, or of the slow queue with one message for it, and a sleeping worker woken if there is one. |
| WorkerPool.Threads.WorkCancel | ios/Pods/Libuv-gRPC/src/threadpool.c:269-293 | Succeeds exactly when the job is still queued, and then hands it to its loop as cancelled. |
| WorkerPool.Threads.WorkDone | ios/Pods/Libuv-gRPC/src/threadpool.c:295-315 | The loop calls back exactly the finished jobs, in order. |
| PointerHeap.Heap.Insert | ios/Pods/Libuv-gRPC/src/heap-inl.h:106-148 | Links stay mutually consistent, the tree complete and in heap order, with exactly the new node added. |
| PointerHeap.Heap.Remove | ios/Pods/Libuv-gRPC/src/heap-inl.h:150-237 | The same, for any node removed. |
| PointerHeap.Heap.NodeSwap | ios/Pods/Libuv-gRPC/src/heap-inl.h:72-104 | The pointer surgery exchanges a node with its parent and nothing else. |
| PointerHeap.Heap.Walk | ios/Pods/Libuv-gRPC/src/heap-inl.h:118-134 | The bit path computed from the number of a slot reaches exactly that slot. |
| PointerHeap.Heap.MinLeast | ios/Pods/Libuv-gRPC/src/heap-inl.h:67-69 | The root is a least node. |
| Timers.TimerLoop.RunTimers | ios/Pods/Libuv-gRPC/src/timer.c:154-171 | Fires exactly the due timers, each once, in order of timeout and then of start number; re-arms the repeating ones in the future; leaves none due and the others alone. |
| Timers.TimerLoop.Start | ios/Pods/Libuv-gRPC/src/timer.c:66-94 | Arms at the clamped time with the next start number, or changes nothing without a callback or on a closing handle. |
| Timers.TimerLoop.Again | ios/Pods/Libuv-gRPC/src/timer.c:110-120 | Re-arms a repeating timer from now; a closing one is only stopped. |
| Timers.TimerLoop.NextTimeout | ios/Pods/Libuv-gRPC/src/timer.c:133-151 | The time to the earliest timer, 0 if one is due, -1 without timers, capped at the largest int. |
| InetText.TextRoundTrip | ios/Pods/Libuv-gRPC/src/inet.c:67-147 | Every address is read back from its text, whichever run of zeros the text shortens. |
| Inet.FindZeros | ios/Pods/Libuv-gRPC/src/inet.c:90-112 | The scan finds the first of the longest runs of at least two zero words. |
| Inet.Ntop6 | ios/Pods/Libuv-gRPC/src/inet.c:67-147 | The text with that run shortened if it fits with its terminator, and no text overruns the temporary buffer. |
| Inet.Pton6 | ios/Pods/Libuv-gRPC/src/inet.c:218-302 | On any text the loop agrees with the specification of the accepted texts. |
| Inet.PrintAndParse | ios/Pods/Libuv-gRPC/src/inet.c:40-176 | Printing an address and reading it with any short zone after it gives the address. |
| InetExamples.Digits | ios/Pods/Libuv-gRPC/src/inet.c:130-135 | Words are printed in lower-case hexadecimal without leading zeros. |
| InetExamples.Compressed | ios/Pods/Libuv-gRPC/src/inet.c:67-147 | Addresses and their shortened texts, spelled out. |
| InetExamples.Dotted | ios/Pods/Libuv-gRPC/src/inet.c:120-128 | Addresses whose text ends in dotted decimals, spelled out. |
| InetExamples.Refused | ios/Pods/Libuv-gRPC/src/inet.c:179-302 | Texts that are refused, spelled out. |
| ProtobufRoundTrip.RoundTrip | ios/Pods/nanopb/pb_decode.c:928-1076 | For every descriptor tree and every message in range, encoding succeeds and decoding gives the message back. |
| ProtobufRoundTrip.TextReads | ios/Pods/nanopb/pb_decode.c:1481-1517 | A char array comes back exactly when its text and a terminator fit. |
| ProtobufRoundTrip.UnknownField | ios/Pods/nanopb/pb_decode.c:298-334 | An unknown field of any wire type is skipped without effect. |
| ProtobufMerging.LastWins | ios/Pods/nanopb/pb_decode.c:406-423 | Of a field sent twice in a row the first value makes no difference. |
| ProtobufMerging.OrderIsFree | ios/Pods/nanopb/pb_decode.c:928-1076 | Two fields that are not of one union may come in either order. |
| ProtobufMerging.UnionLast | ios/Pods/nanopb/pb_decode.c:466-480 | Of the members of a union only the one sent last is set. |
| ProtobufMerging.ValueJoins | ios/Pods/nanopb/pb_decode.c:424-464 | A value sent by itself joins a repeated field, packed or not, while there is room, and is refused without. |
| ProtobufMerging.PiecesMerge | ios/Pods/nanopb/pb_decode.c:1519-1541 | A submessage sent in two pieces is the second read on top of the first. |
| ProtobufEncode.EncodeSubmessage | ios/Pods/nanopb/pb_encode.c:717-765 | The counting pass and the writing pass agree: success exactly when the sized message fits, and then exactly its bytes. |
| ProtobufEncode.Encode | ios/Pods/nanopb/pb_encode.c:528-549 | Success exactly when the message is encodable and fits the stream; then exactly its bytes. |
| ProtobufDecode.DecodeNoInit | ios/Pods/nanopb/pb_decode.c:928-1076 | On any bytes the field loop over bounded substreams agrees with the meaning of the bytes. |
| ProtobufDecode.EncodeAndDecode | ios/Pods/nanopb/pb_encode.c:528-549 | A message in range written to a buffer and read from it is the message, exactly when it fits. |
| ProtobufExamples.Keys | ios/Pods/nanopb/pb_encode.c:669-707 | The key of a field: its number and the wire type, 0 for varints, 1 for eight bytes, 2 for anything with a length, 5 for four bytes. |
| ProtobufExamples.Numbers | ios/Pods/nanopb/pb_encode.c:608-667 | Values of the scalar types, byte by byte. |
| ProtobufExamples.NegativeNumber | ios/Pods/nanopb/pb_encode.c:608-628 | A negative plain integer takes ten bytes. |
| ProtobufExamples.PackedField | ios/Pods/nanopb/pb_encode.c:147-204 | A packed array, byte by byte. |
| ProtobufExamples.SubField | ios/Pods/nanopb/pb_encode.c:717-765 | A submessage, byte by byte. |
| ProtobufExamples.Ranges | ios/Pods/nanopb/pb_decode.c:1376-1422 | The values a one-byte field holds, and the next ones refused. |

## Left out

- DbImpl.Store.Write: requires that the numbers it hands out stay below 2 to the 56 less 1; the source does not check the overflow.
- DbImpl.Store.BackgroundCompaction: one atomic step on a fixed version; the memtable flush nested in the loop, shutdown and the failure of a background step are not modelled. Which level or file is compacted is a parameter, so compaction scores, seek statistics and their counters play no part.
- DbImpl.Store.Reopen: log reuse (`reuse_logs`), paranoid checks, missing or corrupt files and other errors of the environment; file numbers taken by logs and manifests leave gaps that are not shown. A crash falls between operations, and a whole batch is in a log or not; at the byte level that is what LogCrash and ManifestFiles prove.
- DbImpl.Store.NewIterator: works on the memtable as it was; later inserts, invisible at its sequence number, are the subject of ConcurrentReads.
- CompactionWork.DoCompactionWork: when an output is full is a parameter, as are all file sizes.
- Selection.SetupOtherInputs: the compaction pointer it stores is not kept.
- Versions.Get: the statistics on seeks and the error for a corrupt table entry.
- GroupCommit.RunKeeps: room in the memtable and slowdowns are not modelled; a call may wait as long as it likes.
- LogFile.Reader.ReadRecord: starts at offset 0 and always verifies checksums.
- Crc32c.Extend: the strides use the polynomial's own arithmetic in place of the literal tables, whose entries at the powers of two are compared for the byte table only (KnownChecksums); the hardware path is not modelled.
- TableBuilding.TableBuilder.Finish: no compression, so the compressed block format is not read either; Abandon and option changes.
- Tables.Table.InternalGet: requires a table a builder makes and blocks below 2 to the 32; damaged tables and the block cache between table and file are not modelled.
- Filters.CreateFilter: the hash of a key is a parameter.
- ConcurrentReads.FoundAtAMoment: loads and stores take effect one after the other; weaker memory orders are not modelled.
- LruCache.Cache.Insert: one shard; reference counts, usage and capacity are unbounded, and memory is not freed.
- Threadpool.RunKeeps: the pool's shutdown and re-initialisation after a fork; the thread count is fixed and at least one.
- Timers.TimerLoop.RunTimers: callbacks start and stop no timers, and loop time is below its maximum.
- Inet.PrintAndParse: texts are sequences of characters without a terminator of their own.
- ProtobufRoundTrip.RoundTrip: static fields only, distinct tags; callbacks, extensions, pointer allocation, fixed-count arrays and the wrap-around of eight-bit bit positions are not modelled, and the bits of required fields are a set.
- The environment (files, locks, clocks, threads), statistics, properties, logging, repair, the C interface and the other files of the vendored libraries.
- The application itself and the other vendored libraries.
