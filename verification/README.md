# Verified model of the LSM key-value store

This project models the storage engine, the table file format, the bloom filter and the memtable of a small
log-structured merge store, and proves that they do together what the store is for: it reads as one plain map,
over every run of writes, rotations, flushes, compactions and restarts.

`dafny verify dfyconfig.toml` checks everything.

## How the model is organised

| part | modules |
|---|---|
| bytes, keys, entries, key order, sorted lists, stable sorting | `Basics`, `ByteOrder`, `Sorting`, `StableSort` |
| stacks of layers: reading by position, merging by sequence number | `Layers` |
| greedy packing of entries into blocks and tables | `Packing` |
| memtable | `MemTables` |
| engine as a state machine with interleaved flushes and compactions | `EngineModel`, `EngineProofs`, `EngineRuns`, `EngineOps` |
| engine object and its methods, file names | `Probing`, `Scanning`, `FileNames`, `Reopening`, `Engine` |
| the store over any sequence of client operations and restarts | `StoreRuns` |
| binary digits, integers and variable-length integers | `Bits`, `Serialization` |
| bloom filter | `Bloom` |
| table file: format, opening, contents, writer, reader, table objects | `TableFormat`, `TableOpening`, `TableContents`, `TableWriter`, `TableReader`, `TableObjects` |
| the engine's reads through table files | `FileReads` |
| what the literal lines do where the model follows their purpose | `EngineDefects`, `DefectRuns`, `TableDefects`, and sections of `Bloom` and `MemTables` |

The source's objects are classes here (`MemTable`, `StorageEngine`, `Serializer`, `Deserializer`, `BloomFilter`,
`SSTableWriter`, `SSTableReader`, `SSTableIterator`). Each method is proved against a function of the object's
abstract value (`View`, `Rest`, `Remaining`, `written`), and the laws of the store are lemmas about those functions.

Two engine models share one set of step functions. `EngineModel` lets writes, rotations, the two halves of a flush
(publish the table, retire the memtable) and the three parts of a compaction (snapshot, merge, install) interleave
in any order. `Engine.StorageEngine` is the object; each of its methods is proved equal to a composition of
those steps.

Hashes, checksum, compression, the size of a table's blocks and the answers of table filters inside the engine are
function-typed parameters. All that is assumed of them: decompression undoes compression (Zstd up to the cap the
reader sets), a checksum fits 32 bits, and a table's filter does not deny a key of the table, which
`TableObjects.WrittenFiltersAreSafe` shows for the filters the writer builds. The clock is a counter of readings;
only its order is used. Bitwise or is defined on binary digits; that joining the parts of a variable-length integer with
it is addition is proved (`Serialization.JoinPart`).

## Where the code contradicts its purpose

At these places the model does what the code is meant to do. A lemma says exactly when the literal line would have
been right, and for the engine a run or a state shows what it loses otherwise.

| source | literal line | model | exactly when it is right | instance |
|---|---|---|---|---|
| src/bloom.rs:43 | allocates seven eighths of a byte per bit | one bit per bit, as `from_bytes` demands | `Bloom.LiteralAllocationExactly` | every other bit count |
| src/bloom.rs:129-133 | `set_bit` sets nothing | sets the bit `get_bit` reads | `Bloom.LiteralAddForgets` | every filter with a hash |
| src/memtable.rs:152-156 | subtracts a negative delta cast to `usize` | the size follows the delta | `MemTables.LiteralSizeExactly` | `MemTables.LiteralSizeGrowsOnShrinkingOverwrite` |
| src/sstable.rs:181 | largest key is the first key of the last block | last key of the last block | `TableDefects.LiteralMaxKeyExactly` | `TableDefects.LiteralMaxKeyMissesKey` |
| src/sstable.rs:404 | loop bounded by the length of the end key | bounded by the number of blocks | `TableDefects.LiteralRangeExactly` | `TableDefects.LiteralRangeMissesBlock` |
| src/storage.rs:295 | rotated memtable numbers from the engine counter | from the old memtable's counter, or the engine's if higher | `EngineDefects.LiteralRotationExactly`, `EngineDefects.LiteralRotationScanExactly` | `DefectRuns.LiteralRotationRun` |
| src/storage.rs:54 | reopened memtable numbers from 0 | from above every stored number | `EngineDefects.LiteralReopenExactly`, `EngineDefects.LiteralReopenScanExactly` | `DefectRuns.LiteralReopenRun` |
| src/storage.rs:599 | drops every tombstone | keeps those whose key a deeper level knows | `EngineDefects.LiteralCompactionExactly` | `EngineDefects.LiteralCompactionRevivesDeletedKey` |
| src/storage.rs:310-316 | removes a memtable before its table is visible | publishes first | `EngineDefects.LiteralFlushWindowExactly` | `DefectRuns.FlushWindowRun` |
| src/storage.rs:523 | empties level 0 at install | removes only the tables of the snapshot | `EngineDefects.LiteralInstallExactly` | `DefectRuns.LiteralInstallRun` |
| src/config.rs:152 | accepts one level | at least two | `EngineDefects.OneLevelLosesTheDisk` | `DefectRuns.OneLevelRun` |

Two places are kept as written, with the exact extent of what they deliver. `scan` records a deletion as an empty
value (src/storage.rs:205), so it reports every live pair of the range exactly when no key in the range holds an empty
value (`Scanning.ScanIsCompleteExactly`). The Zstd path refuses blocks of more than four block sizes
(src/sstable.rs:336), so a table reads back exactly when no entry needs more (`TableContents.ReadsBackExactly`).

## Model

| member | source | states |
|---|---|---|
| StoreRuns.StoreIsPlainMap | src/storage.rs:34-185 | over every sequence of puts, deletes, compaction passes and restarts, every key reads as in a plain map that saw only the accepted puts and deletes; the engine invariant holds and the memtable stays below its threshold plus one maximal entry |
| StoreRuns.ScanOverAnyRun | src/storage.rs:188-275 | in every reachable state of the interleaved engine, also halfway through a flush or compaction, what a scan collects by highest sequence is, by ascending key, exactly the plain map's non-empty values of the range |
| StoreRuns.ScanIsPlainRange | src/storage.rs:188-275 | after any client operations a scan's pairs are exactly the plain map's non-empty values of the range |
| StoreRuns.RestartOk | src/storage.rs:685-724 | closing and reopening gives a sound, quiet engine with the same answer for every key |
| EngineRuns.EngineIsPlainMap | src/storage.rs:74-185 | over every interleaving of writes, rotations, publish, retire, snapshot, merge and install steps the invariant holds and `get` equals the plain map updated by the same writes |
| EngineRuns.FirstFoundIsNewest | src/storage.rs:106-160 | in every reachable state the first version found has the highest sequence number stored for its key, and all numbers are below the next one to be assigned; along the probe order they fall strictly if and only if no published memtable still shares a key with the disk |
| EngineRuns.InstallLosesNoFlush | src/storage.rs:501-525 | installing a compaction takes from level 0 exactly the snapshot's tables and keeps those flushed since, in order |
| EngineRuns.RangesAreDisjoint | src/storage.rs:372-381 | in a level below 0 no key lies in the key ranges of two tables |
| EngineRuns.TablesAscend | src/storage.rs:607-650 | in a level below 0 every earlier table ends before every later one begins |
| EngineRuns.OneTablePerLevel | src/storage.rs:372-381 | the table `find_sstable_for_key` picks finds for the key what the whole level holds |
| EngineProofs.NextKeepsInv | src/storage.rs:290-370 | every enabled step keeps the invariant, and only a write changes an answer, namely that of its key |
| EngineProofs.WriteKeepsInv | src/storage.rs:94-101 | a write keeps the invariant: its number is above all stored ones |
| EngineProofs.WriteChangesOneKey | src/storage.rs:94-101 | a write changes the answer for its own key and for no other |
| EngineProofs.RotateKeepsInv | src/storage.rs:290-306 | rotation keeps the invariant and every answer |
| EngineProofs.RotateFromKeepsInv | src/storage.rs:293-296 | rotation is sound with any starting number above all stored ones |
| EngineProofs.PublishKeepsInv | src/storage.rs:323-362 | putting the oldest immutable memtable's table on level 0 keeps the invariant and every answer |
| EngineProofs.RetireKeepsInv | src/storage.rs:309-317 | removing a memtable whose table is on level 0 keeps the invariant and every answer |
| EngineProofs.ProbeAgreesWithCore | src/storage.rs:309-317 | a memtable whose table is on level 0 is redundant: probing it changes no answer |
| EngineProofs.ProbeIsFirstHighest | src/storage.rs:106-160 | first found is highest also while a memtable and its table are both probed, and after a compaction took that table in |
| EngineProofs.ProbeOrderedExactly | src/storage.rs:106-160 | along the probe order the numbers of a key's versions fall strictly if and only if no published memtable still shares a key with the disk |
| EngineProofs.SnapshotKeepsInv | src/storage.rs:502-508 | taking a snapshot of two levels keeps the invariant and every answer |
| EngineProofs.MergeOutputMeaning | src/storage.rs:573-605 | the merge output is sorted and holds, for each key a reader of the inputs would find, exactly that version, except tombstones it may drop |
| EngineProofs.JobDropsOnlyDeadKeys | src/storage.rs:596-600 | when every key of the deeper levels is kept, a dropped tombstone's key is unknown below, so nothing reappears |
| EngineProofs.MergeKeepsInv | src/storage.rs:550-554 | merging and writing the new tables keeps the invariant and every answer, and the new tables stay installable |
| EngineProofs.CreateTablesOk | src/storage.rs:607-650 | cutting sorted entries into tables gives a level with exactly those entries, non-empty sorted tables in creation order |
| EngineProofs.CreateTablesCut | src/storage.rs:616-647 | tables are cut without loss to the table size at level 0 and to twice that size below, none empty, none beyond unless a single entry, none with room for the next one's first entry |
| EngineProofs.InstallReplaces | src/storage.rs:521-525 | the installed layers are drawn from what was read, ordered, and drop only dead keys |
| EngineProofs.InstallKeepsLevels | src/storage.rs:556-561 | after an install every level is well formed and in creation order |
| EngineProofs.InstallKeepsStack | src/storage.rs:556-561 | after an install the versions of a key still fall strictly in sequence down the stack |
| EngineProofs.InstallKeepsVisible | src/storage.rs:556-561 | under any layers above, a key reads after an install as before; at most a tombstone disappears |
| EngineProofs.InstallKeepsInv | src/storage.rs:556-561 | installing keeps the invariant and every answer, with any flushes since the snapshot |
| Layers.LookupIsHighest | src/storage.rs:106-160 | over an ordered stack the first version found is stored and newer than every other stored version of its key |
| Layers.HighestPerKeyCorrect | src/storage.rs:581-594 | the merge loop leaves one entry per key, taken from the input, with the highest sequence |
| Layers.MergeIgnoresOrder | src/storage.rs:581-594 | when no two versions of a key share a number, the merge does not depend on the order of the entries |
| Layers.MergeAgreesWithLookup | src/storage.rs:573-605 | over an ordered stack, merging by sequence number gives for every key what reading by position finds |
| Layers.ReplaceKeepsOrder | src/storage.rs:556-561 | replacing a segment of the stack by layers drawn from it keeps the stack ordered |
| Layers.ReplaceKeepsVisible | src/storage.rs:556-561 | replacing a segment by one that drops only dead keys keeps every answer of the whole stack |
| Packing.GreedyLegal | src/storage.rs:626-647 | greedy pieces are non-empty, consecutive, concatenate to the input, and each is within the limit or a single item |
| Packing.GreedyFull | src/storage.rs:629-637 | no greedy piece had room for the item that begins the next one |
| Packing.GreedyBest | src/storage.rs:626-647 | among legal splits greedy uses the fewest pieces and then the shortest last one |
| Packing.GreedyMinimal | src/storage.rs:626-647 | no legal split into consecutive pieces uses fewer pieces |
| EngineOps.DrainOk | src/storage.rs:309-317 | flushing down to a limit keeps the invariant, every answer and the memtable, and leaves exactly the newest immutable memtables up to the limit |
| EngineOps.CheckRotateOk | src/storage.rs:277-288 | below its threshold the memtable stays, at it an empty one takes its place; no answer changed |
| EngineOps.WriteOpOk | src/storage.rs:74-104 | a put or delete changes the answer of its key only and keeps the memtable's size bound |
| EngineOps.CompactOk | src/storage.rs:501-571 | a compaction keeps every answer, empties its upper level and touches no level but its two |
| EngineOps.CompactDropsTombstones | src/storage.rs:596-600 | in the level a compaction writes only tombstones of keys that a deeper level knows remain |
| EngineOps.PassSettles | src/storage.rs:479-484 | the ascending loop never refills a level it has passed |
| EngineOps.CompactionPassSettles | src/storage.rs:468-487 | after a pass level 0 is below its threshold, levels 1 to `max_levels - 2` are within their target sizes, and no answer changed |
| EngineOps.TargetSizesExactly | src/config.rs:186-192 | the target sizes are the one list that begins with table size times threshold, then table size times multiplier, and multiplies by the multiplier from level to level |
| EngineOps.LevelSizeAdds | src/storage.rs:492 | the data of a level is the sum over its tables |
| EngineOps.PassKeepsLevel | src/storage.rs:479-484 | in a pass a level within its size and not fed from above keeps its tables |
| EngineOps.PassAgainstSizes | src/storage.rs:468-499 | against those sizes, a pass leaves every level it looks at within its size, and leaves alone level 0 below its threshold and the levels under it as far down as all are within theirs |
| Scanning.CollectAgreesWithLookup | src/storage.rs:195-257 | collecting the highest sequence per key over the range finds exactly the keys and versions point reads find |
| Scanning.ReportIsScan | src/storage.rs:259-274 | the reported list is sorted, without repeats, and holds exactly the non-empty values point reads return in the range |
| Scanning.ScanVisitsEverything | src/storage.rs:195-257 | what a scan visits is exactly what `get` could probe |
| Scanning.ScanReports | src/storage.rs:188-275 | in every sound state a scan agrees with point reads |
| Scanning.ScanIsCompleteExactly | src/storage.rs:259-269 | a scan equals the point reads of the range if and only if no key of the range holds an empty value |
| Scanning.ScanIsUnique | src/storage.rs:271-274 | a scan's list is determined by what point reads return |
| Scanning.NextNumberIsAbove | src/storage.rs:54-57 | the number a reopened memtable starts from is above every stored one |
| FileNames.LevelRoundTrip | src/storage.rs:432-443 | the level parsed from a table's file name is the one the name was made with |
| FileNames.NamesAreDistinct | src/storage.rs:652-662 | tables that differ in level, second or number get different file names |
| FileNames.LevelExactly | src/storage.rs:432-443 | exactly which names carry a level, and which |
| Reopening.LoadedExactly | src/storage.rs:397-413 | exactly which directory entries are loaded, and at which level |
| Reopening.OwnFilesAreFound | src/storage.rs:397-408 | a table file under the engine's own name is loaded at its level |
| Reopening.LoadRebuildsLevels | src/storage.rs:389-421 | in whatever order the directory lists the files, sorting by creation time rebuilds every level |
| Reopening.ReopenedAnswers | src/storage.rs:51-63 | a reopened engine answers from its disk, whatever number it starts from |
| Reopening.FewerLevelsExactly | src/storage.rs:134 | reopened with fewer levels than the files use, a key reads as before if and only if the levels read know it or the others show nothing for it |
| Reopening.CloseMakesDurable | src/storage.rs:685-724 | after close the disk alone answers every key as the engine did, in a well-formed, ordered state |
| Reopening.ReopenedExactly | src/storage.rs:51-63 | a reopened engine answers from its disk; it is sound if and only if it numbers from above every stored number |
| Reopening.CloseAndReopen | src/storage.rs:383-430 | after close and reopen, for any listing order, every key reads as before and the engine is sound |
| Engine.StorageEngine.OverLevels | src/storage.rs:51-63 | a new engine over loaded levels, with an empty memtable and no immutable ones |
| Engine.StorageEngine.CollectFiles | src/storage.rs:389-416 | the table files of each level in listing order; foreign names and files that do not open are passed over |
| Engine.StorageEngine.SortLevels | src/storage.rs:418-421 | every level sorted by creation time |
| Engine.StorageEngine.LoadSstables | src/storage.rs:383-430 | the loaded levels are the directory's table files, per level, by creation time |
| Engine.StorageEngine.Open | src/storage.rs:34-71 | fails exactly when a threshold, limit, number of levels or table size is 0 or the multiplier is below 10; otherwise every key reads as the files of the configured levels say, and the engine is sound if they are what a closed engine left |
| Engine.StorageEngine.Put | src/storage.rs:74-104 | errors exactly when closed or a size limit is exceeded; otherwise the key reads as the value and every other key as before |
| Engine.StorageEngine.GetValue | src/storage.rs:106-160 | the search over memtables, level 0 newest first and one table per deeper level returns what the probe stack holds |
| Engine.StorageEngine.Delete | src/storage.rs:163-185 | errors exactly when closed or the key is too long; otherwise the key reads as absent and every other key as before |
| Engine.StorageEngine.Absorb | src/storage.rs:216-230 | recording one source keeps, per key, the version with the highest sequence, an earlier one winning ties |
| Engine.StorageEngine.AbsorbTables | src/storage.rs:239-254 | the tables of a level are recorded as their slices of the range, in order |
| Engine.StorageEngine.AbsorbMemtables | src/storage.rs:195-232 | the memtables are recorded as their slices of the range, newest first |
| Engine.StorageEngine.Scan | src/storage.rs:188-275 | in ascending lexicographic order exactly the pairs in the range whose non-empty value a point read returns |
| Engine.StorageEngine.CheckRotateMemtable | src/storage.rs:277-288 | nothing changes below the threshold; at it a fresh empty memtable takes over |
| Engine.StorageEngine.SwapMemtable | src/storage.rs:291-306 | queues the full memtable as immutable and installs an empty one that continues its numbering |
| Engine.StorageEngine.RotateMemtable | src/storage.rs:290-320 | a fresh empty memtable, and the queue one longer or at its limit after flushing the oldest |
| Engine.StorageEngine.EvictOldest | src/storage.rs:310-316 | the oldest immutable memtable leaves the queue and its table becomes the newest of level 0 |
| Engine.StorageEngine.FlushMemtable | src/storage.rs:323-370 | a non-empty memtable becomes the newest table of level 0, sorted, with exactly its contents, its creation time and data size; an empty one changes nothing |
| Engine.StorageEngine.MergeSstables | src/storage.rs:573-605 | the highest version per key of both table lists, without the tombstones not kept, sorted by key |
| Engine.StorageEngine.CreateSstable | src/storage.rs:652-673 | one table with the entries and a creation time later than all before |
| Engine.StorageEngine.CreateSstablesForLevel | src/storage.rs:607-650 | the loop over a running size cuts the entries without loss into tables of the table size, twice that below level 0, each as full as it can be |
| Engine.StorageEngine.CompactLevel | src/storage.rs:537-571 | a compaction of a level into the next one; every key reads as before, and no tombstone without a key below remains in it |
| Engine.StorageEngine.LevelNeedsCompaction | src/storage.rs:489-499 | true exactly when the level's data exceeds its explicit target size |
| Engine.StorageEngine.RunCompaction | src/storage.rs:468-487 | afterwards level 0 is below its threshold and each level within its explicit size, levels with nothing to do keep their tables, and every key reads as before |
| Engine.StorageEngine.NextSequence | src/storage.rs:676-678 | hands out the counter and advances it by one |
| Engine.StorageEngine.Close | src/storage.rs:685-724 | flushes everything once; the files alone then answer every key; a second close changes nothing |
| EngineDefects.LiteralRotationExactly | src/storage.rs:293-296 | for a memtable that holds anything, the literal rotation keeps the invariant if and only if the old memtable's next number is at most the engine counter |
| EngineDefects.LiteralRotationScanExactly | src/storage.rs:293-296 | after a literal rotation a scan collects a fresh write if and only if no other stored version of its key has a number above the engine counter; a point read returns it either way |
| EngineDefects.LateIsCollectedExactly | src/storage.rs:585-592 | a merge keeps a version it visits last if and only if every other version of the key has a lower number |
| DefectRuns.LiteralRotationRun | src/storage.rs:293-296 | from an empty engine: two writes, a literal rotation, an update and a compaction; the update reads back until the compaction undoes it |
| EngineDefects.LiteralRotationRepeatsNumber | src/storage.rs:293-296 | two writes, a literal rotation and a third write give two versions of a key the same number |
| EngineDefects.EqualNumbersLoseTheUpdate | src/storage.rs:585-592 | for any two level-0 tables whose versions of a key share a number, reading finds the newer version and merging keeps the older |
| EngineDefects.LiteralReopenExactly | src/storage.rs:54 | numbering from 0 after a reopen is sound if and only if no table was loaded |
| EngineDefects.LiteralReopenScanExactly | src/storage.rs:54 | after such a reopen a scan sees a fresh write if and only if no version of its key on disk has a number above 0 |
| DefectRuns.LiteralReopenRun | src/storage.rs:54 | from an empty engine: two writes, close, literal reopen and an update; the update reads back, but a scan collects the value from before the restart |
| EngineDefects.CompactKeepingOneKey | src/storage.rs:573-605 | what a key reads after a compaction that keeps a given set of tombstones |
| EngineDefects.LiteralCompactionExactly | src/storage.rs:596-600 | dropping all tombstones keeps every answer if and only if no dropped tombstone a reader meets hides a live value below |
| EngineDefects.LiteralCompactionRevivesDeletedKey | src/storage.rs:596-600 | a sound state in which the literal compaction brings a deleted value back |
| EngineDefects.LiteralFlushWindowExactly | src/storage.rs:310-316 | while the removed memtable's table is missing, a key reads right if and only if a newer memtable knows it, the removed one does not, or the disk says the same |
| DefectRuns.FlushWindowRun | src/storage.rs:310-316 | write a key and rotate: in the literal window the key reads as absent |
| EngineDefects.LiteralInstallOneKey | src/storage.rs:521-525 | after the literal install a key reads as before if and only if a memtable knows it, no table flushed since the snapshot does, or those tables show what the deeper levels show |
| EngineDefects.LiteralInstallExactly | src/storage.rs:521-525 | the literal install keeps every answer if and only if that holds of every key |
| DefectRuns.LiteralInstallForgetsWrite | src/storage.rs:501-525 | for any sound quiet state: a key written and flushed during a compaction is forgotten by the literal install, and every key reads as before the compaction |
| DefectRuns.LiteralInstallRun | src/storage.rs:501-525 | the run from an empty engine: flush a key, snapshot, merge, write another key, flush it, install literally; the second key reads as absent |
| EngineDefects.OnlyMemoryAnswers | src/storage.rs:134 | with one level, after a compaction of level 0 only the memtables answer |
| EngineDefects.OneLevelLosesTheDisk | src/config.rs:152-154 | with one level, a compaction keeps a key's answer, or every answer, if and only if a memtable knows the key or level 0 shows nothing for it |
| DefectRuns.OneLevelRun | src/config.rs:152-154 | one level, one key flushed and compacted: it reads as absent |
| MemTables.InsertKeepsAccounts | src/memtable.rs:125-195 | a write keeps count equal to the number of keys, size equal to the sum of entry sizes, and numbers below the next one, of which the last is still stored |
| MemTables.AccountsOverAnyRun | src/memtable.rs:99-195 | over any run of writes the accounts are right and each write consumed one number |
| MemTables.RestrictionIsSlice | src/memtable.rs:250-258 | listing the keys of a range is cutting the range out of the whole sorted list |
| MemTables.LiteralSizeExactly | src/memtable.rs:152-156 | the literal size update is right if and only if the delta is not negative; otherwise it adds the delta's magnitude |
| MemTables.LiteralSizeGrowsOnShrinkingOverwrite | src/memtable.rs:188-192 | deleting a ten-byte value makes the literal size grow |
| MemTables.MemTable.WithSequence | src/memtable.rs:99-109 | an empty, mutable memtable that numbers from the given start |
| MemTables.MemTable.NextSequence | src/memtable.rs:120-122 | hands out the counter and advances it by one |
| MemTables.MemTable.Put | src/memtable.rs:125-159 | refused exactly when immutable; otherwise the key holds the value with the given time and the next number, no other key changes, and the accounts are right |
| MemTables.MemTable.Delete | src/memtable.rs:162-195 | the same, storing a tombstone |
| MemTables.MemTable.Get | src/memtable.rs:198-201 | the stored version of the key, if there is one |
| MemTables.MemTable.RangeIter | src/memtable.rs:250-258 | exactly the stored entries of the range, its end excluded, in ascending lexicographic order |
| MemTables.MemTable.Entries | src/memtable.rs:271-275 | all stored entries, ascending, as many as the count says |
| MemTables.MemTable.MakeImmutable | src/memtable.rs:230-232 | afterwards the memtable is immutable and otherwise unchanged |
| MemTables.MemTable.Clone | src/memtable.rs:24-39 | a fresh memtable with the same contents and counters |
| ByteOrder.LessIsStrictTotalOrder | src/sstable.rs:633 | the order on byte strings is irreflexive, transitive and total |
| ByteOrder.LessIsLexicographic | src/storage.rs:272 | the order is the lexicographic one: strings agree up to a position, where the first ends or has the smaller byte |
| ByteOrder.LessFixed | src/sstable.rs:633 | a proper prefix comes first, and after a common prefix the smaller byte decides |
| Sorting.SliceIsRange | src/sstable.rs:399-419 | cutting a range out of an ascending list gives, in lexicographic order, exactly the entries of the range |
| Sorting.SortedEntriesCorrect | src/storage.rs:596-602 | listing a map by key gives a strictly ascending list that stands for exactly that map |
| Serialization.IntRoundTrip | src/serialization.rs:13-24 | reading back a little-endian integer gives the value modulo its width |
| Serialization.IntReadBack | src/serialization.rs:82-110 | every byte string of the width is the encoding of exactly the number read from it |
| Serialization.IntLayout | src/serialization.rs:13-24 | byte `i` of a written number is its digit for 256 to the `i` |
| Serialization.VarRoundTrip | src/serialization.rs:36-42 | every 64-bit value comes back from its 1 to 10 bytes with any trailing bytes untouched |
| Serialization.VarEncodingIsShortest | src/serialization.rs:127-147 | no accepted encoding of a value is shorter than the written one |
| Serialization.VarLayout | src/serialization.rs:36-42 | byte `i` holds the `i`-th group of seven bits, and every byte but the last announces another |
| Serialization.VarAccepts | src/serialization.rs:127-147 | accepted exactly when a byte below shift 64 announces no other; reading stops behind the first such byte |
| Serialization.JoinPart | src/serialization.rs:127-147 | joining the next seven-bit group with a bitwise or adds it, also where bits are pushed out of the 64 |
| Bits.OrBits | src/bloom.rs:232-236 | a bit of the bitwise or is set exactly when it is set in either operand |
| Bits.BitIs | src/bloom.rs:118-127 | bit `i` of a number is the last binary digit after dividing by two to the `i` |
| Serialization.Serializer.WriteInt | src/serialization.rs:13-24 | appends the low bytes of the value, least significant first |
| Serialization.Serializer.WriteBytes | src/serialization.rs:26-28 | appends the bytes |
| Serialization.Serializer.WriteVariableInt | src/serialization.rs:36-42 | the loop appends the seven-bit groups of the value |
| Serialization.Deserializer.ReadInt | src/serialization.rs:82-110 | fails exactly when fewer bytes are left, moving nothing; otherwise their value, and the position behind them |
| Serialization.Deserializer.ReadBytes | src/serialization.rs:112-117 | fails exactly when fewer bytes are left, moving nothing; otherwise these bytes, and the position behind them |
| Serialization.Deserializer.Skip | src/serialization.rs:148-152 | drops exactly the requested bytes, or fails and moves nothing |
| Serialization.Deserializer.ReadVariableInt | src/serialization.rs:127-147 | the loop of shifts and bitwise ors reads what the variable-length code of the remaining bytes denotes and stops behind it |
| Bloom.AddSetsPositions | src/bloom.rs:92-101 | adding sets exactly the element's positions and clears nothing |
| Bloom.MergeIsUnion | src/bloom.rs:225-240 | merging gives exactly the union of the set bits |
| Bloom.PositionIsProbedBit | src/bloom.rs:135-148 | round `i` probes first hash plus `i` times second hash, modulo 64 bits and then modulo the bit count |
| Bloom.AdmitsExactly | src/bloom.rs:104-127 | an element is admitted exactly when the bit of every round is set |
| Bloom.FilterLayout | src/bloom.rs:78-90 | where the written bytes put the counts and the bits |
| Bloom.ReloadGives | src/bloom.rs:53-90 | what any filter reloads to: its fields modulo 32 bits, or an error when the length disagrees |
| Bloom.ReloadExactly | src/bloom.rs:53-90 | a filter survives the round trip if and only if its bytes match its bit count and its fields fit 32 bits |
| Bloom.NeverForgets | src/bloom.rs:92-240 | over any history of adds, merges, reloads and clears no element added since the last clear is denied |
| Bloom.LiteralAddForgets | src/bloom.rs:129-133 | a filter whose bits are never set admits an element if and only if it uses no hash |
| Bloom.LiteralAllocationExactly | src/bloom.rs:43 | a filter allocated by the literal formula reloads if and only if it has two bits |
| Bloom.BloomFilter.constructor | src/bloom.rs:21-51 | an empty filter of the given sizes |
| Bloom.BloomFilter.Load | src/bloom.rs:53-76 | succeeds exactly when there are twelve bytes and as many more as the bit count needs, with the counts and bits found there |
| Bloom.BloomFilter.Save | src/bloom.rs:78-90 | header and bits of the filter |
| Bloom.BloomFilter.HashElement | src/bloom.rs:135-148 | one hash per round: the first hash, then the second added once more each round, modulo 64 bits |
| Bloom.BloomFilter.Add | src/bloom.rs:92-101 | afterwards exactly the bits set before and the probed bits of the element are set |
| Bloom.BloomFilter.Contains | src/bloom.rs:104-116 | true exactly when the bit of every round, in plain arithmetic on the two hashes, is set |
| Bloom.BloomFilter.Clear | src/bloom.rs:215-218 | all bits and the element count become zero |
| Bloom.BloomFilter.Merge | src/bloom.rs:225-240 | refused exactly on different configurations, with nothing changed; otherwise the union and the summed counts |
| TableFormat.EntryRoundTrip | src/sstable.rs:679-694 | an entry whose fields fit their widths comes back unchanged, trailing bytes untouched |
| TableFormat.BlockRoundTrip | src/sstable.rs:696-734 | a block's bytes decode to exactly its entries |
| TableFormat.SkipAgrees | src/sstable.rs:450-456 | skipping an entry ends and fails where decoding it would |
| TableFormat.SearchAgrees | src/sstable.rs:364-397 | the skipping search finds what a search of the decoded entries finds |
| TableFormat.SelectAgrees | src/sstable.rs:421-461 | the skipping range scan gives the range of the decoded entries |
| TableFormat.EntryLayout | src/sstable.rs:679-694 | where each field of a written entry is |
| TableFormat.BlocksAreCut | src/sstable.rs:655-674 | blocks hold the entries without loss, none beyond 4096 bytes unless a single entry, none with room for the next one's first entry |
| TableFormat.KeyFilterBits | src/sstable.rs:647-648 | the filter's bits are those its keys probe and no others |
| TableFormat.DamageIsRefused | src/sstable.rs:286-314 | stored bytes that are too few, or whose data does not match the checksum in front, are refused with that error |
| TableFormat.DecompressExactly | src/sstable.rs:317-347 | what decompression gives per method, with room for 16384 bytes under Zstd |
| TableFormat.BlockImageOpens | src/sstable.rs:274-347 | a written block passes its checksum and decompresses to its bytes, unless over the Zstd cap |
| TableOpening.IndexRoundTrip | src/sstable.rs:812-827 | the index reads back unchanged |
| TableOpening.IndexEntryLayout | src/sstable.rs:819-824 | where each field of a written index entry is |
| TableOpening.FooterExactly | src/sstable.rs:118-150 | the fields of any 64 footer bytes by offset; refused exactly for an unknown compression, version or magic number |
| TableOpening.FooterRoundTrip | src/sstable.rs:830-876 | the footer is 64 bytes and reads back unchanged |
| TableOpening.IndexTilesData | src/sstable.rs:662-669 | the index entries tile the data without gap or overlap |
| TableOpening.WrittenTableOpens | src/sstable.rs:105-195 | every written table opens, to the metadata, index and filter it was written with |
| TableContents.ReadsBackExactly | src/sstable.rs:333-341 | all blocks of a written table read back if and only if no entry exceeds the Zstd cap |
| TableContents.TiledIsCoherent | src/sstable.rs:277-280 | in a tiled index offsets ascend strictly, so a cache keyed by offset cannot mix blocks up |
| TableContents.FilterKnowsKeys | src/sstable.rs:647-648 | the writer's filter admits every written key |
| TableContents.WrittenIsReadable | src/sstable.rs:768-876 | every written table is readable and holds exactly the entries written, in order |
| TableContents.ReadableIndexAscends | src/sstable.rs:662-669 | first keys in the index ascend strictly |
| TableContents.OneBlockIsEnough | src/sstable.rs:229-272 | searching the last block that starts at or before the key finds what searching the whole table finds |
| TableContents.BeforeFirstBlock | src/sstable.rs:250-272 | a key before the first block is not in the table |
| TableContents.SkippedBlocks | src/sstable.rs:402 | blocks before the starting one hold nothing of the range |
| TableContents.RemainingBlocks | src/sstable.rs:407-409 | from the first block that starts at or after the end on, nothing is in the range |
| TableDefects.LiteralMaxKeyExactly | src/sstable.rs:179-182 | the literal largest key bounds every stored key if and only if the last block holds one entry |
| TableDefects.LiteralMaxKeyMissesKey | src/sstable.rs:179-182 | any two small entries: they fill one block, and the second key lies outside the literal key range |
| TableDefects.LiteralRangeExactly | src/sstable.rs:402-416 | for every table, starting block and end key the literal loop returns the range if and only if its bound covers the blocks to visit and stays within the index; visiting none, if and only if none was to be visited, or one without an entry in the range |
| TableDefects.LiteralRangeMissesBlock | src/sstable.rs:404 | two blocks and a one-byte end key: the literal loop misses the second block |
| TableWriter.SSTableWriter.constructor | src/sstable.rs:589-622 | a writer with nothing written |
| TableWriter.SSTableWriter.Add | src/sstable.rs:631-677 | refused exactly when the key is not above the last one, changing nothing; otherwise the entry is appended and file, index, filter and key range agree with the entries so far |
| TableWriter.SSTableWriter.RecordKey | src/sstable.rs:640-648 | filter, key range and count follow the accepted entries |
| TableWriter.SSTableWriter.AppendToBlock | src/sstable.rs:650-674 | the closed blocks and the open one are the greedy packing of the entries |
| TableWriter.SSTableWriter.FlushCurrentBlock | src/sstable.rs:696-734 | the open block joins the file with its checksum, and its index entry gets its size |
| TableWriter.SSTableWriter.Finish | src/sstable.rs:768-810 | the complete file and metadata of the entries written; counts, sizes and offsets match the file |
| TableWriter.SSTableWriter.SerializeIndex | src/sstable.rs:812-827 | the encoded index |
| TableWriter.SSTableWriter.Footer | src/sstable.rs:830-876 | the encoded, padded footer |
| StableSort.SortByOk | src/sstable.rs:957-958 | sorting puts items in order and loses or repeats none |
| StableSort.AscendsExactlyWhenDifferent | src/storage.rs:418-421 | sorting gives a strictly ascending list if and only if no two items have the same key |
| TableWriter.SortedExactlyWhenDistinct | src/sstable.rs:957-958 | sorting entries by key loses none, and gives a strictly ascending list if and only if no key repeats |
| TableWriter.BuildFromVec | src/sstable.rs:953-974 | succeeds if and only if no key repeats, and then writes the table of the sorted entries |
| TableReader.SearchInBlock | src/sstable.rs:364-397 | the cursor loop computes the skipping search |
| TableReader.EntriesInRangeFromBlock | src/sstable.rs:421-461 | the cursor loop computes the skipping range scan |
| TableReader.DecodeBlock | src/sstable.rs:513-534 | the cursor loop decodes the block |
| TableReader.SSTableReader.LoadMetadata | src/sstable.rs:105-153 | the footer's fields by offset from the last 64 bytes; refused exactly for a short file or an unknown compression, version or magic number |
| TableReader.SSTableReader.LoadIndex | src/sstable.rs:155-177 | the index the bytes denote, or their error |
| TableReader.SSTableReader.LoadBloomFilter | src/sstable.rs:186-195 | no filter for size zero, otherwise the filter the bytes hold or their error |
| TableReader.SSTableReader.LoadKeyRange | src/sstable.rs:178-182 | first and last key of the table; succeeds exactly when the last block, if there is one, reads |
| TableReader.SSTableReader.OpenTable | src/sstable.rs:66-103 | fails exactly when footer, index or filter bytes are bad or the last block does not read; otherwise represents exactly what the bytes say, with the true key range |
| TableReader.SSTableReader.ReadBlock | src/sstable.rs:274-361 | a cached block as cached; otherwise out of bounds, too short and damaged blocks are refused with their error and cache nothing, others decompress and are cached, the cache being emptied beyond a hundred; with a tiled index the cache never changes an answer |
| TableReader.SSTableReader.FindBlockForKey | src/sstable.rs:250-272 | binary search finds the last block that starts at or before the key |
| TableReader.SSTableReader.MightContainKey | src/sstable.rs:472-478 | the filter's answer, or true without a filter |
| TableReader.SSTableReader.Get | src/sstable.rs:229-248 | the entry with the key, exactly when the table holds one; if the block for an admitted key is damaged, its checksum error |
| TableReader.SSTableReader.Range | src/sstable.rs:399-419 | exactly the table's entries of the range, in lexicographic order; it succeeds only if no block that may hold a key of the range is damaged |
| TableReader.SSTableIterator.constructor | src/sstable.rs:495-503 | the whole table still to come |
| TableReader.SSTableIterator.LoadCurrentBlock | src/sstable.rs:505-541 | loads the block under the cursor without changing what is still to come |
| TableReader.SSTableIterator.Next | src/sstable.rs:547-569 | terminates with the next entry of the table, or with nothing at the end and for ever after; at a damaged block with its checksum error |
| TableObjects.WriteAndOpen | src/storage.rs:652-673 | writing entries and opening the file gives a reader that holds exactly those entries, with their first and last key, creation time and data size |
| TableObjects.CollectEntries | src/storage.rs:581-594 | iterating over a table delivers all its entries, in order |
| TableObjects.WrittenFiltersAreSafe | src/storage.rs:140-141 | the engine's assumption on filters holds for the filters the writer builds |
| FileReads.GetFromTable | src/storage.rs:140-144 | filter check and point read of a table file return what a search of its entries finds |
| FileReads.FindReader | src/storage.rs:372-381 | the first reader whose key range covers the key is the table the level's search picks |
| FileReads.FindInLevelZero | src/storage.rs:137-145 | over the readers of level 0, newest first, the newest table that knows the key answers |
| FileReads.GetThroughFiles | src/storage.rs:106-160 | `get` over memtables and table files returns what the probe stack holds, in every sound state |
| FileReads.OpenLevel | src/storage.rs:652-673 | every table of a level written to a file and opened stands for its entries |
| FileReads.TableThroughFile | src/sstable.rs:229-570 | point read, range read and iteration over a table's file return the search, the slice and the list of its entries |
| FileReads.ReadThroughFiles | src/storage.rs:106-160 | for every run of the interleaved engine whose tables fit the format, reading through the written files returns what a plain map updated by the same writes holds |

## Left out

- Engine.StorageEngine.GetValue: the engine object holds tables as entry lists; reading through table files is stated for the states of the engine by `FileReads.GetThroughFiles`.
- Engine.StorageEngine.CreateSstable: makes the entry list; writing and opening the file is stated by `TableObjects.WriteAndOpen`.
- Engine.StorageEngine.MergeSstables: reads the tables' entry lists; the iterator over a file is covered by `TableObjects.CollectEntries`.
- Engine.StorageEngine.Open: soundness afterwards is promised for what a closed engine with as many levels left; what fewer levels read is stated by `Reopening.FewerLevelsExactly`, one level by `EngineDefects.OneLevelLosesTheDisk`.
- Engine.StorageEngine.CompactLevel: runs as one step; flushes between its parts are modelled in `EngineModel`. Files of replaced tables count as removed.
- Engine.StorageEngine.Close: an error of a flush during shutdown, which the source prints and ignores, is not modelled.
- Engine.StorageEngine.Scan: an open engine with a non-empty memtable requires `start <= end`, because the range query of a non-empty sorted map panics otherwise (as `MemTables.MemTable.RangeIter` requires). It scans entry lists; the range read of a table file is covered by `FileReads.TableThroughFile`.
- Bloom.BloomFilter.constructor: takes bit and hash counts as inputs; their floating-point computation is not modelled.
- Bloom.BloomFilter.Merge: two different filter objects are assumed not to share one bit array, as ownership guarantees in the source.
- TableReader.SSTableReader.OpenTable: opening reads the last block to learn the largest key, so it fails on an unreadable last block, where the source opens with a wrong largest key. A stored filter of zero bits is excluded; the source would divide by zero at the first lookup.
- FileReads.ReadThroughFiles: tables whose lengths, numbers or counts exceed the widths of the format are excluded, as are entries beyond the Zstd cap.
- Sequence counters, memtable sizes and level sizes are unbounded numbers; wrap-around at 64 bits appears only in the bloom filter's hashes, in the file format and in the literal size update.
- The file system, memory mapping, I/O errors, directory creation and file names that are not valid text.
- Crashes: files left by an aborted compaction or a half-written table. There is no write-ahead log to recover from (`src/wal.rs` and `src/compaction.rs` are placeholders).
- Locks, atomics and tokio tasks: races inside one memtable write, several concurrent rotations or compactions.
- Wall-clock time: creation times are distinct and increasing by construction; two tables created in the same tick are not modelled.
- The configuration fields the modelled code does not use, and the configuration builder.
- `Serializer::write_string`, `read_string` and the `Serialize` implementations: UTF-8 strings are not used by the store.
- `MemTable::scan_from`, `MemTable::iter` and the usage statistics: the engine does not call the first two, and the statistics are sums over the map that nothing depends on.
- `SSTableBuilder::build`: `build_from_vec` without the sort.
- `level_max_sstables`: has no caller and does not terminate for levels above 0.
- The command line, statistics and error formatting.
