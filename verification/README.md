# LightKV, modelled and proved in Dafny

LightKV is a small log-structured store: a skip-list memtable, a write-ahead log, block-indexed table
files, a heap-based merge of iterators and a compaction that merges outside the lock.  A Morton-code
spatial key layer and a sharded front end sit on top.  This project models all of it against one
specification, a finite map from keys to values, and proves what each part promises, or exactly when it
keeps the promise.

Check everything with `dafny verify dfyconfig.toml`.

## How the modules fit together

| modules | what they hold |
|---|---|
| `ByteStrings`, `Entries`, `Numerals` | byte strings and their order, sorted runs of entries, fixed-width numerals and file names |
| `Merging` | a reference merge and the heap-driven iterator proved against it |
| `SkipLists` | the linked multi-level list, its shape and the map it stands for |
| `EngineSpec` | the engine as a state machine over values: memtable, open tables, counter, logs, disk, compaction phase |
| `EngineView`, `EngineRecovery`, `EngineWrites`, `EngineRuns`, `EngineExamples` | what iterators and `get` answer over whole runs; crashes and reopenings; when a put flushes and how large the memtable grows; races, the discipline that keeps one log, going on after a crash, what a compaction leaves on disk; concrete runs that show why the guards are needed |
| `TableRows`, `KVEngines` | the engine object, method by method equal to the state machine |
| `TableFormat`, `SSTables`, `TornFiles` | table files: builder, reader, iterator; which byte strings open, finished or not |
| `Octets`, `Crc32`, `LogFormat`, `WalLoggers` | the checksum of section 8 of RFC 1952 and the log it protects |
| `Polynomials`, `Crc32Remainder` | polynomials over two elements, and the checksum register as a remainder modulo the CRC-32 generator |
| `Places`, `TableLayout`, `LogLayout` | both file formats stated place by place on the bytes, without the functions that write and read them |
| `Morton`, `MortonOrder`, `MortonRanges` | Morton codes, their order, the octree split and range merging |
| `Routing`, `Sharding`, `ShardedRuns` | spatial keys, the router and the range table, range queries, runs of the sharded store |

Three orders of recency meet in the engine: `get` goes by list position, iterators and compaction by
sequence number, a reopened engine by file number.  `EngineView` and `EngineRecovery` prove when the
three agree, and that they then answer as the map does.

## What turned out not to hold unconditionally

Each of these is proved with a concrete failing case or a condition that is exact.

- The compacted table is opened with sequence 0 but put in front.  A flush between snapshot and swap
  leaves iterators right and may leave `get` stale (`EngineView.SwapOrdered`, `RacedGet`, `StaleGet`).
- A compaction takes its file number after it has released the read lock.  A table flushed in between
  gets the lower number: iterators stay right until the engine is reopened, and then the overwritten
  value is back for good (`EngineRuns.RaceOnDisk`, `RaceReopened`, `EngineExamples.LostUpdate`).
- A compaction advances the file counter without rotating the log.  After a reopening the older log is
  replayed but no longer current, outlives later flushes and can undo them (`EngineRecovery.SecondLog`,
  `LeftoverLog`, `EngineExamples.LostPut`).  A crash inside a flush leaves a second log behind too
  (`EngineRuns.FlushCrashDurable`).
- Inputs are deleted newest first, so a crash between deletions can bring an erased key back
  (`EngineRecovery.RemovalCrash`, `EngineExamples.ErasedKeyReturns`).
- File names sort as numbers below one million only (`Numerals.FileNameOrder`, `NamesAtMillion`).
- Whether a table file opens is decided by its bytes alone: exactly if it ends in a footer that points at
  the bytes of an index (`TornFiles.OpensExactly`).  A file cut before its footer is therefore rejected
  unless its last eight bytes happen to be the magic number (`CutRejected`).  If a stored value contains a
  row, its index entry and a footer, the torn file opens and serves that row (`TornServes`).  Crash theorems
  that go through an unfinished table (`EngineRecovery.FlushCrash` with step 1) take it as rejected.
- Records appended behind a torn one are read into its gap, and unless they happen to restore what was
  lost they are lost with it (`LogFormat.RecoverBehindTorn`, `WalLoggers.BehindShortCut`).
- The router divides by step plus one, the range table cuts at multiples of step.  Codes just above a
  boundary go to the shard below it, and range queries then miss them (`Routing.AgreeExactly`,
  `BoundaryDisagrees`, `PrunedExactly`, `Sharding.QueryMisses`).
- `Encode` puts x into lane 2 and z into lane 0, `Decode` reads them the other way round
  (`Morton.DecodeExchanges`), so decoding does not invert encoding.
- Codes see coordinates modulo 2 to the power 21.  The octree ranges cover a box whose corners lie, axis by
  axis, in one block of that size; the range of one box between its corners' codes covers the box exactly if
  each axis lies in one block or runs from the start of a block to the end of one
  (`MortonRanges.RangeHoldsBox`, `BeyondGrid`).
- Merging ranges separates them unless a range reaches the greatest 64-bit code
  (`MortonRanges.MergeSeparates`).

## Model

| member | source | states |
|---|---|---|
| `EngineView.StepView` | src/kv_engine.cpp:59-131 | every put, erase, flush and compaction phase keeps the engine invariant and changes the iterator view of each key exactly as it changes the finite map |
| `EngineView.RunView` | src/kv_engine.cpp:234-378 | over every interleaving of puts, erases, flushes and compaction phases under one compactor, an iterator shows exactly the finite map in every reachable state |
| `EngineView.RunGet` | src/kv_engine.cpp:75-104 | over every run in which nothing is flushed between a snapshot and its swap, `get` answers exactly as the finite map |
| `EngineView.FlushView` | src/kv_engine.cpp:133-151 | a flush changes no answer and keeps the invariant |
| `EngineView.SwapView` | src/kv_engine.cpp:311-338 | the swap changes no answer of an iterator: tables flushed meanwhile keep deciding, elsewhere the compacted table answers as its inputs did, a dropped tombstone like no entry |
| `EngineView.CompactedFinds` | src/kv_engine.cpp:277-302 | the compacted table holds a key exactly if the newest version among the inputs is a value, and then that version |
| `EngineView.SwapOrdered` | src/kv_engine.cpp:316-337 | after a swap the list is newest first if and only if nothing was flushed since the snapshot |
| `EngineView.OrderedFirst` | src/kv_engine.cpp:90-101 | in a list ordered newest first, the first table holding a key is the one with the highest sequence number |
| `EngineView.RacedGet` | src/kv_engine.cpp:311-337 | after a swap that raced with flushes, `get` is right about a key if and only if the memtable holds it, the compacted table does not, no raced table does, or both answer alike |
| `EngineView.StaleGet` | src/kv_engine.cpp:311-337 | a concrete run from an empty directory after which `get` returns an overwritten value while an iterator shows the current one |
| `EngineView.FreshIsOpened` | src/kv_engine.cpp:13-36 | opening an empty directory gives the initial state, which stands for the empty map |
| `EngineRecovery.StepDurable` | src/kv_engine.cpp:59-131 | every safe step, reopening included, keeps disk and logs consistent with the open engine; if no flush between a snapshot and its numbering changes the answer of a key the compaction keeps, it acts on that key as on the map |
| `EngineRecovery.RunDurable` | src/kv_engine.cpp:13-36 | over every safe run with any number of reopenings, a key that no flush between a snapshot and its numbering harms is answered as by the finite map, and a crash at the end outside the removals of a compaction is survived |
| `EngineRecovery.ReopenView` | src/kv_engine.cpp:164-225 | reopening after a crash in any durable state that is not in the middle of removing inputs gives the answers from before the crash for every key about which file numbers and sequence numbers agree |
| `EngineRecovery.FlushCrash` | src/kv_engine.cpp:133-161 | a crash after any of the steps of a flush (table without footer, table complete, next log open) is followed by a reopening with the same answers |
| `EngineRecovery.FlushKeepsLog` | src/kv_engine.cpp:152-160 | with the current log the only one that holds records, a flush keeps the memtable equal to the replay of the logs and leaves one log |
| `EngineRecovery.RestartLog` | src/kv_engine.cpp:26-33 | reopening rebuilds exactly the memtable from the logs |
| `EngineRecovery.BelowLatest` | src/kv_engine.cpp:179-197 | tables opened by descending file name answer from the complete file with the highest number that holds the key |
| `EngineRecovery.StepOnDisk` | src/kv_engine.cpp:133-161 | after every step the complete table files are exactly the open tables plus what the running compaction has written or not yet removed |
| `EngineRecovery.StepFiled` | src/kv_engine.cpp:133-161 | whatever happens in whatever order, races included, the complete files are the open tables and those of the compaction at work, whose inputs have lower numbers than its output and than all flushed since the snapshot |
| `EngineRecovery.StepSettled` | src/kv_engine.cpp:137-149 | a step keeps sequence numbers and file numbers in agreement about a key unless it flushes another answer for it between a compaction's snapshot and its numbering |
| `EngineRecovery.ReopenLeader` | src/kv_engine.cpp:164-225 | a reopened engine answers from its logs and, behind them, from the newest open table or else the newest input not yet removed |
| `EngineRecovery.SecondLog` | src/kv_engine.cpp:32-33 | a reopening leaves a second log with records if and only if a compaction had advanced the counter past a log that is not empty |
| `EngineRecovery.LeftoverLog` | src/kv_engine.cpp:153-160 | with leftover logs, a flush and a reopening answer a key rightly if and only if no leftover log holds it or it holds the current answer |
| `EngineRecovery.RemovalCrash` | src/kv_engine.cpp:343-348 | between the removals of a compaction, a reopening answers a key rightly if and only if the memtable or an open table holds it, or the newest version still on disk is no value |
| `EngineRecovery.FreshIsDurable` | src/kv_engine.cpp:13-36 | an engine opened on an empty directory is durable, settled and has one log |
| `EngineWrites.PutEffect` | src/kv_engine.cpp:59-72 | a put flushes if and only if the memtable with the new binding reaches the threshold; stated on memtable, tables, counter, logs and files, not on the put itself |
| `EngineWrites.EraseEffect` | src/kv_engine.cpp:107-118 | an erase leaves a tombstone and one log record and never flushes |
| `EngineWrites.FlushEffect` | src/kv_engine.cpp:133-161 | a flush on demand flushes everything or, with nothing to flush, changes nothing |
| `EngineWrites.RunBounded` | src/kv_engine.cpp:69-72 | over every safe run, reopenings included, the memtable has fewer entries than the threshold plus the erases since the last put or flush |
| `EngineRuns.RaceOnDisk` | src/kv_engine.cpp:267-276 | with a compaction's output on disk beside its inputs, a reopening answers a key rightly if and only if the memtable holds it, the output does not, nothing flushed since the snapshot does, or the newest of that has a higher number than the output or answers alike |
| `EngineRuns.RaceReopened` | src/kv_engine.cpp:311-348 | the same once the compaction is over and its inputs are gone: the race is lost for good |
| `EngineRuns.StepDisciplined` | src/kv_engine.cpp:26-36 | if reopenings wait until the current log is the next one or empty, every step is safe and leaves one log with records |
| `EngineRuns.DisciplineIsSafe` | src/kv_engine.cpp:26-36 | every run under that discipline is safe, and ends with one log |
| `EngineRuns.RunDisciplined` | src/kv_engine.cpp:13-36 | over every such run the memtable is the replay of the one log with records, and reopenings preserve the map on every key no flush harms |
| `EngineRuns.ReopenGet` | src/kv_engine.cpp:75-104 | after a reopening `get` answers what an iterator showed before |
| `EngineRuns.RunGetDurable` | src/kv_engine.cpp:75-104 | over every safe run with reopenings in which nothing is flushed between a snapshot and its swap, `get` answers exactly as the finite map |
| `EngineRuns.FlushCrashDurable` | src/kv_engine.cpp:133-161 | after a crash at any step of a flush the run goes on from a durable state, and the old log is a second log if and only if it holds records and either the table file was begun or a compaction had advanced the counter |
| `EngineRuns.CompactedReopens` | src/kv_engine.cpp:234-354 | whatever a compaction that ran through leaves on disk by its description, from a durable state it is durable, and reopening it answers every key on which file numbers and sequence numbers agree as before the compaction |
| `EngineExamples.LostUpdate` | src/kv_engine.cpp:267-276 | a concrete run from an empty directory: a value flushed between snapshot and numbering is shown until the engine is reopened, which brings the overwritten value back |
| `EngineExamples.LostPut` | src/kv_engine.cpp:274-275 | a concrete run from an empty directory in which the log a compaction leaves behind undoes a flushed put |
| `EngineExamples.ErasedKeyReturns` | src/kv_engine.cpp:343-348 | a concrete run in which a crash after the first removal of a compaction brings an erased key back |
| `KVEngines.KVEngine.constructor` | src/kv_engine.cpp:13-36 | opening any directory lists tables and replays logs by name and starts the next log; with numbers below a million that is the specified reopened state |
| `KVEngines.KVEngine.LoadExistingSSTables` | src/kv_engine.cpp:164-198 | the tables end up in descending order of their names, which below a million is newest first, and the counter is the highest number in use |
| `KVEngines.KVEngine.RecoverAllWals` | src/kv_engine.cpp:201-225 | the memtable becomes the replay of all logs in ascending order of their names, which below a million is that of their numbers |
| `KVEngines.KVEngine.Put` | src/kv_engine.cpp:59-72 | while the memtable with the new binding stays below the threshold only that binding and one log record are new; otherwise the memtable with the binding has become the front table, complete on disk under the next number, with an empty memtable and the next log |
| `KVEngines.KVEngine.Erase` | src/kv_engine.cpp:107-118 | only a tombstone in the memtable and a log record are new, whatever the size of the memtable |
| `KVEngines.KVEngine.FlushMemTable` | src/kv_engine.cpp:133-161 | a non-empty memtable becomes the front table, complete on disk under the next number, and the next log replaces the current one; an empty memtable changes nothing |
| `KVEngines.KVEngine.RotateLog` | src/kv_engine.cpp:153-160 | the next log is open, the old one gone |
| `KVEngines.KVEngine.BeginFile` | src/kv_engine.cpp:136-140 | the file exists without its footer: step 1 of the specified flush |
| `KVEngines.KVEngine.CompleteFile` | src/kv_engine.cpp:141-144 | the file is complete: step 2 |
| `KVEngines.KVEngine.OpenNextLog` | src/kv_engine.cpp:154-156 | the next log exists: step 3 |
| `KVEngines.KVEngine.RemoveOldLog` | src/kv_engine.cpp:160 | the old log is gone: step 4 |
| `KVEngines.KVEngine.Get` | src/kv_engine.cpp:75-104 | memtable first, then the first table in list order that knows the key; a tombstone stops the search |
| `KVEngines.KVEngine.NewIterator` | src/kv_engine.cpp:357-378 | the merge of memtable and tables passes every stored key once, in order, and shows the specified view |
| `KVEngines.KVEngine.CompactSnapshot` | src/kv_engine.cpp:250-268 | remembers the open tables if there are at least two |
| `KVEngines.KVEngine.CompactNumber` | src/kv_engine.cpp:274-276 | takes the next file number and starts its file |
| `KVEngines.KVEngine.CompactMerge` | src/kv_engine.cpp:277-314 | writes the compacted table, or gives up if nothing survives |
| `KVEngines.KVEngine.CompactSwap` | src/kv_engine.cpp:316-338 | the new table comes to the front with sequence 0, the inputs leave, later tables stay |
| `KVEngines.KVEngine.CompactRemove` | src/kv_engine.cpp:343-348 | deletes the next input file |
| `KVEngines.KVEngine.Compact` | src/kv_engine.cpp:234-354 | uninterrupted, a compaction of at least two tables (of fewer it does nothing) changes no answer and leaves exactly: one table, and on disk the old files without the inputs and with the compacted table under the next number, or, if nothing survives, the old tables and an unfinished file; logs and memtable as they were; from a durable engine it leaves a durable one, and reopening its directory gives the answers from before |
| `KVEngines.MergeInputs` | src/kv_engine.cpp:271-302 | the merge loop over the inputs writes exactly the compacted table, sorted |
| `KVEngines.Remaining` | src/kv_engine.cpp:324-331 | exactly the tables whose paths are not among the inputs stay, in order |
| `KVEngines.SortedByName` | src/kv_engine.cpp:179-180 | the listing sorted by file name, which for numbers below a million is sorted by number |
| `KVEngines.IteratorShows` | src/kv_engine.cpp:361-376 | with the memtable above every sequence number, the merged stream shows the specified view |
| `TableRows.SurvivorsCompacted` | src/kv_engine.cpp:282-300 | on a merge of the inputs the compaction loop keeps exactly the compacted table |
| `Numerals.FileNameOrder` | src/kv_engine.cpp:45-56 | two file names sort as their numbers if and only if the smaller number is at most the leading digits of the larger |
| `Numerals.NamesBelowMillion` | src/kv_engine.cpp:52-56 | below one million names sort as numbers |
| `Numerals.NamesAtMillion` | src/kv_engine.cpp:52-56 | file 1000000 sorts before file 999999 |
| `Numerals.NameDigits` | src/kv_engine.cpp:45-56 | a name below a million is six decimal digits of the number, the highest first, a dot and the extension |
| `Merging.MergeTwoCorrect` | include/iterator.h:92-97 | merging two sorted runs is sorted and finds the newer version of every key |
| `Merging.MergedCorrect` | src/iterator.cpp:190-290 | the merge of any runs is strictly sorted and shows the version with the highest sequence number of every key |
| `Merging.MergedUnique` | src/iterator.cpp:190-290 | any sorted stream showing the newest versions is that merge |
| `Merging.MergedFrom` | src/iterator.cpp:233-245 | seeking every child and merging is seeking in the merge |
| `Merging.TopIsHead` | src/iterator.cpp:247-290 | the heap top is the head of the merge, and stripping its key from all children leaves the tail |
| `Merging.MergingIterator.constructor` | src/iterator.cpp:190-198 | a new iterator shows the whole merge of its children |
| `Merging.MergingIterator.FindMin` | src/iterator.cpp:247-290 | shows the next entry of the merge while the children move past its key |
| `Merging.MergingIterator.SkipKey` | src/iterator.cpp:275-285 | moves exactly the children that stand on the key |
| `Merging.MergingIterator.PopAndAdvance` | src/iterator.cpp:219-226 | pops the top, advances its child and pushes its next entry |
| `Merging.MergingIterator.Next` | src/iterator.cpp:208-231 | drops the first entry of the stream |
| `Merging.MergingIterator.Seek` | src/iterator.cpp:233-245 | from any state, the stream becomes the part of the merge from the target on |
| `SkipLists.LevelIsSortedSubchain` | include/skip_list.h:119-123 | every link leads to the nearest later node tall enough for its level, past only shorter towers and to a greater key |
| `SkipLists.SkipList.constructor` | include/skip_list.h:44-48 | an empty list stands for the empty map |
| `SkipLists.SkipList.Size` | include/skip_list.h:56-58 | the node count is the size of the map |
| `SkipLists.SkipList.Get` | include/skip_list.h:130-143 | finds exactly the binding of the map |
| `SkipLists.SkipList.Locate` | include/skip_list.h:92-102 | the update vector holds the last node below the key on every level |
| `SkipLists.SkipList.Put` | include/skip_list.h:91-127 | for every choice of level the list keeps its shape and the map gets the binding |
| `SkipLists.SkipList.Insert` | include/skip_list.h:110-127 | a new tower is spliced into every level it reaches |
| `SkipLists.SkipList.Erase` | include/skip_list.h:146-176 | removes the binding and says whether there was one |
| `SkipLists.SkipList.LinkOut` | include/skip_list.h:159-164 | a tower is bypassed on every level it reaches |
| `SkipLists.SkipList.TopLevel` | include/skip_list.h:167-169 | the current level drops to the highest level in use |
| `SkipLists.SkipList.Clear` | include/skip_list.h:61-74 | the empty map again |
| `SkipLists.SkipList.DumpAll` | include/skip_list.h:77-88 | all bindings in key order, each once |
| `SkipLists.SkipList.ListFrom` | src/iterator.cpp:143-159 | a snapshot iterator copies exactly the bindings from its lower bound on, in order |
| `SkipLists.SkipList.FindGreaterOrEqual` | include/skip_list.h:179-192 | the least key not below the target, or none if all are below |
| `SkipLists.SpliceLinked` | include/skip_list.h:119-123 | redirecting the recorded predecessors splices a tower in without disturbing any other link |
| `SkipLists.DropLinked` | include/skip_list.h:159-164 | bypassing a tower leaves every other link right |
| `TableFormat.ParseEncodedRow` | src/iterator.cpp:70-98 | a written row parses back, whatever follows it |
| `TableFormat.SplitFlat` | src/sstable_builder.cpp:48-52 | cutting into blocks loses, repeats and reorders nothing |
| `TableFormat.ParseEncodedIndex` | src/sstable_reader.cpp:76-96 | the written index parses back |
| `TableFormat.OpenFinished` | src/sstable_reader.cpp:47-97 | a finished file passes the footer check and loads the index it was written with |
| `TableFormat.BlockHeld` | src/sstable_reader.cpp:177-191 | reading a block gives back its bytes |
| `TableLayout.FileRowAt` | src/sstable_builder.cpp:28-45 | in a finished file each row stands right behind the rows before it: byte 1 for a value and 0 for a tombstone, key length and value length in four bytes each with place values 1, 256, 65536 and 16777216, key, value |
| `TableLayout.BlocksCut` | src/sstable_builder.cpp:48-52 | the blocks hold the rows in order, every block but the last reaches the block size, and no block would reach it without its last row |
| `TableLayout.FileEntryAt` | src/sstable_builder.cpp:97-110 | behind the rows stands for every block in turn the length of its last key, the key, where its bytes begin and how many they are |
| `TableLayout.FileFooter` | src/sstable_builder.cpp:112-118 | the last 24 bytes of a finished file: how long the rows are, how long the index is, and the eight bytes of the magic number |
| `TableLayout.RowRead` | src/sstable_reader.cpp:129-155 | what is read off any bytes as a row: it is there if and only if the two lengths leave it room, and a tombstone if and only if the first byte is 0 |
| `TableLayout.EntryRead` | src/sstable_reader.cpp:76-94 | what is read off any bytes as an index entry |
| `TableLayout.FooterRead` | src/sstable_reader.cpp:47-65 | which bytes are taken as a footer, and what for |
| `SSTables.SSTableBuilder.Add` | src/sstable_builder.cpp:28-52 | appends the row; a block ends with the row that makes it reach the block size; nothing after finishing |
| `SSTables.SSTableBuilder.FlushBlock` | src/sstable_builder.cpp:60-77 | appends the buffer to the file and its key, offset and size to the index |
| `SSTables.SSTableBuilder.Finish` | src/sstable_builder.cpp:80-124 | the file is the specified layout of the rows added; without rows there is no footer |
| `SSTables.SSTableBuilder.WriteIndex` | src/sstable_builder.cpp:97-110 | writes the index and counts its bytes |
| `SSTables.SSTableReader.Open` | src/sstable_reader.cpp:12-44 | yields a reader exactly if footer, magic number and index can be read |
| `SSTables.SSTableReader.LoadIndexBlock` | src/sstable_reader.cpp:68-97 | the loop loads what the index block encodes |
| `SSTables.SSTableReader.Get` | src/sstable_reader.cpp:100-126 | index search and block scan as specified |
| `SSTables.SSTableReader.SearchInDataBlock` | src/sstable_reader.cpp:129-169 | the scan with early exit as specified |
| `SSTables.BlockFor` | include/sstable_reader.h:37-49 | the first block whose greatest key is not below the target |
| `SSTables.SearchIsLookup` | src/sstable_reader.cpp:129-169 | on a sorted block the pruned scan is linear lookup |
| `SSTables.GetIsLookup` | src/sstable_reader.cpp:100-169 | on every table, index search plus block scan is linear lookup over all rows, tombstones included |
| `SSTables.SSTableIterator.constructor` | src/iterator.cpp:15-24 | a new iterator is about to show every row of the file |
| `SSTables.SSTableIterator.ParseCurrentBlock` | src/iterator.cpp:27-41 | loads blocks until one yields a row, on any bytes |
| `SSTables.SSTableIterator.ParseNextEntry` | src/iterator.cpp:58-99 | moves over exhausted blocks and reads the next row, or becomes invalid on malformed bytes or at the end |
| `SSTables.SSTableIterator.Next` | src/iterator.cpp:49-56 | drops the first entry of the stream, on any bytes |
| `SSTables.SSTableIterator.Seek` | src/iterator.cpp:101-134 | the stream becomes the rows from the chosen block on with the leading rows below the target dropped |
| `SSTables.RowsInIs` | src/iterator.cpp:27-99 | on a table the iterator walks through exactly its rows, across block boundaries |
| `SSTables.RowsFromTargetIs` | src/iterator.cpp:101-134 | on a sorted table a seek leaves exactly the rows not below the target |
| `SSTables.FileRoundTrip` | src/sstable_builder.cpp:28-124 | for every list of rows that fits the length fields and every block size, the written file opens and iterating gives back the list |
| `SSTables.FileLookups` | src/sstable_reader.cpp:100-169 | if the list is sorted, lookups and seeks in the file are those of the list |
| `SSTables.WriteAndOpen` | src/kv_engine.cpp:139-147 | writing a non-empty memtable and opening the file gives a reader that serves exactly its rows |
| `SSTables.TornFileOpens` | src/sstable_reader.cpp:58-64 | an unfinished file whose last value ends in an empty footer opens as an empty table |
| `TornFiles.OpensExactly` | src/sstable_reader.cpp:47-97 | any bytes open with an index if and only if they end in a footer that points at the encoding of that index |
| `TornFiles.CutRejected` | src/sstable_reader.cpp:47-65 | a table cut off at any byte is rejected unless its last eight bytes are the magic number |
| `TornFiles.TornServes` | src/sstable_reader.cpp:47-126 | an unfinished file whose last value is a row, its index entry and a footer opens and serves that row |
| `Crc32.RegisterConcat` | src/wal_logger.cpp:62-72 | checksumming piece by piece is checksumming the concatenation |
| `Crc32.TableStep` | src/wal_logger.cpp:24-26 | one table entry and a shift are eight bit steps |
| `Crc32.MaskedBit` | src/wal_logger.cpp:14 | the branch-free bit step is the conditional one |
| `Crc32.Crc32Table.Init` | src/wal_logger.cpp:9-19 | fills the table once with the remainders of all bytes |
| `Crc32.Crc32Table.Compute` | src/wal_logger.cpp:21-28 | the table-driven checksum is the bit-at-a-time one on every byte string |
| `Crc32.RegisterInjective` | src/wal_logger.cpp:21-28 | no byte string maps two registers to one |
| `Crc32.WindowDiffers` | src/wal_logger.cpp:21-28 | distinct strings of at most four bytes never lead one register to the same value |
| `Crc32.BurstDetected` | src/wal_logger.cpp:21-28 | a change confined to four consecutive bytes changes the checksum of any string |
| `Crc32Remainder.RegisterRemainder` | src/wal_logger.cpp:9-28 | after any message the register is the remainder of register and message, times x^32, modulo x^32+x^26+x^23+x^22+x^16+x^12+x^11+x^10+x^8+x^7+x^5+x^4+x^2+x+1 |
| `Polynomials.RemainderUnique` | src/wal_logger.cpp:9-28 | a polynomial has one remainder modulo that generator |
| `Crc32Remainder.TermsInjective` | src/wal_logger.cpp:9-28 | the terms of the remainder determine the register |
| `WalLoggers.CheckValue` | src/wal_logger.cpp:62-72 | from the start value and inverted at the end, the nine bytes 123456789 give 0xCBF43926, the check value of CRC-32 |
| `WalLoggers.WalLogger.CalculateChecksum` | src/wal_logger.cpp:62-72 | the checksum of zeroed header, key and value |
| `WalLoggers.WalLogger.Append` | src/wal_logger.cpp:75-95 | appends one encoded record if the log is open |
| `WalLoggers.WalLogger.Recover` | src/wal_logger.cpp:98-138 | the recovery loop as specified, zero-filled short reads included |
| `LogFormat.RecoverAppended` | src/wal_logger.cpp:107-133 | appended records followed by anything are recovered, then the rest |
| `LogLayout.LoggedAt` | src/wal_logger.cpp:75-95 | every record of the engine's log stands right behind the ones before it: checksum, key length, value length, operation (1 for a put, 2 for an erase), key and value, and its first four bytes are the checksum of the rest behind four zeros |
| `LogFormat.RecoverTorn` | src/wal_logger.cpp:118-130 | a torn record is recovered if and only if its header survived and its zero-filled form passes the stored checksum |
| `LogFormat.RecoverCut` | src/wal_logger.cpp:98-138 | of a log cut at any byte, exactly the records wholly before the cut, and the zero-filled torn record if it passes |
| `WalLoggers.ShortCut` | src/wal_logger.cpp:121-129 | a log cut within the last four bytes of a record yields that record if and only if the lost bytes were zeros |
| `LogFormat.RecoverBehindTorn` | src/wal_logger.cpp:98-138 | bytes appended behind a torn record whose header survived fill its gap; it is recovered if and only if it then passes the stored checksum, and only then is anything behind it |
| `WalLoggers.BehindShortCut` | src/wal_logger.cpp:48-52 | records appended behind one that lost at most four bytes are recovered if and only if they begin with the bytes lost, and then without those |
| `WalLoggers.BurstChangesChecksum` | src/wal_logger.cpp:62-72 | records of equal lengths that differ within four consecutive bytes of operation, key and value have different checksums |
| `WalLoggers.BurstRejected` | src/wal_logger.cpp:125-129 | recovery stops exactly before a stored record damaged that way, whatever follows |
| `WalLoggers.LogReplayed` | src/kv_engine.cpp:212-222 | what the engine logged is what it replays |
| `ByteStrings.CompareIsRankOrder` | include/slice.h:90-99 | comparison by common prefix and length is a total order, equal only on equal strings |
| `Morton.SplitBits` | include/spatial_key.h:58-66 | bit i of the low 21 goes to bit 3i and nothing else is set |
| `Morton.EncodeInjective` | include/spatial_key.h:74 | different 21-bit triples have different codes |
| `Morton.Decode` | include/spatial_key.h:78-84 | the gathering loop closes up each lane |
| `Morton.DecodeExchanges` | include/spatial_key.h:74-84 | decoding an encoded triple gives it back with first and last coordinate exchanged |
| `Morton.EncodeDecoded` | include/spatial_key.h:74-84 | every 63-bit code is the code of its decoded triple taken in the encoder’s order |
| `MortonOrder.CodeInterleaves` | include/spatial_key.h:58-74 | the code as a number interleaves the binary digits of the coordinates |
| `MortonOrder.CodeMonotone` | include/spatial_key.h:58-74 | on 21-bit coordinates the code grows strictly with every coordinate |
| `MortonOrder.CodeBound` | include/spatial_key.h:58-74 | codes use 63 bits |
| `MortonRanges.OneOctant` | include/spatial_key.h:147-160 | cutting a box at a point puts each of its voxels into exactly one octant |
| `MortonRanges.PushChildren` | include/spatial_key.h:147-160 | the children partition the box and together weigh less than it |
| `MortonRanges.SplitBox` | include/spatial_key.h:124-161 | the split terminates, stack and leaves partition the box at every turn, every leaf gives its range, and a box that is a leaf is taken whole |
| `MortonRanges.MergeCovers` | include/spatial_key.h:176-188 | merging covers exactly the codes of its input, even where the successor wraps |
| `MortonRanges.MergeSeparates` | include/spatial_key.h:179-187 | the result has gaps between neighbours if and only if no range up to the greatest code precedes one that starts above 0 |
| `MortonRanges.SortByStart` | include/spatial_key.h:172-174 | a permutation sorted by start |
| `MortonRanges.MergeRanges` | include/spatial_key.h:169-189 | merging covers the codes of its input and no others, whatever their order; with well-formed ranges below the greatest code its output is sorted with gaps |
| `MortonRanges.GenerateRanges` | include/spatial_key.h:99-165 | for two corners in any order: if on every axis both lie in one block of 2^21, every voxel between them has its code in some range, and the ranges are separated; if the differences of the coordinates multiply to less than 64 in 64-bit arithmetic, all codes are covered if and only if the axes fit the blocks; and every code covered lies between the corner codes of a box within the two corners whose differences multiply to less than 64 |
| `MortonRanges.RangeHoldsBox` | include/spatial_key.h:140-144 | the range between the corner codes holds the code of every voxel of a box if and only if on each axis the corners share a block of 2^21, or the first starts its block and the last ends its |
| `MortonRanges.BeyondGrid` | include/spatial_key.h:140-144 | of two boxes beyond 21 bits, the one across a block boundary loses a code and the one behind it does not |
| `Routing.KeyRoundTrip` | include/spatial_key.h:22-46 | a serialised key reads back |
| `Routing.KeyOrder` | include/spatial_key.h:22-33 | bytewise key order is the order of the fields as numbers |
| `Routing.RouteInRange` | include/sharded_kv_engine.h:170-174 | the division stays below the number of shards, so the clamp never fires |
| `Routing.RouteAgrees` | include/sharded_kv_engine.h:123-129 | the router never overshoots the table, and hits its range if and only if the code is at least that many multiples of step plus one |
| `Routing.RouteClose` | include/sharded_kv_engine.h:170-174 | with at most 2^32 shards router and table are at most one apart |
| `Routing.OneRange` | include/sharded_kv_engine.h:123-141 | the table is a partition: every key lies in exactly one range |
| `Routing.AgreeExactly` | include/sharded_kv_engine.h:159-187 | router and table agree on every short key, and on a full key exactly under a condition on its code and prefix |
| `Routing.BoundaryDisagrees` | include/sharded_kv_engine.h:128-137 | for every number of shards they differ on the first boundary itself |
| `Routing.NotPruned` | include/sharded_kv_engine.h:85-93 | pruning keeps the shard of every wanted key on which they agree |
| `Routing.PointQuery` | include/sharded_kv_engine.h:85-93 | a query for one key looks into its shard if and only if they agree |
| `Routing.PrunedExactly` | include/sharded_kv_engine.h:85-93 | for any query and any key between its bounds, the key’s shard is pruned if and only if the key lies behind that shard’s range and the query starts at or behind its end, or the key lies before the range and the query ends before it |
| `Routing.KeyBytes` | include/spatial_key.h:22-33 | a serialised key is layer, level, code and timestamp, the numbers in eight bytes each, the highest first |
| `Routing.FullKeyRouted` | include/sharded_kv_engine.h:159-176 | a full key goes to its code divided by step plus one, and on layer 1, level 0 lies in the range of its code divided by step |
| `ShardedRuns.KeepsStep` | src/kv_engine.cpp:59-131 | no step of an engine, reopening included, brings anything of a key it does not write, in memory, tables or logs |
| `ShardedRuns.WorkHoused` | include/sharded_kv_engine.h:51-70 | shards go on holding only keys that route to them, whatever each shard does, reopenings included |
| `ShardedRuns.RunSharded` | include/sharded_kv_engine.h:51-70 | over every run of the store, shards reopened at will, the shard a key routes to answers as one finite map of the whole store, and no other shard has the key |
| `Sharding.ShardedKVEngine.InitUniformRanges` | include/sharded_kv_engine.h:123-141 | the loop builds the specified table |
| `Sharding.ShardedKVEngine.GetShard` | include/sharded_kv_engine.h:159-187 | division for full keys, the range scan for shorter ones |
| `Sharding.ShardedKVEngine.RangeQuery` | include/sharded_kv_engine.h:81-119 | exactly the live entries between the keys whose shard was not pruned, sorted, each once |
| `Sharding.QueryComplete` | include/sharded_kv_engine.h:81-119 | where router and table agree a range query shows the whole map between its keys |
| `Sharding.QueryForOneKey` | include/sharded_kv_engine.h:81-119 | a range query for one key finds it if and only if they agree |
| `Sharding.QueryMisses` | include/sharded_kv_engine.h:81-119 | what any range query shows of any key between its bounds: its shard’s answer, or nothing exactly where the shard was pruned |

## Left out

- I/O failures, short reads, `fsync`, directory creation: the disk is a map from file numbers to
  contents, and the steps of a flush or compaction that the crash theorems distinguish are atomic.
- Mutexes and data races: each lock phase of `Compact` is one atomic step, and one compactor per engine
  is assumed; the background scheduler is any source of `Compact` calls.
- `CompactNumber` and a flush incrementing the counter at the same time: the original increments it
  without the lock, the model one after the other.
- Growth of the file counter beyond 64 bits, and of sequence numbers to `SIZE_MAX`.
- The distribution of random levels: any level from 1 to the maximum is allowed.
- The inside of `std::priority_queue`, `std::sort` and `std::lower_bound`: the heap is a multiset from
  which a least item is taken, sorting gives a sorted permutation, searching the first position.
- Aliasing of child iterators: the children of `Merging.MergingIterator` are values that move through
  sorted entries; `KVEngines` and `Sharding` hand it the entries of their tables and shards, so nested
  iterators are walked before they are merged, not in step with it.
- `KVEngines.KVEngine` keeps table files as rows and logs as records; `SSTables.FileRoundTrip`,
  `SSTables.FileLookups` and `WalLoggers.LogReplayed` say what their bytes give back.
- Type bytes other than 0 and 1 in a table file: read as values; the original's point lookup returns an empty
  value for them.  Index or data blocks that overrun
  their buffers: the original reads outside them, the model rejects them or finds nothing.
- Deallocation: nodes taken out of the skip list are unlinked, not freed.
- Null readers in iterators and in the table list: the engine never makes one.
- Floating-point coordinates: grid coordinates are what rounding leaves.
- EngineRecovery.FlushCrash: takes a table file without its footer as rejected, which `TornFiles` shows to
  depend on its bytes, and does not model a log torn in the middle of a record; `LogFormat.RecoverCut`
  covers the first recovery of such a log, `LogFormat.RecoverBehindTorn` what is appended behind it.
- MortonRanges.GenerateRanges: for a box that is split and crosses a block boundary nothing is promised,
  because coordinates that differ by a multiple of 2^21 share codes and whether other leaves make up for a
  lost code depends on the whole box.
- SSTables.SSTableReader.LoadIndexBlock: an index that overruns its buffer is rejected; the original reads
  outside the buffer.
- SSTables.SSTableReader.SearchInDataBlock: a row that overruns its block ends the scan; the original reads
  outside the block.
- LogFormat.RecoverBehindTorn: a record torn inside its 13-byte header is not treated; the next bytes then
  complete the header, and what they say decides.
- Routing.RouteAgrees: needs at least two shards; with one the original divides by zero.
- Sharding.ShardedKVEngine.RangeQuery: one consistent state per shard is read; the original takes the
  shards' read locks one after another.
- Voxel block values, display and debugging output, statistics, benchmarks and tests.
