# ForgeLSM in Dafny

A model of the ForgeLSM (AccretionDB) key-value engine and proofs about it. ForgeLSM keeps values in
append-only value logs and keeps keys with pointers into those logs in a log-structured merge tree: a
skip-list memtable, a ring of four frozen memtables, and six levels of prefix-compressed table files.

`dafny verify dfyconfig.toml` checks the whole project.

One abstract specification runs through it: the store is a map from key to pointer, and a tombstone counts
as absent (`Keys.Live`). The main results, by module:

- `Lsm`, `Merge`, `Compaction`, `Outputs`, `Versions`, `VersionSets`: what a version answers, flushes, the k-way merge,
  compaction commits against a version that has moved on, and the compaction worker. Compaction changes no
  key's visible pointer; the level invariants survive every commit; the worker terminates.
- `Reads`: every interleaving of commits, freezes, flush installs, slot releases and compactions; a lock-free
  read is linearizable.
- `SkipList`: single-store steps of one writer among any number of readers; reads are linearizable and a put
  refines a map update.
- `Octets`, `Codec`, `Crc`, `Block`, `Table`, `TableWriter`, `TableReader`, `TableIterator`: the table format byte by byte;
  writing, opening, searching and walking a table refine a sorted list of entries.
- `Bloom`, `Cache`, `Lookup`, `TableStore`: filter and block cache never change an answer, over a whole life of
  writing, removing, searching and walking tables.
- `GroupCommit`: the compare-and-swap queue that elects a leader.
- `Wal`, `Vlog`, `Crash`: the logs, damaged logs, and recovery after a crash at any step of a commit.
- `Batches`, `Gc`, `GcCrash`: the commit of a batch, value-log collection among batches and freezes, and what a
  crash after a collection leaves.
- `EditCodec`, `Manifest`, `Purge`, `Scan`: version edits, manifest recovery, file purging and range scans.

Where the code does less than its comments say, the model follows the code, a lemma names a case that goes
wrong, and another states exactly when the property holds:

- Manifest recovery skips deletions above level 1: `Manifest.RunRecoversExactly`, `Manifest.DeletionLost`.
- Log replay stops at a key over 64 MiB: `Wal.ReplayComplete`, `Wal.OversizeKeyLost`.
- A put whose value length equals the tombstone mark replays as a delete: `Wal.PutReadsBack`,
  `Crash.RecoveredPut`, `Wal.MarkedPutLost`.
- A value of 4 GiB or more is cut: `Vlog.SyncedReadsBack`, `Vlog.HugeValueLost`.
- A scan visits frozen memtables in slot order, not newest first: `Scan.AgreementExact`, `Scan.ScanStale`.
- The collector's overwrite check looks at the file number in the active memtable as the batch found it. It
  misses a write that has been frozen since, a write earlier in the same batch, and a delete, which stores a log
  number there: `Gc.GcExact`, `Gc.FreezeLosesWrite`, `Gc.BatchLosesWrite`, `Gc.RewriteUndoesDelete`,
  `Gc.LossesHappen`.
- A rewrite is not logged, and the file it came from is dropped: `GcCrash.CollectionSurvives`,
  `GcCrash.CollectionLoses`.

## Hypotheses

- Steps are sequentially consistent. The locked part of a commit is one step with respect to a memtable
  freeze.
- `Crash` runs from an open on an untorn log to the first log rotation, without collection. `GcCrash` has the
  collector and freezes; there every log record is on disk and every frozen memtable is in a table at the crash.
- I/O calls succeed; a crash is an explicit event that keeps a prefix of any write under way.
- Compaction scores are compared as exact fractions instead of doubles. Level limits wrap at 64 bits, as in
  the code.
- `std::sort`, `std::priority_queue`, `std::lower_bound` and `std::map` are modelled by an insertion sort, a
  selection of the best run, a binary search and a sorted list.
- Value bytes count as readable once appended in `Batches`, `Gc` and `GcCrash`, which have no buffers; `Crash`
  keeps buffers apart. The size at which a value log is full is any number that keeps offsets clear of the
  tombstone's.

## Model

| member | source | states |
|---|---|---|
| Lsm.SearchVersion | src/kvstore.cpp:515-536 | the level-by-level loop returns the first hit of the six levels in order, tombstones as absent |
| Lsm.FoundInRange | src/kvstore.cpp:520-521 | skipping files by their key range loses no key of a good table |
| Keys.BelowByBytes | src/sstable.cpp:339 | keys are ordered by their first byte, unsigned, then by the rest; the empty key comes first |
| Lsm.SortOrdered | src/version_set.cpp:181-188 | sorting pairwise comparable files leaves the level in strict order |
| Lsm.FlushInstalls | src/version_set.cpp:157-191 | a flush edit puts its file first on level 0, touches nothing else, and keeps every level invariant |
| Lsm.FlushMeaning | src/kvstore.cpp:622-630 | after a flush the tree answers with the flushed entries first, then as before, for every key |
| Merge.Top | src/compaction.cpp:86-94 | the run on top has the least key, and among equal keys the newest source |
| Merge.TopWins | src/compaction.cpp:86-94 | the top pointer is what lookup over the input runs in rank order gives for that key |
| Merge.MergeTurn | src/compaction.cpp:150-173 | one turn keeps: every key up to the last one seen is resolved as lookup over the runs resolves it |
| Merge.MergeDone | src/compaction.cpp:150-174 | when the queue is empty the output stream answers for every key as the inputs did, less tombstones dropped at the bottom |
| Compaction.OutputsApart | src/compaction.cpp:60-77 | outputs may span gaps between merged files, yet never touch a file of the target level left out of the merge |
| Compaction.PlanInputs | src/compaction.cpp:53-77 | a plan merges all of level 0 or the first file of a deeper level, with exactly the files of the next level neither wholly below nor wholly above its key range |
| Compaction.PlanOutputs | src/compaction.cpp:165-169 | into level 5 the outputs hold no tombstone and every other newest pointer of the inputs; into any other level the newest pointers as they are |
| Compaction.CompactionInstalls | src/version_set.cpp:157-191 | committing a compaction keeps level 0 newest first and levels 1-5 disjoint and ascending, however many flushes came since its snapshot |
| Compaction.CompactionPreserves | src/compaction.cpp:50-183 | for every key the visible pointer just before and just after a compaction commit is the same, tombstones dropped only on the last level |
| Outputs.InputRunsOk | src/compaction.cpp:100-120 | source and target inputs are in rank order: a newer entry for a key always ranks above an older one |
| Outputs.ChunksOk | src/compaction.cpp:130-145 | chunks cut from a sorted stream are good tables with ascending, disjoint ranges |
| Outputs.ChunksGet | src/compaction.cpp:130-174 | the chunks together answer for exactly the stream they were cut from |
| Outputs.ChunkEstimate | src/compaction.cpp:169-171 | the size estimate is twenty bytes for each entry and the bytes of the keys |
| Outputs.WeightFalls | src/kvstore.cpp:842-866 | with no flush in between, a commit strictly lowers the sum over entries of the levels below them |
| Versions.PickSource | src/compaction.cpp:23-48 | in plain integers: no level is chosen if and only if level 0 has fewer files than the trigger and each of levels 1-4 fewer bytes than its limit, or none where the limit came out as zero; the level chosen has the greatest quotient, by cross-multiplication, and is the shallowest that has it |
| Versions.ScoreIs | src/compaction.cpp:26-45 | a level's score is its files over the trigger, or the sum of its file sizes over the flush threshold times the multiplier to the level, both modulo 2^64; it is full exactly when not below its limit |
| Versions.LevelSize | src/compaction.cpp:37-38 | the sum of the file sizes modulo 2^64 |
| Versions.KeyBounds | src/compaction.cpp:60-64 | the bounds computed from the sentinels cover every source file |
| Versions.SelectTargets | src/compaction.cpp:70-77 | exactly the target files whose ranges meet the bounds, in level order |
| Versions.EditLevel | src/version_set.cpp:160-188 | survivors, then additions, sorted: the level an edit leads to |
| Versions.FlushChunk | src/compaction.cpp:130-145 | a non-empty chunk becomes one new table under a fresh number and leaves all other tables alone |
| Versions.Emit | src/compaction.cpp:169-172 | the open chunk and the written chunks hold the stream so far, each chunk cut where it reaches the threshold |
| Versions.MergeRuns | src/compaction.cpp:147-174 | the whole merge loop writes tables that answer for every key as the inputs did |
| Versions.PlanFromMerge | src/compaction.cpp:50-174 | a finished merge is a plan that covers the snapshot's inputs and preserves their meaning |
| Versions.MergePlan | src/compaction.cpp:50-174 | merging the chosen files of a snapshot gives a plan that preserves its meaning, over new tables only |
| Versions.PlanFrame | src/compaction.cpp:50-183 | a plan good over the tables its merge left stays good over any tables added since |
| Versions.CommitAfterFlushes | src/compaction.cpp:180-183 | committing a plan on a version that flushes have moved on keeps the invariants and every visible pointer |
| Versions.CommitSettles | src/compaction.cpp:180-183 | committing on an unmoved version keeps the invariants, every lookup, and lowers the weight |
| Versions.SnapshotRecord | src/version_set.cpp:196-212 | a manifest rewrite is one record listing every file of the version |
| Versions.RewriteLevels | src/version_set.cpp:154-188 | the six levels rebuilt by the loop are the edit applied to the version |
| VersionSets.VersionSet.constructor | src/version_set.cpp:51-54 | an empty version set: no key is found, the counter is one |
| VersionSets.VersionSet.NewFileNumber | include/version_set.h:34-39 | a number that no table carries and no writer holds, marked as being written |
| VersionSets.VersionSet.LogAndApply | src/version_set.cpp:135-230 | version and manifest are those all edits so far lead to, each logged with the counter; while the records fit, recovering the manifest gives exactly the counter, and the version if and only if no edit since the last rewrite deletes a file present on levels 2-5; the added numbers are no longer pending and the new version is watched |
| VersionSets.VersionSet.RecoveredCounter | src/version_set.cpp:69-126 | at any time recovery would start counting at or above every file number of the version, so the next number is new |
| VersionSets.VersionSet.FlushImmutable | src/kvstore.cpp:583-630 | flushing puts one file with the counter as its number, its estimate and its key range first on level 0; every key answers from the flushed entries first; recovering the manifest gives the counter |
| VersionSets.VersionSet.PrepareCompaction | src/compaction.cpp:50-174 | reading a snapshot yields a plan that preserves its meaning, writing only fresh tables, whose numbers are pending |
| VersionSets.VersionSet.CommitPlan | src/compaction.cpp:180-183 | committing a plan after any flushes keeps the version set valid and every visible pointer, and recovering the manifest gives the counter |
| VersionSets.VersionSet.InstallFlushes | src/kvstore.cpp:583-630 | any number of flushes while a compaction is under way: each key answers from the newest flush first, and the plan stays good |
| VersionSets.VersionSet.RunCompaction | src/compaction.cpp:19-183 | a round runs if and only if some level is not below its limit; it merges a level with the greatest quotient and commits on what any flushes have made of the snapshot; every key answers as the flushes alone would make it, and with none the weight falls |
| VersionSets.VersionSet.CompactionWorker | src/kvstore.cpp:842-866 | the worker terminates with every scored level below its limit, in plain integers, and every lookup unchanged |
| Reads.GetPointer | src/kvstore.cpp:487-537 | active memtable, then the ring newest first, then the version |
| Reads.RingFindsNewest | src/kvstore.cpp:507-512 | probing the ring newest first finds the newest frozen memtable holding the key |
| Reads.InstallKeepsTree | src/kvstore.cpp:620-630 | installing a flush keeps the tree well formed |
| Reads.PreparedCanCommit | src/compaction.cpp:50-183 | what a merge over the snapshot leaves, written under numbers it took, meets the condition of the commit step |
| Reads.OutputsFresh | include/version_set.h:34-39 | over every interleaving of number-taking by the compaction and by flushes, the outputs' numbers are unused at the commit |
| Reads.PlanAtCommit | src/compaction.cpp:180-183 | at the commit the plan is good over the tables as they then stand |
| Reads.CommitKeepsTree | src/compaction.cpp:180-183 | committing a compaction against a moved version keeps the tree well formed |
| Reads.CommitKeepsView | src/compaction.cpp:180-183 | and changes no key's answer |
| Reads.ActiveHit | src/kvstore.cpp:393-396 | a hit in the snapshotted active memtable was current during the read |
| Reads.RingHit | src/kvstore.cpp:415-418 | a hit in the snapshotted ring was current when the snapshot was taken |
| Reads.VersionHit | src/kvstore.cpp:440-462 | after missing every memtable, the version loaded later shows a value current since the snapshot |
| Reads.InvStep | src/kvstore.cpp:541-581 | every step of every thread keeps the ring, the tree and the readers' knowledge |
| Reads.StepShows | src/kvstore.cpp:344-351 | a put sets its key to its pointer and changes no other; no freeze, flush, slot release, compaction or read changes what the store holds |
| Reads.RunShows | src/kvstore.cpp:368-462 | over every interleaving the unflushed memtables over the tree show, for every key, the last put of it or what the store was opened with |
| Reads.ActiveHolds | src/kvstore.cpp:541-581 | the active memtable holds exactly the puts since the last freeze, and before the first what the store was opened with |
| Reads.GetLinearizable | src/kvstore.cpp:368-462 | over every interleaving, a get that began at one step and is finished by another returned what the puts up to some moment between the two give |
| Reads.ReadsLastPut | src/kvstore.cpp:368-462 | a get that begins after a put, with no other put of the key by the time it is finished, returns that put |
| Reads.LevelsOverRuns | src/version_set.cpp:154-191 | in every reachable state level 0 is newest first and levels 1-5 are disjoint and ascending |
| SkipList.StopIsLeast | src/skiplist.cpp:59-84 | a search that stops has found the least node not below its key |
| SkipList.PublishKeepsList | src/skiplist.cpp:122-125 | one link store keeps every level strictly sorted and a sub-list of the one below |
| SkipList.PublishMeans | src/skiplist.cpp:122-125 | the key appears at the bottom-level store; higher stores change no content |
| SkipList.WriteRefines | src/skiplist.cpp:95-128 | each step of a put keeps the list, and only the value store and the bottom link change its content |
| SkipList.PutsRefineMap | src/skiplist.cpp:95-128 | over every interleaving the list shows what the puts, taken one after the other with the keys and pointers they were given, make of a plain map |
| SkipList.NewKeyAppears | src/skiplist.cpp:120-125 | a put of a new key, from its beginning to its first link, sets exactly its key to exactly its pointer, whatever readers do in between |
| SkipList.FinalLoadIsLeast | src/skiplist.cpp:59-84 | a reader's last bottom-level load lands on the least node not below its key at that moment, put in progress or not |
| SkipList.LevelsOverRuns | src/skiplist.cpp:95-128 | over every interleaving each level is strictly sorted and a sub-list of the level below |
| SkipList.ReadLinearizable | src/skiplist.cpp:86-93 | a finished get returned what the puts up to some moment during the get make of a plain map |
| SkipList.ConcurrentSkipList.constructor | src/skiplist.cpp:8-18 | an empty list |
| SkipList.ConcurrentSkipList.FindGreaterOrEqual | src/skiplist.cpp:59-84 | the least node not below the key, and on each level the node to insert after |
| SkipList.ConcurrentSkipList.Get | src/skiplist.cpp:86-93 | the content at the key |
| SkipList.ConcurrentSkipList.Put | src/skiplist.cpp:95-128 | the content updated at one key, for any tower height drawn |
| SkipList.ConcurrentSkipList.LinkLevels | src/skiplist.cpp:122-125 | linking all levels bottom-up adds exactly the new key |
| SkipList.ConcurrentSkipList.Entries | src/skiplist.cpp:130-158 | iteration yields the content sorted by key, each key once |
| Crc.InitTable | src/crc32.cpp:12-19 | table entry i is i divided by the polynomial for eight bits |
| Crc.PolyExponents | src/crc32.cpp:16 | the polynomial is x^32 + x^26 + x^23 + x^22 + x^16 + x^12 + x^11 + x^10 + x^8 + x^7 + x^5 + x^4 + x^2 + x + 1, reflected |
| Crc.NextIsShift | src/crc32.cpp:24-25 | one table step is eight bitwise division steps |
| Crc.Update | src/crc32.cpp:41-46 | running bytes through the table is bitwise division |
| Crc.Compute | src/crc32.cpp:21-27 | the table-driven checksum is the bitwise one |
| Crc.CheckValue | src/crc32.cpp:21-27 | the checksum of the ASCII digits one to nine is 0xCBF43926 |
| Crc.ComputeIncremental | src/crc32.cpp:29-35 | likewise for a continued checksum |
| Crc.RecordChecksum | src/crc32.cpp:37-56 | field by field, the checksum of the concatenated fields |
| Crc.ChunkingIsInvisible | src/sstable.cpp:275-284 | checksumming in chunks gives the checksum of the whole, wherever it is cut |
| Crc.BurstDetectedAt | src/crc32.cpp:21-27 | two messages of one length that differ only within four consecutive bytes have different checksums |
| EditCodec.EncodeTo | src/version_edit.cpp:48-68 | the encoder writes the tagged fields of the edit in order |
| EditCodec.WireFormat | src/version_edit.cpp:48-68 | tag 1 and the counter, tag 2 with level and number, tag 3 with level, number, size and both keys with their lengths |
| EditCodec.DecodeFrom | src/version_edit.cpp:70-113 | the decoder's result on any bytes, including every way of failing |
| EditCodec.EditRoundTrip | src/version_edit.cpp:48-113 | decoding undoes encoding for every edit whose fields fit |
| Manifest.ApplyRecovered | src/version_set.cpp:102-113 | deletions take effect on levels 0 and 1 only, additions on every level |
| Manifest.Recover | src/version_set.cpp:69-126 | the recovery loop over any bytes, stopping at a missing, torn, oversized or undecodable record |
| Manifest.RecoveryExact | src/version_set.cpp:102-124 | recovery rebuilds the version in memory if and only if no edit since the last rewrite deletes a file present on levels 2-5; the file number is always the last logged |
| Manifest.MissedExact | src/version_set.cpp:102-108 | recovery skips a deletion of a file that is there if and only if some edit deletes a file present on levels 2-5 |
| Manifest.DeletionMissed | src/version_set.cpp:103 | deleting any one file of levels 2-5 is enough to break that |
| Manifest.DeletionLost | src/version_set.cpp:103 | a file added on level 2 and compacted to level 3: the manifest recovers a different version |
| Manifest.LowDeletionsMissNothing | src/version_set.cpp:102-108 | edits that delete only on levels 0 and 1 lose nothing |
| Manifest.SnapshotRebuilds | src/version_set.cpp:196-212 | a snapshot record alone rebuilds the version it describes |
| Manifest.LoggingReflects | src/version_set.cpp:135-230 | logging an edit, rewritten or not, leaves a manifest of exactly the records since the last rewrite, which describe the new version |
| Manifest.RewriteRule | src/version_set.cpp:193-222 | the manifest is replaced by a snapshot exactly when an append takes it past 1048576 bytes |
| Manifest.RunRecoversExactly | src/version_set.cpp:69-230 | after any sequence of commits, through any rewrites, recovery gives the version in memory if and only if no edit since the last rewrite deletes a file present on levels 2-5; the file number is always right |
| Manifest.RunRecovers | src/version_set.cpp:69-230 | after any sequence of commits deleting on levels 0-1, through any rewrites, recovery gives the version in memory and the file number |
| Manifest.TornTail | src/version_set.cpp:76-86 | a manifest cut inside its last record recovers as if that record had not been written |
| Manifest.LongRecordStops | src/version_set.cpp:76-86 | recovery stops at a record of more than 64 MiB and keeps what came before |
| Manifest.TornCommit | src/version_set.cpp:76-86 | a commit cut anywhere inside its record recovers as if it had not begun, after any sequence of commits and rewrites |
| Manifest.CrashBeforeRename | src/version_set.cpp:196-222 | a crash after the append that makes the manifest too long and before the rewritten one replaces it recovers the new version under the same condition on the records so far |
| Block.ParseRoundTrip | src/sstable.cpp:418-441 | decoding an entry undoes encoding it, given a key that starts like its predecessor |
| Block.SearchBlock | src/sstable.cpp:374-417 | restart binary search and scan give exactly the lookup in the block's entries, on any well-formed block |
| Block.ScanBlock | src/sstable.cpp:412-452 | the scan from a restart point decides the key |
| Table.CandidateDecides | src/sstable.cpp:341-344 | only the first block whose largest key reaches the key can hold it |
| TableWriter.SharedPrefix | src/sstable.cpp:69-77 | the longest common prefix |
| TableWriter.FlushBlock | src/sstable.cpp:40-63 | the block's bytes, index entry and checksum are added to the file |
| TableWriter.AddEntry | src/sstable.cpp:66-109 | one entry: prefix choice, cut if the block would pass 4096 bytes, restart every sixteenth entry or when nothing is shared |
| TableWriter.Pack | src/sstable.cpp:66-116 | blocks hold exactly the entries in order, are compressed as far as the restarts allow, are cut only where the next entry would not fit, and pass 4096 bytes only with a single entry |
| TableWriter.PackedMeans | src/sstable.cpp:66-109 | every sixteenth entry of a block is stored whole, every other without the longest prefix shared with the one before; a block of two or more entries is at most 4096 bytes and the next entry would have made it longer |
| TableWriter.WriteBlocks | src/sstable.cpp:28-116 | the writer's loop yields exactly that packing, with its index and checksum |
| TableWriter.WriteTable | src/sstable.cpp:23-166 | the file is the packed blocks, index, filter and a footer with the checksum of the rest |
| TableReader.PayloadChecksum | src/sstable.cpp:275-284 | reading in 4096-byte pieces gives the checksum of the payload |
| TableReader.ReadIndex | src/sstable.cpp:292-303 | reads back every index entry |
| TableReader.SSTableReader.Load | src/sstable.cpp:262-324 | a table file opens with its index, true smallest and largest keys, and filter; whatever opens has a matching checksum |
| TableReader.SSTableReader.Get | src/sstable.cpp:338-452 | on an opened sorted table, exactly the map lookup: hit, miss, never a corruption error |
| TableReader.SSTableReader.LowerBound | src/sstable.cpp:341-344 | the first block whose largest key is not below the key |
| TableReader.DamageShows | src/sstable.cpp:285-288 | damage within four bytes of the payload, or in the stored checksum, makes a file refuse to open |
| TableIterator.SSTableIterator.LoadBlock | include/sstable_iterator.h:103-124 | the block of an index entry, through a cache that stays coherent and gains only blocks of this table |
| TableIterator.SSTableIterator.SeekToFirst | include/sstable_iterator.h:23-31 | stands at the first entry, or is invalid on an empty table |
| TableIterator.SSTableIterator.Next | include/sstable_iterator.h:66-85 | steps to the next entry across block boundaries, invalid after the last |
| TableIterator.SSTableIterator.Seek | include/sstable_iterator.h:33-62 | terminates at the first entry not below the target, or invalid if there is none |
| TableIterator.ReadAll | include/sstable_iterator.h:23-124 | first-to-last iteration through the block cache yields exactly the table's entries in order |
| TableIterator.WriteThenGet | src/sstable.cpp:23-452 | write, open, look up: the lookup in the entries written, whenever the file is under 4 GiB |
| TableIterator.WriteThenRead | src/sstable.cpp:23-324 | write, open, iterate through the block cache: the entries written |
| Bloom.BloomFilter.Build | src/bloom.cpp:103-131 | a bit is set if and only if some key's probe sets it |
| Bloom.FilterBits | src/bloom.cpp:119-128 | a bit is set if and only if it is h1 + i * h2, modulo 2^64 and then the number of bits, for some key and some i below the number of hashes |
| Bloom.BloomFilter.Query | src/bloom.cpp:214-229 | true when there are no bits or every probe of the key is set |
| Bloom.NoFalseNegatives | src/bloom.cpp:103-229 | the filter admits every key it was built from, for any hash and any sizes |
| Cache.LRUShard.Get | include/cache.h:26-35 | the cached block, moved to the front |
| Cache.LRUShard.Evict | include/cache.h:51-60 | drops from the cold end, no more than needed, and ends within capacity when the counter is accurate |
| Cache.LRUShard.Put | include/cache.h:37-62 | list and map stay in agreement; the counter stays accurate and within capacity when a block put again has its old size |
| Lookup.ShardedLRUCache.Get | include/cache.h:86-88 | what a coherent cache returns is what the disk holds |
| Lookup.ShardedLRUCache.Put | include/cache.h:90-92 | caching disk contents keeps the cache coherent |
| Lookup.ReadBlock | src/sstable.cpp:353-367 | a block from the cache, or from the file and then cached, is the block on disk; only blocks of this table are added |
| Lookup.GetCached | src/sstable.cpp:338-372 | lookup through a coherent block cache answers as the table itself |
| Lookup.RuledOut | src/kvstore.cpp:449-452 | a key the filter rules out is not in the table |
| Lookup.LookUp | src/kvstore.cpp:440-460 | the filter and a coherent cache together never change an answer |
| Lookup.WriteThenLookUp | src/sstable.cpp:137-160 | the filter survives writing and loading: no key is lost end to end |
| TableStore.StoredOnDisk | src/sstable.cpp:353 | a table file's blocks are found under its own name by offset, each block at one offset |
| TableStore.BuildTable | src/sstable.cpp:23-166 | the file with its filter is that of the entries, the filter covering every key |
| TableStore.Store.constructor | src/version_set.cpp:51-54 | no tables, an empty cache |
| TableStore.Store.NewFileNumber | include/version_set.h:34-39 | a number never used before, of removed tables too |
| TableStore.Store.NewTable | src/sstable.cpp:353 | a table under a number not used before leaves every cached block up to date |
| TableStore.Store.Write | src/kvstore.cpp:590-620 | a new table under a new number; every other table and all that was ever written stay the same |
| TableStore.Store.Remove | src/version_set.cpp:258-271 | one file goes; what the cache still holds of it can never be taken for another table |
| TableStore.Store.Open | src/sstable.cpp:262-324 | a table of the store opens with its own index and filter |
| TableStore.Store.LookUpIn | src/kvstore.cpp:440-460 | after any history of writes, removals, searches and walks, a lookup through filter and cache is the lookup in the entries written |
| TableStore.Store.ReadTable | include/sstable_iterator.h:23-124 | after any such history, a walk through the cache gives the entries written |
| GroupCommit.OneLeader | src/kvstore.cpp:195-222 | never two threads between winning the empty queue and draining it; a non-empty queue always has one |
| GroupCommit.PushOrder | src/kvstore.cpp:222-229 | committed batches, the batch under way and the queue from oldest to newest are the successful swaps in order, each request once |
| GroupCommit.WalkStep | src/kvstore.cpp:224-229 | following the links and reversing yields exactly the queue taken |
| GroupCommit.CompletedOnce | src/kvstore.cpp:356-361 | no request is in two batches or twice in one |
| GroupCommit.ReturnedWasCompleted | src/kvstore.cpp:204-213 | a write that returns was committed and marked completed |
| GroupCommit.NoneStranded | src/kvstore.cpp:195-361 | when all writers have returned, every successful swap was committed, in that order, and completed |
| Wal.ReplayIntact | src/wal.cpp:180-236 | an intact log replays to its records, untainted |
| Wal.ReplayComplete | src/wal.cpp:204-205 | a log replays completely if and only if no key is over 64 MiB |
| Wal.OversizeKeyLost | src/wal.cpp:204-205 | a one-record log with a key of one byte over 64 MiB replays to nothing, tainted |
| Wal.ReplayTruncated | src/wal.cpp:180-236 | cut anywhere, exactly the whole records before the cut; tainted if and only if four or more bytes of the next remain |
| Wal.ReplayDamaged | src/wal.cpp:207-212 | one changed byte outside the key sizes: exactly the records before the damaged one, tainted |
| Wal.PutReadsBack | src/wal.cpp:180-220 | a put appended to any readable log replays after the others as itself if and only if its length is not the tombstone mark |
| Wal.MarkedPutLost | src/wal.cpp:214-217 | a one-record log of a put with that length replays as a tombstone |
| Wal.WAL.Append | src/wal.cpp:100-125 | buffers the record of a put |
| Wal.WAL.AppendDelete | src/wal.cpp:128-150 | buffers the record of a delete |
| Wal.WAL.Sync | src/wal.cpp:153-173 | the file grows by the buffer, which empties |
| Wal.WAL.ReplayLog | src/wal.cpp:180-236 | the replay loop on any bytes |
| Vlog.AppendNames | src/vlog.cpp:127-158 | the returned pointer names the value, and the file only grows by the record |
| Vlog.BufferedNames | src/vlog.cpp:127-151 | before any write-out the pointer already names the value in file and buffer together, and the file is untouched |
| Vlog.SyncedReadsBack | src/vlog.cpp:127-196 | once synced a value reads back whole if and only if its size fits 32 bits |
| Vlog.HugeValueLost | src/vlog.cpp:127-196 | a value of 2^32 bytes reads back empty |
| Vlog.ReadItem | src/vlog.cpp:198-224 | reading on from a record's end gives the next record with the pointer its append returned |
| Vlog.VLog.Append | src/vlog.cpp:127-158 | buffers the record, writes out at 4 MiB and not before, returns the pointer |
| Vlog.VLog.Sync | src/vlog.cpp:160-183 | the file grows by the buffer |
| Vlog.VLog.ReadAll | src/vlog.cpp:198-224 | end to end, exactly the appended records with their pointers |
| Crash.Recover | src/kvstore.cpp:769-790 | the recovery loop loads the replayed entries in order, later ones over earlier |
| Crash.RecoveredPut | src/kvstore.cpp:769-790 | recovery of any readable log ending in a put shows that put, unless its length is the tombstone mark, when it shows a delete |
| Crash.PutValueOk | src/kvstore.cpp:290-303 | a value's pointer names it across a change of value-log file in mid-batch |
| Crash.SyncLogStep | src/kvstore.cpp:312-337 | when the log is synced, every value it points at is already on disk |
| Crash.WriteOutStep | src/vlog.cpp:153-155 | writing a full value buffer out in mid-batch is a step of its own and keeps logs, values and memtable in agreement |
| Crash.InvStep | src/kvstore.cpp:231-351 | every step of the commit section keeps the logs, the values and the memtable in agreement |
| Crash.RunFollows | src/kvstore.cpp:231-351 | the log holds, in order, what it was opened with and the requests of the batches begun since |
| Crash.SyncedBatchLogged | src/kvstore.cpp:312-351 | when a batch in which any request asked for a sync returns, the log file holds it and everything before it |
| Crash.CrashSafe | src/kvstore.cpp:231-351 | a crash at any step of any run, part-way through any write: recovery reads for every key the value last given to it by what the log was opened with and a prefix of the requests since, in order; every batch that has returned and in which any request asked for a sync lies within the prefix |
| Crash.GetsFollow | src/kvstore.cpp:344-351 | between batches a get reads, for every key, the value last given to it by any request so far, synced or not |
| Crash.CleanRestart | src/kvstore.cpp:704-795 | between synced batches recovery shows exactly what the memtable showed |
| Purge.CollectLive | src/version_set.cpp:238-256 | under the lock: the files of all live versions, dead versions forgotten |
| Purge.RemoveFiles | src/version_set.cpp:258-271 | removes exactly the listed files the snapshot does not spare |
| Purge.StartStep | src/version_set.cpp:234-256 | the copied sets spare everything needed at that moment |
| Purge.PurgeSafe | src/version_set.cpp:234-272 | over every interleaving, from a store with or without a manifest: the files that installs have added to the current version and not deleted are on disk, as are those of every held version, and no purge removes one of these or one still being written |
| Purge.HeldSafe | src/version_set.cpp:238-256 | a reader that has not dropped its version finds on disk every file that version had when it was taken |
| Purge.WrittenSafe | src/version_set.cpp:258-271 | a file written and neither installed nor given up since is on disk |
| Purge.NumbersAndReaders | include/version_set.h:34-44 | numbers are taken in order; the pending ones are those allocated and neither given up nor installed; readers are those that took a version and have not dropped it |
| Purge.GarbageRemovable | src/version_set.cpp:234-271 | once a purge has started it may remove every file on disk in no version held at that moment, not being written and below the counter |
| Batches.CommitValue | src/kvstore.cpp:290-303 | a put sets its key's value and no other |
| Batches.FileRule | src/kvstore.cpp:290-298 | a value goes to the current file while that is shorter than its limit, and to a new one after |
| Batches.RolledSame | src/kvstore.cpp:243-256 | starting a new value log at the head of a batch changes no read |
| Batches.DrainedShows | src/kvstore.cpp:261-351 | after a batch a key has what the last request to set it gave, where a rewrite sets it only if the check against the memtable before the batch misses, and otherwise what it had |
| Batches.MidBatch | src/kvstore.cpp:344-351 | while the pointers of a batch go in, a read returns what it would after a batch of the requests inserted so far |
| Gc.LiveIsCurrent | src/vlog_gc.cpp:46-54 | a record judged live is exactly what the store points at |
| Gc.ReadStep | src/vlog_gc.cpp:38-55 | reading the next record, among other threads' writes, keeps: every read follows the writes, and every pointer into the file is of a key not written since, whose record is left to rewrite or to read |
| Gc.FreezeStep | src/kvstore.cpp:541-581 | freezing the active memtable keeps that |
| Gc.BatchStep | src/kvstore.cpp:231-351 | a batch of puts, deletes and harmless rewrites keeps that |
| Gc.GcExact | src/vlog_gc.cpp:38-80 | over any interleaving of the collector's reading with freezes and with batches of puts, deletes and its rewrites, every read between batches returns what the puts and deletes alone would give if and only if each rewrite is caught by the memtable before its batch, or its key was not written before it or last given the same value, or a later request of its batch writes the key |
| Gc.GcExactFromStart | src/vlog_gc.cpp:12-80 | the same from any store at rest, before the first record is read |
| Gc.MidBatchExact | src/kvstore.cpp:344-351 | likewise for a read between two insertions of a batch, on the requests inserted so far |
| Gc.WritesCaught | src/kvstore.cpp:277-288 | without a freeze, with deletes stamped above the collected file, and with no rewrite behind a write of its key in one batch, every rewrite is harmless |
| Gc.BatchLosesWrite | src/kvstore.cpp:277-288 | a put or delete and the rewrite of its key behind it in one batch bring the old value back, whatever the stamp |
| Gc.FreezeLosesWrite | src/kvstore.cpp:277-288 | a put or delete, a freeze and the rewrite of its key bring the old value back, in every collection |
| Gc.RewriteUndoesDelete | src/kvstore.cpp:268-288 | a delete stamped with a log number no greater than the collected file's is undone by a rewrite in a later batch, in every collection |
| Gc.LossesHappen | src/kvstore.cpp:268-288 | each of these losses from a store of one record |
| Gc.DropFile | src/vlog_gc.cpp:82-92 | with the rewrites done, dropping the file leaves every read what the writes alone would give and no pointer into the file |
| Gc.Store.Oldest | src/vlog_gc.cpp:15-30 | the smallest file number below the current one |
| Gc.Store.ScanFile | src/vlog_gc.cpp:38-55 | exactly the live records, and the live and total byte counts |
| Gc.Store.MaybeFlush | src/kvstore.cpp:214-216 | over its threshold the active memtable is frozen, on top of what was frozen before |
| Gc.Store.Append | src/kvstore.cpp:290-303 | appends the value to the current or a new file and returns its pointer, the memtable untouched |
| Gc.Store.CommitBatch | src/kvstore.cpp:231-351 | checks and values first, then the pointers: the state is the batch applied request by request with every check against the memtable as it was |
| Gc.Store.RunGc | src/vlog_gc.cpp:12-97 | collects if and only if at most half the oldest file is live; through whatever freezes its own writes cause, no key's value changes and no visible pointer names the dropped file |
| GcCrash.RecoverAll | src/kvstore.cpp:319-333 | after a batch recovery has for every key what the last put or delete gave and otherwise what it had: rewrites leave no trace in the log |
| GcCrash.RunRecoverable | src/kvstore.cpp:769-790 | at every point of a harmless run, before the file is dropped, recovery reads what the writes alone would give, and points into the file for exactly the unwritten keys that still do or were rewritten since the last freeze |
| GcCrash.KeyAfterDrop | src/vlog_gc.cpp:82-92 | after the file is dropped recovery loses a key exactly if it was rewritten since the last freeze and no client has written it; every other key reads as before |
| GcCrash.CollectionSurvives | src/kvstore.cpp:324 | replaying the log's bytes after a whole collection reads every value if and only if every key rewritten since the last freeze has been written by a client since the collection began |
| GcCrash.CollectionLoses | src/kvstore.cpp:324 | a store of one logged put: after a harmless collection a crash loses the value |
| Scan.AddFrom | src/kvstore.cpp:907-913 | adds a source's keys in the range that no earlier source had |
| Scan.Scan | src/kvstore.cpp:899-952 | exactly the live keys of the range, in key order, from the first source that has them |
| Scan.AgreementExact | src/kvstore.cpp:929-935 | scan and point read agree on a key if and only if the active memtable has it, or no slot holds it, or the holder with the least slot index and the newest holder carry the same live pointer |
| Scan.ScanAgrees | src/kvstore.cpp:899-955 | with no key in two occupied slots a scan gives exactly what point reads give |
| Scan.ScanStale | src/kvstore.cpp:929-935 | two frozen memtables with one key: the scan gives the older value |

## Left out

- File descriptors, memory mapping, retry loops, platform branches, I/O failures, the panic flag and fault
  injection.
- Back-pressure waits, condition variables, thread pools and shutdown: progress depends on options and
  scheduling.
- C++ memory orders, object lifetimes and the arena allocator.
- Durability across a log rotation and recovery of levels 2-5: the code does not provide them.
- Orphan purging in `KVStore::recover` (src/kvstore.cpp:720-742) and the table-reader cache
  (src/kvstore.cpp:806-840).
- Metrics, statistics, logging, the DB facade, benchmarks and `scan_values`, which repeats `scan`.
- The filter's floating-point sizing and its MurmurHash64A: sizes and hash are arbitrary parameters.
- Lsm.SortOrdered: `std::sort` is an insertion sort; only the order reached is compared.
- TableReader.SSTableReader.Load: a file whose checksum matches but whose index runs past its end is
  undefined in the code; the model refuses it.
- Block.SearchBlock: 32-bit wrap-around of offsets in a damaged block is not modelled.
- TableIterator.SSTableIterator.Next: an iterator without a reader is not modelled.
- TableWriter.WriteTable: keys of 4 GiB and more are excluded; the code stores their length modulo 2^32.
- Reads.GetLinearizable: a commit inserts its batch into the memtable active at that moment; an insertion
  overlapping a freeze (src/kvstore.cpp:214-220) is excluded.
- Crash.CrashSafe: keys over 64 MiB and values of 4 GiB - 1 bytes and more are excluded, because
  `Wal.OversizeKeyLost` and `Crash.RecoveredPut` show that recovery loses them.
- Gc.GcExact: one collector at a time, and a read is one step: a read that fetched its pointer before the file
  was dropped is not modelled.
- TableStore.Store.NewFileNumber: numbers are unbounded; the code's 32-bit counter wraps.
- TableStore.Store.Write: a table of 4 GiB or more is not kept; the code writes it with offsets modulo 2^32.
- Manifest.RecoveryExact: a record over 64 MiB stops recovery and is excluded.
- Manifest.RunRecoversExactly: likewise.
- VersionSets.VersionSet.LogAndApply: what recovery gives is stated while every record so far is of a size it reads;
  `Manifest.LongRecordStops` says what a longer one does.
- Cache.LRUShard.Put: a block's capacity is taken to be its size.
