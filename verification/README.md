# Verified model of the storage and row-mutation core

This project models, in Dafny, the parts of a StarRocks-compatible lakehouse engine whose correctness
is hardest to see by reading: row-level UPDATE and DELETE on Iceberg tables, two caches, a percentile
sketch, and three changes of representation. Each part is a program in the source's own form
(classes and loops where the source mutates, functions where it computes) proved against a simple
specification.

**Row-level mutations** (`RowLineage`, `MorRuns`, `MorUpdate`, `MorCommit`, `CowRewrite`, `CowCommit`,
`UpdateEquivalence`, `WhereFilter`, `SqlMeaning`, `WhereSemantics`, `PositionDeletes`). A table is a map of data
files (first row id, data sequence number, rows that may store their own lineage), a set of deleted
positions and per-file equality deletes; the reader's rule turns it into a logical table of
`(row id, row, last-updated sequence number)`. An UPDATE means: override that set at the matched
ids. Merge-on-read (sorted runs of consecutive ids, chained first row ids, position deletes) always
does that, and over any history of updates and deletes ids stay unique, and if every file starts with
`row id = first row id + position` (the rule of the Apache Iceberg table specification, format version
3, section "Row Lineage"), every file keeps it. Copy-on-write does it exactly when the rows it copies
along are numbered by position and carry their file's sequence number. DELETE removes exactly the rows
for which SQL's three-valued logic gives TRUE.

**Page cache** (`PageRecency`, `PageInsert`, `PageList`, `PageCache`, `PagePins`). The LRU list threaded
through the hash map spells out one duplicate-free sequence; every operation refines an operation on
that sequence, an insertion costs the shortest run of least recently used unheld pages that makes
room; and under every interleaving of locked operations with unlocked handle clones and drops, no
page with a live handle is removed.

**Block cache and cached reader** (`BlockAllocator`, `BlockStore`, `BlockCache`, `CachedReader`). The
bitmap allocator, block addressing, the keyed store with checksums, and a range reader and a stream
that agree with the file for every range and every sequence of buffer sizes.

**Percentile sketch** (`Centroids`, `DigestSize`, `TDigest`, `TDigestOps`, `PercentileCodec`,
`PayloadFormat`). The t-digest over exact reals for arbitrary scale functions, its size for scales
that are inverse pairs, and its binary state codec over bit patterns, which decodes exactly the
payloads the format spells out.

**Representations** (`LiteralColumns`, `LiteralBuild`, `LiteralMeaning`, `ContainerText`,
`ContainerRead`, `DecimalText`, `ThriftJson`, `ThriftRead`). Nested literals shredded into columnar
arrays, walked back, and printed as a text that reads as what was inserted; one decimal printer and
two parsers; a stack machine that rebuilds JSON from Thrift write events, and a reader that gets the
value back.

`Common` and `Sequences` hold shared datatypes and sequence facts. `dafny verify dfyconfig.toml` checks
everything.

## What turned out not to hold

Each of these is stated as a lemma or a contract with its exact condition.

- Copy-on-write recomputes ids as first row id plus position and resets the last-updated sequence
  number of the rows it copies. On any table with unique ids, every visible row becomes what an
  UPDATE makes of it if and only if every visible row of a touched file has that recomputed id and,
  when unmatched, its file's sequence number (`UpdateEquivalence.RowByRowExactly`). The files it
  writes itself break both halves (`MixedTableArises` with `CopiedRowChangesSeq`, and
  `RenumberedTableArises` with `RenumberedRowIsLost`). The statement succeeds, given a writer that writes, if and only if no
  recomputed id overflows and every matched id is recomputed for some visible row of a touched file
  (`CowCommit.RewritableExactly`, `UpdateEquivalence.ExecuteCowUpdate`).
- The block cache takes an entry out of its map before unlinking it, so its head keeps naming the
  evicted key. An eviction loop ends if and only if the head has an entry
  (`BlockCache.EvictionEndsExactly`); after one eviction from a full cache the next new key never
  returns (`BlockCache.SecondEvictionHangs`, `BlockCache.ThirdWriteHangs`).
- A block-cache read that asks for fewer bytes than were stored aborts when checksums are on, and only
  then (`BlockCache.Cache.Read`).
- A block fits the files the cache opens if and only if its number is below `(quota / file size) *
  (file size / block size) + (quota % file size) / block size` (`BlockAllocator.InsideExactly`,
  `AllInsideExactly`). A 30 GB cache of 3 MB blocks has a block in a file that does not exist
  (`UnaddressableBlock`), and one of 10 GB and 2 MB a block larger than its file
  (`BlockBeyondShortFile`).
- A percentile state survives encoding if and only if an empty digest in it is the fresh digest of its
  own compression (`PercentileCodec.RoundTripExactly`). Every state built from values, settings and
  encoded states is of that kind, but the decoder accepts foreign payloads that are not
  (`EveryStateDecodes`, `MergedPayloadSurvivesExactly`).
- Past the last midpoint the t-digest always answers the maximum (`TDigest.TailIsMax`).
- `NULL NOT IN ()` is TRUE in SQL and false for the row evaluator, and `IN ()` and `NOT IN ()` on a
  column that is missing, nested or, unless NULL, of an unreadable type are accepted and then fail
  (`WhereSemantics.InListExactly`); so do `IS NULL` and `IS NOT NULL` (`WhereSemantics.IsNullExactly`).
- The literal builder drops NULL map keys, but an out-of-range key of a nullable integer key column
  still becomes a NULL key (`LiteralMeaning.NullKeyExactly`).

## Model

| member | source | states |
|---|---|---|
| RowLineage.ValidateUniqueRowIds | src/engine/mutation_flow.rs:1134-1145 | a matched batch passes exactly if no row id occurs twice, and the error names an id that does |
| MorRuns.SortIndicesOrders | src/engine/mutation_flow.rs:347-348 | the order lists every matched row once, by ascending row id |
| MorRuns.BuildMorUpdateRuns | src/engine/mutation_flow.rs:335-387 | the runs partition the matched rows into consecutive-id runs that cannot be joined; the overflow error occurs exactly if the largest id is matched twice |
| MorRuns.GroupRuns | src/engine/mutation_flow.rs:350-386 | the same for the grouping loop over any sorted order |
| MorRuns.DistinctNeverOverflows | src/engine/mutation_flow.rs:357-363 | for distinct row ids the overflow error is unreachable |
| MorUpdate.GroupLineage | src/engine/mutation_flow.rs:389-411 | a materialised run stores first row id + k at position k, and the new sequence number |
| MorUpdate.RunsApart | src/engine/mutation_flow.rs:342-346 | runs of distinct ids cover disjoint ascending id ranges, which all fit 64 bits exactly if no id is the largest one |
| MorUpdate.StampRun | src/engine/mutation_flow.rs:265-280 | chaining first row ids over one run's rolling files keeps every stored id equal to first row id + position, in order; it overflows exactly if the run's end exceeds the 64-bit range |
| MorUpdate.WriteRuns | src/engine/mutation_flow.rs:251-281 | over all runs: the files hold exactly the runs' rows in order, under fresh paths and disjoint ascending ranges; it fails exactly if some run is not written or overflows |
| MorUpdate.ReplacedExactly | src/engine/mutation_flow.rs:394-403 | the replacement rows are the matched rows with their new values, nothing more or less |
| MorCommit.BuildDeleteGroups | src/engine/mutation_flow.rs:429-450 | one delete group per touched file with its matched positions in order and its partition; fails exactly if a touched file has no partition metadata |
| MorCommit.GroupsDeleteMatches | src/engine/mutation_flow.rs:433-448 | the delete groups delete exactly the matched places |
| MorCommit.MorEffect | src/engine/mutation_flow.rs:245-320 | the committed table's logical rows are the old ones overridden at exactly the matched ids |
| MorCommit.MorKeepsWellFormed | src/engine/mutation_flow.rs:265-281 | each row id stays visible at most once, positional lineage stays positional, and if no row stored a sequence number other than its file's, none does |
| MorCommit.ExecuteMorUpdate | src/engine/mutation_flow.rs:224-324 | the whole statement, on any table with unique non-negative 64-bit ids: on success the logical table is the override, ids stay unique and positional lineage stays positional; duplicate ids are the only reason for the duplicate error; for distinct ids, known partitions and a writer that writes it succeeds exactly if no matched id is the largest one, which a table numbered by position never has |
| MorCommit.DeleteKeepsWellFormed | src/engine/delete_flow.rs:150-262 | adding position deletes keeps ids unique, positional lineage positional and file sequence numbers |
| MorCommit.StepKeepsLineage | src/engine/mutation_flow.rs:265-281 | one merge-on-read update or one DELETE keeps ids unique on any table, and each of positional lineage and file sequence numbers where it held; it takes the next sequence number |
| MorCommit.HistoryKeepsLineage | src/engine/mutation_flow.rs:326-333 | over any sequence of merge-on-read updates and position deletes, from any table with unique ids, each id is visible at most once, each statement takes one sequence number, and where every file started with row id = first row id + position, every file keeps it |
| CowRewrite.CollectRow | src/engine/mutation_flow.rs:860-899 | one scanned row: skipped if a delete hides it or its file is not touched, failed, or appended to its file's rows with the replacement or the old values |
| CowRewrite.CollectRows | src/engine/mutation_flow.rs:834-901 | a batch extends the accumulated rows and the set of met ids by exactly its visible rows of touched files, and fails exactly if some row fails |
| CowRewrite.BuildCowRewrites | src/engine/mutation_flow.rs:733-831 | the rewrite succeeds exactly if no scanned row fails and every matched id is met again |
| CowCommit.WriteRewrites | src/engine/mutation_flow.rs:693-710 | the replacement files hold exactly the accumulated rows, an id collected once is written once, under fresh paths; fails exactly if a file is not written |
| CowCommit.CollectedExactly | src/engine/mutation_flow.rs:860-899 | what is accumulated is the rewrite of each visible row of each touched file, and nothing else |
| CowCommit.FilterIsReader | src/engine/delete_flow.rs:815-840 | the scan's filter keeps a scanned row exactly if the reader shows it: no position delete names it and no equality delete of its file holds of the stored row |
| CowCommit.CopiesUndeleted | src/engine/mutation_flow.rs:860-899 | every copied row comes from a place of a touched file that no position delete and no equality delete removes, and is the rewrite of that place |
| CowCommit.UndeletedAreCopied | src/engine/mutation_flow.rs:860-899 | every undeleted row of a touched file is copied |
| CowCommit.RewritableExactly | src/engine/mutation_flow.rs:804-883 | in whatever order the scan reads the table, no row fails and every matched id is met again exactly if no recomputed id overflows and each matched id is recomputed for a visible row of a touched file |
| CowCommit.PositionalIsRewritable | src/engine/mutation_flow.rs:804-810 | on tables numbered by position this always holds, so the error for a matched row that is not visible cannot occur |
| UpdateEquivalence.CowEffect | src/engine/mutation_flow.rs:452-518 | after the commit the logical table is the rewritten version of each visible row |
| UpdateEquivalence.RowUpdatedExactly | src/engine/mutation_flow.rs:880-894 | on any table with unique ids, copy-on-write treats one visible row rightly exactly if its file is not touched, or its id is first row id + position and, when unmatched, its sequence number is the file's |
| UpdateEquivalence.RowByRowExactly | src/engine/mutation_flow.rs:880-894 | it treats all of them rightly exactly if that holds of every visible row of a touched file |
| UpdateEquivalence.CowExactly | src/engine/mutation_flow.rs:884-894 | where ids are recomputed rightly, copy-on-write means what an UPDATE means if and only if every visible unmatched row of a touched file carries that file's sequence number |
| UpdateEquivalence.StrategiesAgree | src/engine/mutation_flow.rs:108-130 | where ids are recomputed rightly, both strategies give the same logical table exactly under that condition |
| UpdateEquivalence.CowOutcome | src/engine/mutation_flow.rs:733-831 | where ids are recomputed rightly, the rewritten table shows each row id at most once and is the UPDATE's meaning exactly under that condition |
| UpdateEquivalence.ExecuteCowUpdate | src/engine/mutation_flow.rs:452-518 | the whole statement, on any table with unique ids: the result shows the rewritten version of each visible row; where ids are recomputed rightly, ids stay unique and the result is the UPDATE's meaning exactly under that condition; it succeeds only on rewritable tables, and always there if ids are distinct and the writer writes |
| UpdateEquivalence.MixedHistoryKeepsUnique | src/engine/mutation_flow.rs:108-130 | over any sequence of updates of either strategy and deletes, with copy-on-write only where ids are recomputed rightly, each row id stays visible at most once and each statement takes one sequence number |
| UpdateEquivalence.CopiedRowChangesSeq | src/engine/mutation_flow.rs:890-894 | a concrete table whose untouched row gets a newer last-updated number |
| UpdateEquivalence.MixedTableArises | src/engine/mutation_flow.rs:884-899 | that table is what copy-on-write makes of a plain one |
| UpdateEquivalence.RenumberedRowIsLost | src/engine/mutation_flow.rs:880-883 | a concrete table, its file given a new first row id after a rewrite, whose matched row is not found again |
| UpdateEquivalence.RenumberedTableArises | src/engine/mutation_flow.rs:880-899 | that table, too, is what copy-on-write makes of a plain one |
| WhereSemantics.EvaluatorIsSql | src/engine/delete_flow.rs:894-971 | for every accepted clause in scope and conforming row the evaluator does not fail and is true exactly if SQL, defined on the expression itself, gives TRUE |
| WhereSemantics.FindsField | src/engine/delete_flow.rs:394-399 | the schema lookup finds the first field whose name agrees when case is ignored, and none exactly if no name does |
| WhereSemantics.FindsValue | src/engine/delete_flow.rs:982-1046 | the row lookup finds the value of the column that the expression names, or its last part |
| WhereSemantics.ReadsLiteral | src/engine/delete_flow.rs:402-475 | a literal is accepted at a type exactly if what it spells can be stored there, and gives that value: digits by their places, true and false, or the text itself |
| WhereSemantics.AcceptedExactly | src/engine/delete_flow.rs:389-475 | a literal is accepted for a column exactly if the column can hold what it means |
| WhereSemantics.AcceptsExactly | src/engine/delete_flow.rs:264-387 | a clause is accepted exactly if each of its conditions compares a column with values it can hold or tests one for NULL |
| WhereSemantics.ComparisonIsSql | src/engine/delete_flow.rs:906-934 | comparisons agree with SQL, defined on the two expressions, whichever side the column is on |
| WhereSemantics.ComparesCells | src/engine/delete_flow.rs:1048-1064 | the ordering of a cell and a literal of its type is SQL's |
| WhereSemantics.ComparesStrings | src/engine/delete_flow.rs:1058 | string ordering is code point order |
| WhereSemantics.ReadsColumn | src/engine/delete_flow.rs:982-1046 | a readable column of a conforming row reads as its SQL value |
| WhereSemantics.InListExactly | src/engine/delete_flow.rs:939-957 | an accepted IN or NOT IN evaluates exactly if its column is primitive and readable or null in the row, and then agrees with SQL except exactly for NOT IN an empty list on NULL |
| WhereSemantics.IsNullExactly | src/engine/delete_flow.rs:958-965 | an accepted IS NULL or IS NOT NULL evaluates, and correctly, exactly if its column is primitive and readable or null in the row |
| WhereSemantics.AcceptedLiteral | src/engine/delete_flow.rs:389-475 | a literal accepted for a column makes the column one the evaluator can read |
| WhereSemantics.IntLiteralRoundTrip | src/engine/delete_flow.rs:408-465 | every integer literal, negated or not, reads back as itself exactly if it fits the column |
| WhereSemantics.EmptyNotInDisagrees | src/engine/delete_flow.rs:946-956 | a concrete clause and row where NOT IN an empty list differs from SQL |
| WhereSemantics.IsNullOfMissingFails | src/engine/delete_flow.rs:335-342 | IS NULL on a missing column is accepted and then fails |
| WhereSemantics.EmptyInOfMissingFails | src/engine/delete_flow.rs:939-945 | IN an empty list on a missing column is accepted and then fails |
| PositionDeletes.CollectPositionDeletes | src/engine/delete_flow.rs:842-888 | a batch extends each file's positions by its chosen rows in order, and fails exactly if the clause fails on a visible row |
| PositionDeletes.ScanForDeletes | src/engine/delete_flow.rs:519-529 | the same over the whole scan |
| PositionDeletes.CollectsSelected | src/engine/delete_flow.rs:870-886 | a DELETE collects exactly the visible rows that SQL selects |
| PositionDeletes.SkipsDeleted | src/engine/delete_flow.rs:815-840 | no DELETE collects a row that a position delete or an equality delete already removed |
| PositionDeletes.CollectsOnce | src/engine/delete_flow.rs:882-885 | each position is listed once |
| PositionDeletes.NeverBreaks | src/engine/delete_flow.rs:878-881 | an accepted clause in scope never fails on a conforming table |
| PositionDeletes.DeleteRemovesSelected | src/engine/delete_flow.rs:815-840 | after the DELETE exactly the selected rows are gone and the others are unchanged |
| PositionDeletes.RepeatCollectsNothing | src/engine/delete_flow.rs:815-888 | repeating a DELETE collects nothing |
| PositionDeletes.TwoDeletesAreOne | src/engine/delete_flow.rs:902-905 | DELETE p then DELETE q leaves the same rows as DELETE p OR q |
| PageRecency.EvictPassVictims | src/cache/page_cache.rs:175-210 | the victims of a pass are the shortest run of least recently used unpinned pages that makes room, or all of them |
| PageRecency.FailedPassAllPinned | src/cache/page_cache.rs:186-191 | a failed pass leaves only pinned pages and not enough room |
| PageRecency.PassFits | src/cache/page_cache.rs:186-191 | a pass never grows the cache and a successful one makes room |
| PageRecency.PassKeepsPinned | src/cache/page_cache.rs:194-210 | a pass never removes a pinned page |
| PageInsert.PlanAchieves | src/cache/page_cache.rs:134-173 | that outcome, for the plan of an insertion on the recency sequence |
| PageList.UnlinkThreaded | src/cache/page_cache.rs:212-236 | unlinking removes exactly one element from the sequence the links spell out |
| PageList.AppendThreaded | src/cache/page_cache.rs:238-252 | attaching at the tail appends exactly one element |
| PageCache.CacheInner.constructor | src/cache/page_cache.rs:114-124 | an empty cache with the clamped capacity |
| PageCache.CacheInner.Detach | src/cache/page_cache.rs:262-285 | takes one key out of the list and leaves its entry |
| PageCache.CacheInner.AttachTail | src/cache/page_cache.rs:238-252 | puts a detached key behind the others |
| PageCache.CacheInner.MoveToTail | src/cache/page_cache.rs:254-260 | a resident key becomes the most recently used, all else unchanged |
| PageCache.CacheInner.RemoveEntry | src/cache/page_cache.rs:212-236 | removes one key from list, map and size together |
| PageCache.CacheInner.FindVictim | src/cache/page_cache.rs:194-206 | finds the least recently used unpinned page |
| PageCache.CacheInner.EvictOne | src/cache/page_cache.rs:194-210 | evicts it, or reports that there is none |
| PageCache.CacheInner.EvictUntilFits | src/cache/page_cache.rs:186-191 | the loop is the abstract eviction pass |
| PageCache.CacheInner.MaybeEvict | src/cache/page_cache.rs:175-192 | the same behind the probability roll |
| PageCache.CacheInner.Lookup | src/cache/page_cache.rs:126-132 | a hit returns the page, pins it alone and makes it most recent; a miss changes nothing |
| PageCache.CacheInner.Insert | src/cache/page_cache.rs:134-173 | a page that fits beside the others is always stored; otherwise it goes behind what is left once the shortest run of least recently used unheld pages that makes room is gone; with a charge in range it is refused only if the roll says no or every page left is held; size stays within capacity |
| PageCache.CacheInner.InsertResident | src/cache/page_cache.rs:139-155 | growing a resident key, including the case where making room evicts the key itself |
| PageCache.CacheInner.InsertAbsent | src/cache/page_cache.rs:157-172 | storing a new key after making room |
| PageCache.CacheInner.SetCapacity | src/cache/page_cache.rs:287-295 | evicts down to the limit; succeeds exactly if the size fits, and a failure leaves only pinned pages |
| PageCache.LookupThenDrop | src/cache/page_cache.rs:126-132 | dropping the handle a lookup returned gives every pin count back; only the recency order changes |
| PageCache.InsertThenLookup | src/cache/page_cache.rs:126-173 | a stored page is what the next lookup of its key returns, pinned once |
| PagePins.StepKeepsInv | src/cache/page_cache.rs:332-343 | every step, locked or not, keeps pin count = number of live handles |
| PagePins.RunKeepsInv | src/cache/page_cache.rs:380-407 | so does every interleaving |
| PagePins.PinSafety | src/cache/page_cache.rs:194-236 | in every interleaving pin counts equal live handles, never underflow, and a removed page has no live handle |
| BlockAllocator.CacheDir.constructor | src/cache/block_cache.rs:511-538 | all blocks start free |
| BlockAllocator.CacheDir.InitFreeSpaceList | src/cache/block_cache.rs:560-580 | spaces cover the blocks, each queued once |
| BlockAllocator.CacheDir.AllocBlock | src/cache/block_cache.rs:614-629 | returns a free block and takes exactly it, or none exactly if nothing is free |
| BlockAllocator.CacheDir.FreeBlock | src/cache/block_cache.rs:631-648 | makes exactly that block free; freeing twice changes nothing |
| BlockAllocator.CacheDir.UsedBytes | src/cache/block_cache.rs:607-612 | allocated count times block size |
| BlockAllocator.SumFreeIsCount | src/cache/block_cache.rs:607-612 | the sum of the free counts is the number of free blocks |
| BlockAllocator.BlocksDisjoint | src/cache/block_cache.rs:678-692 | distinct blocks occupy disjoint byte ranges |
| BlockAllocator.InitBlockFiles | src/cache/block_cache.rs:582-601 | the opened files share out the quota: all full but the last |
| BlockAllocator.BlockInsideFile | src/cache/block_cache.rs:582-601 | blocks lie inside existing files when block size divides file size or there is one file |
| BlockAllocator.InsideExactly | src/cache/block_cache.rs:678-692 | a block's file exists and holds the whole block exactly if its number is below the full files' blocks plus those that fit the remainder |
| BlockAllocator.AllInsideExactly | src/cache/block_cache.rs:511-601 | every allocatable block lies inside its file exactly if there are no more blocks than that |
| BlockAllocator.SmallCacheInside | src/cache/block_cache.rs:138-140 | with the file size the cache chooses, up to 10 GB of capacity every block lies inside the one file |
| BlockAllocator.UnaddressableBlock | src/cache/block_cache.rs:138-140 | a 30 GB cache of 3 MB blocks whose last block belongs to a file that was never opened |
| BlockAllocator.BlockBeyondShortFile | src/cache/block_cache.rs:138-140 | a cache whose last block is larger than its file |
| BlockStore.CapacityAddressable | src/cache/block_cache.rs:650-692 | for the geometry a cache of any capacity is built with, all its blocks can be written exactly if the files have that many whole blocks |
| BlockStore.AddressableUpTo | src/cache/block_cache.rs:678-692 | the same for any block size, file size and number of files |
| BlockStore.ComputeChecksums | src/cache/block_cache.rs:966-979 | one checksum per slice of the block, zero for slices past the data |
| BlockStore.VerifyChecksums | src/cache/block_cache.rs:981-994 | passes exactly if every slice that starts inside the data was read in full and matches |
| BlockStore.VerifyUnmodified | src/cache/block_cache.rs:981-994 | unmodified data passes if all of it was read, and otherwise runs out of bounds; it is never called a mismatch |
| BlockStore.WriteStores | src/cache/block_cache.rs:650-662 | a written block reads back as written |
| BlockStore.WriteElsewhere | src/cache/block_cache.rs:650-662 | writing one block leaves every other as it was |
| BlockStore.ReadBlock | src/cache/block_cache.rs:664-676 | reading returns the stored bytes or nothing |
| BlockCache.EvictionEndsExactly | src/cache/block_cache.rs:322-336 | an eviction loop ends if and only if the head has an entry, and then after one turn |
| BlockCache.Cache.Touch | src/cache/block_cache.rs:368-390 | changes links only |
| BlockCache.Cache.RemoveEntry | src/cache/block_cache.rs:417-422 | drops the entry and frees its block |
| BlockCache.Cache.AllocateBlock | src/cache/block_cache.rs:322-336 | a free block, or the head's, with the exact conditions for failing and for a loop no number of turns ends |
| BlockCache.Cache.WriteSync | src/cache/block_cache.rs:249-301 | live entries own pairwise distinct allocated blocks and no other block is allocated; a store makes the key resident with its data and touches no other key's; a resident key is always stored; exact conditions for no room and for never ending, and an I/O error only with a block outside every file |
| BlockCache.Cache.Write | src/cache/block_cache.rs:228-247 | the same, with empty data ignored |
| BlockCache.Cache.Read | src/cache/block_cache.rs:179-226 | a hit returns the last bytes written under that full key and index even when keys collide; exact conditions for a miss and for the abort |
| BlockCache.SecondEvictionHangs | src/cache/block_cache.rs:392-422 | from any full cache: one new key is stored and the next one never returns |
| BlockCache.ThirdWriteHangs | src/cache/block_cache.rs:322-336 | from an empty one-block cache the third new key never returns |
| CachedReader.ReadCachedBlock | src/cache/cache_input_stream.rs:63-105 | a hit or a fetch gives the file's own block, and coherence of the cache is kept for every file; it fails exactly if a block must be fetched and the fetch fails, and never returns exactly if a fetched block is stored under a new key while nothing is free and the head has no entry |
| CachedReader.Populate | src/cache/cache_input_stream.rs:86-103 | storing a fetched block keeps coherence whatever comes of it, and never returns exactly under that condition |
| CachedReader.ReadThroughCache | src/cache/cached_reader.rs:191-211 | the block loop returns exactly the range's bytes; it fails only if the remote file can fail, and hangs only by populating a cache with nothing free and a head without an entry |
| CachedReader.ReadBytes | src/cache/cached_reader.rs:169-212 | exactly the requested bytes for every in-range start and length, zero included; overflow and end-of-file errors exactly when they apply, other failures only for those two causes; coherence kept |
| CachedReader.CachedRead.constructor | src/cache/cached_reader.rs:298-306 | an empty buffer at the start offset |
| CachedReader.CachedRead.Refill | src/cache/cached_reader.rs:308-335 | the buffer holds the file's bytes from the current position, and some of them before the end, or one of those two causes applies |
| CachedReader.CachedRead.Read | src/cache/cached_reader.rs:338-356 | fills a prefix of the buffer with the next bytes and leaves the rest; nothing only at the end or for an empty buffer; fails only for those two causes, without moving |
| CachedReader.ReadAll | src/cache/cached_reader.rs:338-356 | for every sequence of buffer sizes the reads concatenate to the file from the start offset; they all succeed unless one of those two causes applies |
| Centroids.FuseConserves | src/common/percentile.rs:56-65 | fusing keeps weight and moment, and the new mean lies between |
| Centroids.MergeSortedCentroids | src/common/percentile.rs:686-708 | sorted, a rearrangement, both sums kept |
| Centroids.FuseAllSums | src/common/percentile.rs:312-334 | compression keeps total weight and moment for any limits |
| Centroids.FuseAllSorted | src/common/percentile.rs:312-334 | compression leaves sorted means within the input's range |
| Centroids.FuseAllGreedy | src/common/percentile.rs:312-334 | each output centroid is a maximal group of neighbours under its limit |
| Centroids.Compress | src/common/percentile.rs:312-334 | the loop computes that compression |
| DigestSize.LimitIsOnePlace | src/common/percentile.rs:312-334 | for an inverse pair of scale functions a weight is within the limit of a group exactly if it lies at most one place after the group's start |
| DigestSize.CompressedGroups | src/common/percentile.rs:312-334 | every output centroid of several inputs spans at most one place |
| DigestSize.CompressedSize | src/common/percentile.rs:96-102 | compression leaves fewer than two centroids per place, the bound that the list of processed centroids is given |
| TDigest.TailIsMax | src/common/percentile.rs:375-377 | the tail segment always yields the maximum |
| TDigest.QuantileBounds | src/common/percentile.rs:346-378 | every quantile lies between minimum and maximum |
| TDigest.QuantileInterpolates | src/common/percentile.rs:346-378 | the value lies on the line between the neighbouring midpoints, from the minimum to the first mean, or is the maximum past the last midpoint; at a midpoint it is that centroid's mean |
| TDigest.QuantileMonotone | src/common/percentile.rs:346-378 | quantiles are monotone across head, middle and tail |
| TDigest.QuantileWithinHistory | src/common/percentile.rs:346-378 | every quantile lies within any range that holds all values ever added |
| TDigestOps.ProcessedOrdered | src/common/percentile.rs:280-344 | processing keeps weight, moment and range, and leaves sorted, bracketed means |
| TDigestOps.AddedOrdered | src/common/percentile.rs:123-130 | adding stands for one more value |
| TDigestOps.AbsorbedOrdered | src/common/percentile.rs:132-155 | merging stands for both histories together |
| TDigestOps.Sketch.constructor | src/common/percentile.rs:96-109 | an empty sketch with its two list limits |
| TDigestOps.Sketch.Add | src/common/percentile.rs:123-130 | the history grows by the value, or nothing changes for a non-positive weight; the sketch has a centroid exactly if something was added, and both lists stay within their limits |
| TDigestOps.Sketch.Merge | src/common/percentile.rs:132-155 | the history grows by the other's; the sketch has a centroid exactly if something was added to either, and both lists stay within their limits |
| TDigestOps.Sketch.Process | src/common/percentile.rs:280-344 | the buffer is emptied into the compressed centroids, fewer than the limit, and the invariant holds |
| TDigestOps.Sketch.UpdateCumulative | src/common/percentile.rs:380-390 | cumulative weights are the prefix midpoints and the total |
| TDigestOps.Sketch.Quantile | src/common/percentile.rs:157-165 | a value exactly if the fraction is valid and something was added, interpolated between the midpoints and within the range of everything added |
| PercentileCodec.DigestRoundTrip | src/common/percentile.rs:167-264 | a serialised digest deserialises to itself |
| PercentileCodec.LowestByteFirst | src/common/percentile.rs:186-209 | byte i of an integer is its digit of 256 to the i |
| PercentileCodec.SerializeBinary | src/common/percentile.rs:167-210 | the writing loops produce that serialisation |
| PercentileCodec.DeserializeBinary | src/common/percentile.rs:212-264 | the reading loops accept and reject what the specification does |
| PercentileCodec.DecodeEncoded | src/common/percentile.rs:578-628 | decoding an encoded state gives the state with its stored digest |
| PayloadFormat.DigestExactly | src/common/percentile.rs:212-264 | bytes are accepted as a digest exactly if they are that digest's serialisation |
| PayloadFormat.DecodesExactly | src/common/percentile.rs:603-628 | the decoder returns a state exactly for the payloads that spell it: nothing for the default, a header for a fresh digest, or a header and the digest |
| PercentileCodec.RoundTripExactly | src/common/percentile.rs:578-628 | decode after encode is the identity if and only if an empty digest is the fresh one of its compression |
| PercentileCodec.RoundTripCounterexample | src/common/percentile.rs:595-600 | a state that does not survive |
| PercentileCodec.EveryStateDecodes | src/common/percentile.rs:603-628 | the decoder can return any state, from a payload that spells an empty digest out |
| PercentileCodec.MergedPayloadSurvivesExactly | src/common/percentile.rs:560-566 | merged into a state without values or quantiles, an accepted payload gives one that survives exactly if an empty digest in it is the fresh one |
| PercentileCodec.MergeAllCompression | src/common/percentile.rs:543-558 | merging any number of states ends with the largest compression among those from the first non-empty one on |
| PercentileCodec.MergeAllDigest | src/common/percentile.rs:549-556 | and with the digest of the last non-empty state: the merge result if one stood before it, else its own |
| PercentileCodec.MergeAllQuantiles | src/common/percentile.rs:543-549 | and with the first quantiles given |
| PercentileCodec.EmptyStaysFresh | src/common/percentile.rs:534-558 | every state reached by the public operations, merging such payloads included, meets that condition |
| PercentileCodec.ReachableRoundTrip | src/common/percentile.rs:462-601 | hence every reachable state survives exactly |
| LiteralBuild.BuildArray | src/engine/insert.rs:179-581 | the builder accepts exactly the supported types whose rows all convert and fit 32-bit offsets, and walking any row gives what its literal means |
| LiteralBuild.BuildInts | src/engine/insert.rs:189-256 | integers from integers, integral floats and numeric text, with out-of-range ones NULL or an error |
| LiteralBuild.BuildStrings | src/engine/insert.rs:359-373 | strings from strings, dates, integers, floats and booleans |
| LiteralBuild.FlattenLists | src/engine/insert.rs:415-443 | offsets, null bits and flat values of a list column; fails exactly on a non-list or beyond 32-bit offsets |
| LiteralBuild.ListRepresents | src/engine/insert.rs:445-452 | the assembled list array represents its rows |
| LiteralBuild.SplitStructs | src/engine/insert.rs:455-485 | null bits and child columns of a struct column; fails exactly on a wrong literal or field count |
| LiteralBuild.StructRepresents | src/engine/insert.rs:487-499 | the assembled struct array represents its rows |
| LiteralBuild.FlattenMaps | src/engine/insert.rs:515-552 | offsets, null bits, keys and values of a map column without NULL-literal keys |
| LiteralBuild.MapRepresents | src/engine/insert.rs:554-574 | the assembled map array represents its rows |
| LiteralMeaning.NullExactly | src/engine/insert.rs:189-206 | a literal becomes NULL exactly if it is NULL or an out-of-range integer in a nullable position |
| LiteralMeaning.IntColumnExactly | src/engine/sql_expr.rs:264-299 | an integer column holds v exactly if the literal means v, as an integer, an integral float or a numeral in text, and v fits |
| LiteralMeaning.TextColumn | src/engine/insert.rs:359-373 | a text column keeps strings and dates, writes integers as numerals that spell them and truth values as 1 and 0, and takes nothing nested |
| LiteralMeaning.FloatIsItsInteger | src/engine/sql_expr.rs:271-291 | a float that is an integer is inserted as that integer |
| LiteralMeaning.NullKeyExactly | src/engine/insert.rs:521-538 | a map gets a NULL key exactly if its key column is a nullable integer column and some key is out of range |
| LiteralMeaning.SpellingRoundTrip | src/engine/insert.rs:173-183 | every value a column can hold is inserted by spelling it as a literal |
| ContainerText.Format | src/common/util.rs:835-1127 | the text of a row is the text of the value found by following offsets and null bits; ContainerRead.ReadsBack says what that text means |
| ContainerText.FormatList | src/common/util.rs:1009-1040 | list items in order, comma separated |
| ContainerText.FormatMap | src/common/util.rs:1074-1104 | map entries in storage order, each key before its value |
| ContainerText.FormatStruct | src/common/util.rs:1105-1127 | struct members with quoted names |
| ContainerText.Quote | src/common/util.rs:1300-1311 | quotes and backslashes escaped |
| ContainerRead.ReadsBack | src/common/util.rs:1009-1127 | a reader that knows the column type gets every value back from its text, keys before values, quotes and backslashes included, whatever follows |
| ContainerRead.InsertThenFormat | src/engine/insert.rs:179-182 | inserted literals come back, row by row, as a text that reads as exactly what they mean |
| DecimalText.DecimalRoundTrip | src/common/util.rs:1430-1456 | for every 128-bit value and scale 0 to 38 (the smallest value only at scale 0) both parsers return exactly what was printed |
| DecimalText.InsertParsesPrinted | src/engine/insert.rs:674-712 | the INSERT parser on every printed decimal with a fraction |
| DecimalText.EqualityParsesPrinted | src/engine/equality_delete_flow.rs:480-516 | the equality-delete parser on every printed decimal with a fraction |
| DecimalText.EqualityParsesInteger | src/engine/equality_delete_flow.rs:480-516 | the same for printed integers, the smallest one included |
| DecimalText.InsertParsesText | src/engine/insert.rs:674-712 | on every dotted text the INSERT parser gives the value cut off at the scale, and an error exactly if the value or the fraction's digits exceed 128 bits or the fraction is more than 38 digits longer than the scale |
| DecimalText.ShortFractionTakes | src/engine/insert.rs:698-699 | with at most scale fraction digits only the value itself can overflow |
| DecimalText.EqualityParsesText | src/engine/equality_delete_flow.rs:480-516 | on every dotted text the equality-delete parser gives the exact value if it has at most scale fraction digits and fits, the smallest integer included, and an error otherwise |
| ThriftJson.EventsPushTranslation | src/common/thrift.rs:159-347 | for every value tree and starting stack the write events act like one push of the direct translation |
| ThriftRead.ReadsBack | src/common/thrift.rs:159-347 | a reader that knows the type gets every value back from its translation |
| ThriftRead.TreeDetermines | src/common/thrift.rs:349-356 | hence no two values of one type leave the protocol with the same tree |
| ThriftJson.NamedJsonOutputProtocol.PushValue | src/common/thrift.rs:160-193 | the in-place push is the specified one |
| ThriftJson.NamedJsonOutputProtocol.PopContainerValue | src/common/thrift.rs:195-220 | popping yields the closed container, or null |
| ThriftJson.NamedJsonOutputProtocol.Emit | src/common/thrift.rs:223-347 | each write event changes the protocol state as specified |
| ThriftJson.RewriteRemovesUniqueIds | src/common/thrift.rs:35-52 | the rewrite leaves no two-field hi/lo integer object |
| ThriftJson.RewriteIdempotent | src/common/thrift.rs:35-52 | rewriting twice is rewriting once |
| ThriftJson.UuidInjective | src/common/types.rs:39-48 | distinct ids get distinct UUID texts |
| ThriftJson.UuidReadsBack | src/common/types.rs:39-48 | a UUID text has five dashed groups of hexadecimal digits that read as hi and then lo |
| ThriftJson.UniqueIdExactly | src/common/thrift.rs:25-33 | an object is a unique id exactly if it holds the 64-bit integers hi and lo and nothing else, and its text spells them |
| ThriftRead.ReplacesInPlace | src/common/thrift.rs:35-52 | the rewrite replaces each unique id where it stands; every other node keeps its place and keys or length, and leaves their value |
| ThriftJson.NamedJsonOf | src/common/thrift.rs:349-356 | from an empty protocol a value's events leave exactly its translation |
| ThriftJson.ThriftNamedJson | src/common/thrift.rs:349-356 | the whole path yields the rewritten translation |

## Left out

- Files, object stores, direct I/O, aligned buffers and clocks: a block file is a map of bytes, a remote read returns the range or fails.
- `run_iceberg_commit`, the data writers, the Iceberg reader and the query executor: a commit is one atomic step, a writer is any order-preserving split into fresh paths, and the match query returns visible rows under the ids the reader gives them.
- Copy-on-write on branches, MERGE's two commits, CTAS, truncate, expire and ref handling: orchestration of code outside this model.
- Files without a first row id: tables here are format version 3 tables whose files all have one.
- The `first_row_id` a copy-on-write commit assigns: any assignment, since the rewritten rows store their ids. A touched file's data sequence number, optional in the source, is a plain integer.
- Batches of 2^32 or more matched rows, whose indices the source truncates to 32 bits.
- Errors of the equality-delete lookup: an equality delete is a total predicate on rows.
- The partition lookup of DELETE: the same lookup as in `MorCommit.BuildDeleteGroups`.
- The `Predicate` built by `translate_where`, which the source discards: only its acceptance is modelled. Identifiers are lower-cased in ASCII only.
- PageCache.CacheInner.Insert: with a capacity of exactly the largest machine integer, the charges together must not exceed it; there saturating addition hides the overflow. Below that capacity nothing is assumed.
- PagePins.PinSafety: fewer than 2^64 live handles.
- BlockCache.Cache.WriteSync: data is at most one block long, which the source does not test and its only caller guarantees.
- Concurrent interleavings of block-cache reads and writes, and its LRU order: the source releases the lock between lookup and disk read and does not maintain the list on removal.
- CachedReader.ReadCachedBlock: populates synchronously; the asynchronous populate queue is not modelled. Cache keys are taken to identify files.
- The coalescing remote reader used when the data cache is off: it reads the range.
- Hash, checksum and scale functions are arbitrary functions.
- TDigest.QuantileMonotone: exact reals; single-precision rounding, NaN and infinities are not modelled.
- DigestSize.CompressedSize: for every inverse pair of scale functions; that the source's arcsine and sine are such a pair is not proved. `DigestSize.EqualSteps` shows that such pairs exist.
- The version 3 percentile payload: decoding reports it as such.
- PercentileCodec.EmptyStaysFresh: what the sketch arithmetic produces is any non-empty digest; that it is not empty is proved over exact reals (`TDigestOps.Sketch.Add`, `TDigestOps.Sketch.Merge`).
- PercentileCodec.MergeAllCompression: a merge that fails on differing quantiles changes nothing and is not part of the sequence.
- LiteralBuild.BuildArray: floating-point, date, time, decimal and binary columns are not modelled; a float literal is an exact value with the text it prints as. Nor are the array constructors' aborts on NULLs in non-nullable fields, which only shrink what is accepted.
- ContainerText.Format: JSON-typed items and the other scalar types are not rendered.
- The JSON rewrite works on values instead of in place.
- ThriftRead.ReadsBack: the fields of one struct have distinct names, as generated code gives them; of a repeated name the source keeps the last value.
- Setting the eviction probability, aggregate-table merging, `generate_series`, predicate rescaling and length-encoded integers: they would only add easy members.
