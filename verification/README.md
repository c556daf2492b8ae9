# ribs2: models and proofs

This project models the data structures at the core of RIBS2, a C library for back-end servers, and
proves what they promise their callers: three growing hash tables, the column indexes and column files
built on them, the timeout chain of the event loop, the arena allocator, the mirrored ring, the indirect
heap, bit vectors, the JSON event parser and the base64 codec.

`dafny verify dfyconfig.toml` checks all of it.

## How the parts fit together

**Open addressing.** All three hash tables use the same scheme: linear probing over bucket vectors that
double and are never copied, rehashing in two passes that start at a free bucket, and removal without
tombstones. `Probing` treats that scheme on plain sequences of slots. A table is *ordered* when every
entry can be reached from its ideal bucket without crossing a free one. Rehashing and chain repair are
both runs of one step, "take an entry out and put it into the first free slot from its ideal slot on",
and `MoveStep` is the invariant of that step. `Segments` proves that bucket numbers and places in the
vectors correspond one to one. `BucketStore` holds the buckets of `hashtable` and `lhashtable` in byte
memory, with the loops of the C code, and `THashBuckets` those of `thashtable` in separate vectors.
`HashIndex` relates an ordered table to the records it refers to.

**Records in memory.** `HashRecords` and `HashTable` model src/hashtable.c down to the bytes: a header,
bucket vectors, records, and a free list threaded through removed records. `LHashRecords`, `LHashSub` and
`LHashTable` do so for src/lhashtable.c: 256 sub-tables in one memory, packed 32-bit record references,
free lists by size class, and data blocks that are filled from the front. In both, every byte carries a
ghost tag that says which record or which table's buckets it belongs to (`Ownership`), so that no two
regions can meet and a write to one record leaves all the others as they were.

**Indexes and files.** `Postings` sorts and groups (key, row) pairs; `FixedIndex` and `VarIndex` are the
generated indexes over columns of ordered keys and of byte strings. `FileWriter` is the windowed file
writer and `VarField` the column file written through it and its reader.

**The others** stand alone: `TimeoutChain`, `Mempool` and `Arena`, `Ring`, `Heap`, `BitVect`, `Json`,
`Base64`. `Words` has bytes, words and powers of two, and `Options` results that may be missing.

## What the code does not meet, and exactly when it does

- A rolling push of a record larger than both the free space and the contents breaks the ring; the lemma
  `Ring.RollingIsSafe` gives the exact condition, and `Ring.RollingMixedSizes` an input for which the
  write location falls below the buffer.  Records of one size always meet it (`Ring.RollingRecord`).
- The file writer bounds a copy by the end of the file and not by the end of its window. After a seek
  backwards a write can leave the window, and after a seek to the very end of a file of whole windows a
  write never comes to an end. `FileWriter.WriteIsInsideWhen` gives the exact condition and
  `FileWriter.WriteCrossesWindow` a run, from a new file, that does not meet it; files written from front to back always meet it
  (`FileWriter.AtEndInside`).
- The binary search of the indexes adds two 32-bit positions. `FixedIndex.SearchEndsWhen` shows that the
  search ends at the key, for every key of a table, exactly when the table has at most 2^31 keys; in a
  larger one the search for the last key never ends (`FixedIndex.LastKeyNeverEnds`).
- A raw arena allocation of 2024 bytes or less is refused, because the pool has no chunk below a page;
  the contract of `Arena.Arenas.AllocRaw` has both bounds.
- Resetting an arena with the buffer type only, as src/context.c:79 does, forgets its other blocks
  without giving them back: their chunks stay handed out (`Arena.Arenas.Reset`), and what was handed out
  in them stays valid.
- Unescaping in place runs past the terminating NUL of a text exactly when the text ends in an odd number
  of backslashes (`Json.UnescapeStaysInside`; `Json.UnescapeRunsPast` is an input). What the parser's
  string scanner delimits never does (`Json.ScannedIsEscaped`).
- The timeout handler can be woken while an entry is there and find nothing due. At its deadline it does so
  exactly when the pass before it left only entries that are shut down already and others were added later
  (`TimeoutChain.InVainWhen`; `TimeoutChain.WokenInVain` is such a run). Unless entries are removed, this
  happens at most once in a timeout (`TimeoutChain.TimeoutHandler.RunUndisturbed`).
- The list of set bits of a bit vector has 32-bit positions; it is right exactly when no bit from 2^32 on
  is set (`BitVect.ListedWhen`; `BitVect.ListedWrongly` is an input).

## Model

| member | source | states |
|---|---|---|
| Segments.LocateIsOnto | src/hashtable.c:84-95 | every bucket number is the start of its vector plus an offset inside that vector |
| Segments.LocateIsOneToOne | src/_lhashtable.c:122-129 | every place inside a vector belongs to exactly one bucket number, so bucket addressing is a bijection |
| Probing.MoveStep | src/thashtable.c:49-71 | taking an entry out and putting it into the first free slot from its ideal one on keeps all other entries reachable |
| Probing.ProbeIsExhaustive | src/thashtable.c:193-211 | in an ordered table a probe that ends at a free slot has passed every entry of that ideal slot |
| Probing.InsertKeepsOrder | src/thashtable.c:109-136 | filling the free slot at which the probe of a key ends keeps the table ordered |
| Probing.IdealDoubles | src/_lhashtable.c:163-183 | doubling the mask moves an ideal bucket either nowhere or up by the old capacity |
| Probing.PassStep | src/_lhashtable.c:135-161 | each bucket of the two rehashing passes keeps the pass invariant: entries conserved, those dealt with reachable under the new mask |
| Probing.SecondPassEnds | src/_lhashtable.c:163-183 | after both passes the doubled table is ordered and holds exactly the old entries |
| Probing.TurnStep | src/hashtable.c:97-134 | each relocation of the rehashing keeps entries of one hash in the order in which a probe met them before |
| Probing.InsertKeepsTurn | src/hashtable.c:194-218 | an entry put into the free slot that ends its probe comes last of its hash |
| Probing.RepairMove | src/lhashtable.c:261-286 | one step of the chain repair keeps the repair invariant, across the wraparound |
| Probing.RepairEnds | src/lhashtable.c:261-286 | the repair stops at the first slot that was free before the removal; then exactly the removed entry is gone and all others are reachable |
| BucketStore.MoveBucketsRange | src/hashtable.c:97-119 | the byte-level rehashing loop carries the pass invariant from its first to its last bucket and writes nothing outside the bucket vectors |
| BucketStore.Rehash | src/hashtable.c:121-134 | skipping to the first free bucket and running both passes reorders a doubled table without losing, adding or duplicating an entry; entries of one hash keep their turn |
| BucketStore.FixChainDown | src/hashtable.c:276-300 | the byte-level repair loop ends at the first bucket that was free before, with exactly the removed entry gone |
| BucketStore.ForEach | src/hashtable.c:334-349 | the walk over the vectors calls back for every entry once, in bucket order, up to the first negative answer |
| HashIndex.ProbeFails | src/hashtable.c:255-274 | a probe that ends at a free bucket without a match proves the key absent |
| HashIndex.FirstMatch | src/hashtable.c:255-274 | while entries of one hash stand in the order of their records, a probe finds the first record of a key |
| HashIndex.IndexReplace | src/thashtable.c:138-162 | replacing the record of an entry keeps the index, with one key's value changed |
| HashRecords.AllocFresh | src/hashtable.c:151-159 | a region appended for a record is apart from everything and leaves all records, links and buckets as they were |
| HashRecords.Unlink | src/hashtable.c:136-149 | unlinking a removed record of the right size keeps the list, whose links overlay the record headers, intact |
| HashRecords.Released | src/hashtable.c:302-332 | a record that leaves the table becomes the head of the free list and nothing else changes |
| HashRecords.Grown | src/hashtable.c:121-134 | growing keeps every record at its offset with its bytes |
| HashRecords.RegionsApart | src/hashtable.c:136-159 | live and removed records and bucket vectors have no byte in common |
| HashTable.HashTable.constructor | src/hashtable.c:37-60 | a valid empty table, with the capacity the initial size asks for |
| HashTable.HashTable.Grow | src/hashtable.c:121-134 | the capacity doubles; records, offsets and free list are the same |
| HashTable.HashTable.CheckResize | src/hashtable.c:161-165 | grows exactly when the table is half full; then one more entry fits |
| HashTable.HashTable.Find | src/hashtable.c:255-274 | finds the bucket of the key if and only if the key is in the table, else the free bucket that ends its run |
| HashTable.HashTable.Lookup | src/hashtable.c:255-274 | 0 if and only if the key is absent, else the offset of its record; of its first record, as long as nothing was recycled |
| HashTable.HashTable.AllocFromFreelist | src/hashtable.c:136-149 | takes the first removed record of exactly the requested key and value size, or none if there is no such record |
| HashTable.HashTable.AllocRec | src/hashtable.c:151-159 | a recycled region has exactly the requested size and needs no space; otherwise the region is new, within 32-bit offsets |
| HashTable.HashTable.InsertAlloc | src/hashtable.c:194-218 | one more record with the key and a value of the requested size, whether the key is there already or not; all other records and offsets are the same |
| HashTable.HashTable.Insert | src/hashtable.c:167-192 | one more record, with this key and value, at an offset no live record has, whether the key is there already or not; all others are the same |
| HashTable.HashTable.LookupInsert | src/hashtable.c:220-253 | the record of the key, entered only if there was none; otherwise nothing at all changes and no space is needed |
| HashTable.HashTable.Remove | src/hashtable.c:302-332 | exactly the record of the key leaves and heads the free list; 0 and no change if there is none |
| HashTable.HashTable.ForEach | src/hashtable.c:334-349 | every live record exactly once, or up to the first negative answer |
| HashTable.HashTable.GetRec | src/_hashtable.c:56-59 | key and value of a record, as they were stored |
| HashTable.HashTable.RecordsApart | src/hashtable.c:136-159 | in every valid table the regions of records and buckets are disjoint |
| HashTable.HashTable.Perform | src/hashtable.c:136-332 | one operation is one step of a plain map from offsets to records, which any other offset outlives; it is carried out exactly unless a new record finds neither a removed one of its size nor space |
| HashTable.HashTable.Run | src/hashtable.c:136-332 | over any run of insertions, growth and removals of other keys an offset keeps naming the same key and value |
| LHashRecords.AbsOfsInjective | src/_lhashtable.c:89-91 | different packed references of one sub-table decode to different addresses |
| LHashRecords.RefFits | src/_lhashtable.c:105-120 | an allocated record has a packed reference that is never zero and fits its bit fields |
| LHashRecords.SubGrown | src/_lhashtable.c:163-183 | doubling one sub-table keeps its records and all other sub-tables |
| LHashRecords.Bumped | src/_lhashtable.c:105-120 | a region cut from the current block is new, apart from all others, and leaves the rest as it was |
| LHashRecords.Popped | src/_lhashtable.c:93-103 | the head of a size class's free list is a region of exactly that size; the rest stays a list without cycles |
| LHashRecords.Released | src/lhashtable.c:288-321 | a deleted record joins the free list of its own size class |
| LHashSub.ResizeIfNeeded | src/_lhashtable.c:163-183 | grows exactly when the sub-table is half full, with the same records |
| LHashSub.SubAlloc | src/_lhashtable.c:105-120 | a region of the requested size: the head of its free list and no other change, else cut from the current block if it fits there, else from one new block; the other sub-tables keep every byte |
| LHashSub.HoldsUpTo | src/_lhashtable.c:105-120 | with records of one size a sub-table refuses one only when as many keys are in use as fit into all its blocks |
| LHashSub.Put | src/lhashtable.c:105-167 | within one sub-table: the key has this value, other keys are unchanged; an overwrite in place allocates nothing, and memory grows by the doubled buckets and at most one block |
| LHashSub.PutKey | src/lhashtable.c:169-235 | within one sub-table: the value gets the new length and keeps the common prefix; within its region it needs no room |
| LHashSub.Del | src/lhashtable.c:288-321 | within one sub-table: exactly this key is gone |
| LHashTable.UnionSize | src/lhashtable.c:351-353 | the counter in the header is the number of keys over all sub-tables |
| LHashTable.AllOffsetsExact | src/lhashtable.c:323-349 | the offsets reported are those of all live records, each once |
| LHashTable.RecordsApart | src/_lhashtable.c:80-120 | records of any two sub-tables, live or free, are disjoint from each other and from all bucket vectors |
| LHashTable.VectorsApart | src/_lhashtable.c:122-183 | the bucket vectors of two sub-tables, and any two of one sub-table, have no byte in common |
| LHashTable.LHashTable.constructor | src/lhashtable.c:32-90 | 256 empty sub-tables, an empty map |
| LHashTable.LHashTable.Put | src/lhashtable.c:105-167 | the table becomes the old map with key set to val, also in a full sub-table if the record stays in its region; only the sub-table of the key is touched, and its blocks as needed |
| LHashTable.LHashTable.PutKey | src/lhashtable.c:169-235 | the value has the new length and keeps the bytes both lengths have; tells whether the key is new |
| LHashTable.LHashTable.Get | src/lhashtable.c:237-259 | 0 if and only if the key is absent, else an offset that shows key and current value |
| LHashTable.LHashTable.Del | src/lhashtable.c:288-321 | the old map without the key; 0 if it was there, else -1 |
| LHashTable.LHashTable.ForEach | src/lhashtable.c:323-349 | every live record exactly once over all sub-tables, or up to the first negative answer |
| LHashTable.LHashTable.Perform | src/lhashtable.c:105-321 | one operation is one step of a plain map; it is carried out exactly unless a put needs a region and there is no room, or a record or the number of keys is too large |
| LHashTable.LHashTable.Run | src/lhashtable.c:105-353 | over every run of put, put_key, get and del, up to a put that does not fit, the table refines a map and counts its keys; with records of one size a sub-table refuses none before its 4096 blocks are full of live ones |
| THashBuckets.PutSlots | src/thashtable.c:37-47 | writing one bucket through the segmented addressing changes that slot and no other |
| THashBuckets.MoveBucketsRange | src/thashtable.c:49-71 | the rehashing loop keeps the pass invariant |
| THashBuckets.Grow | src/thashtable.c:73-84 | the doubled table is ordered with the same entries |
| THashBuckets.FixChainDown | src/thashtable.c:213-237 | the repair ends at the first bucket that was free before, with exactly the removed entry gone |
| THashBuckets.ForEach | src/thashtable.c:267-281 | every record once, vector by vector, up to the first negative answer |
| THashTable.THashTable.constructor | src/thashtable.c:29-35 | an empty map |
| THashTable.THashTable.CheckResize | src/thashtable.c:94-98 | the buckets double exactly when the table is more than half full; then one more entry fits, and the records are the same |
| THashTable.THashTable.SizeIsCount | src/thashtable.c:109-162 | the size field is the number of keys |
| THashTable.THashTable.Insert | src/thashtable.c:109-136 | a new key is entered, for an existing one no record is touched, and which of the two is reported |
| THashTable.THashTable.Put | src/thashtable.c:138-162 | the map with key set to val, whether the key was there or not |
| THashTable.THashTable.InsertAlloc | src/thashtable.c:164-191 | null if and only if the key exists with a value of another size |
| THashTable.THashTable.Lookup | src/thashtable.c:193-211 | null if and only if the key is absent, else its record |
| THashTable.THashTable.Remove | src/thashtable.c:239-265 | the map without the key; the removed record is returned and can still be read |
| THashTable.THashTable.Run | src/thashtable.c:109-265 | over every run of put, insert and remove the table refines a map, counts its keys, and keeps every record readable |
| THashTable.THashTable.ForEach | src/thashtable.c:267-281 | every live record exactly once, or up to the first negative answer |
| Postings.SortAscends | include/var_index_gen.h:39-43 | the entries in the order of the comparison: by key, then by row |
| Postings.FiledIsRows | src/code_gen/ds_code_gen_index_gen.c:96-109 | the rows filed under a key are exactly the ascending rows a full scan finds |
| Postings.Group | src/code_gen/ds_code_gen_index_gen.c:96-109 | a record for every key of the column, in order, with exactly its ascending rows |
| FixedIndex.LastKeyNeverEnds | src/code_gen/ds_code_gen_index_container.c:133-149 | with more than 2^31 keys, after any number of rounds the search for the last key still has an open interval |
| FixedIndex.SearchEndsWhen | src/code_gen/ds_code_gen_index_container.c:35-51 | the loop ends at the key, for every key of the table, if and only if there are at most 2^31 keys |
| FixedIndex.Bsearch | src/code_gen/ds_code_gen_index_container.c:35-51 | the position of the key, or a proof that it is not there |
| FixedIndex.GenerateO2M | src/code_gen/ds_code_gen_index_gen.c:85-120 | the generated index groups the rows of the column by key |
| FixedIndex.LookupO2M | src/code_gen/ds_code_gen_index_container.c:151-161 | exactly the rows of the key, ascending, or nothing if and only if no row has it |
| FixedIndex.GenerateO2O | src/code_gen/ds_code_gen_index_gen.c:58-83 | one record for each key, with its smallest row |
| FixedIndex.LookupO2O | src/code_gen/ds_code_gen_index_container.c:76-80 | the smallest row that holds the key, or nothing if and only if no row does |
| FixedIndex.FindO2M | src/code_gen/ds_code_gen_index_gen.c:85-147 | generate followed by lookup equals a full scan |
| FixedIndex.FindO2O | src/code_gen/ds_code_gen_index_gen.c:58-147 | generate followed by lookup gives the first row of a full scan |
| VarIndex.KeyTable | include/var_index_gen.h:92-111 | every row is given the offset of its key's record, which stays right while the table grows |
| VarIndex.AllEntered | include/var_index_gen.h:45-71 | once all groups are entered, the value of every record leads to exactly the rows of its key |
| VarIndex.Generate | include/var_index_gen.h:45-116 | the index leads from every key to exactly its ascending rows |
| VarIndex.Lookup | include/var_index_container.h:64-75 | exactly the ascending rows that hold the key, or nothing if and only if no row does |
| VarIndex.GenerateO2O | include/var_index_gen.h:118-147 | a record for every row, repeated keys included, in the order of the rows, also for a probe through the growing table |
| VarIndex.LookupO2O | include/var_index_container.h:77-83 | the first row that holds the key, or nothing if and only if no row does |
| VarIndex.FindO2O | include/var_index_gen.h:118-147 | generate followed by lookup gives the first row of a full scan |
| TimeoutChain.Sweep | src/timeout_handler.c:37-57 | a pass that stops at the first young entry marks exactly the entries that are due, and arms the timer for the least timeout of the others, or for a whole timeout if there are none |
| TimeoutChain.ShutByIsDue | src/timeout_handler.c:39-52 | a connection is shut down if and only if it is due, never early |
| TimeoutChain.InVainWhen | src/timeout_handler.c:37-57 | a pass at its deadline finds nothing due if and only if the one before it left only marked entries and the others came later |
| TimeoutChain.WokenInVain | src/timeout_handler.c:37-57 | a run that ends with such a pass |
| TimeoutChain.TimeoutHandler.constructor | src/timeout_handler.c:62-79 | an empty chain, no timer armed |
| TimeoutChain.TimeoutHandler.Add | src/_timeout_handler.c:23-31 | appends the entry and arms the timer if and only if the chain was empty; the chain stays sorted |
| TimeoutChain.TimeoutHandler.Remove | include/timeout_handler.h:42-43 | removes one entry; order and timer bound are kept |
| TimeoutChain.TimeoutHandler.Expire | src/timeout_handler.c:30-59 | afterwards no unmarked entry is due, none was shut down early, and the timer is armed for exactly the oldest entry that is left, or a whole timeout if all are marked |
| TimeoutChain.TimeoutHandler.Run | src/timeout_handler.c:23-60 | over every run: entries sorted, timer armed no later than the oldest entry's timeout, no early shutdown |
| TimeoutChain.TimeoutHandler.Perform | src/timeout_handler.c:30-60 | one event does to chain and shutdowns what a plain list says, and if it comes promptly nothing gets late |
| TimeoutChain.TimeoutHandler.RunPromptly | src/timeout_handler.c:30-60 | over every run in which the handler gets to run within a latency of its timer, every connection is shut down within that latency of its timeout |
| TimeoutChain.TimeoutHandler.RunUndisturbed | src/timeout_handler.c:30-60 | over every run without removals a pass that finds nothing due comes a whole timeout after the one before it |
| Mempool.TakeFree | src/mempool.c:51-66 | a chunk taken from a list was not handed out, and every chunk is still in exactly one place |
| Mempool.GiveBack | src/mempool.c:68-77 | a chunk given back goes to the list of its own size, and every chunk is still in exactly one place |
| Mempool.ValidSizeIs | src/mempool.c:43-49 | the sizes accepted are exactly the powers of two from 2^12 to 2^31 |
| Mempool.Mempool.AllocChunk | src/mempool.c:51-66 | a chunk of that size that nobody has, or a refusal if and only if the size is not a power of two in range; it is the head of its list, and memory is mapped only if that is empty |
| Mempool.Mempool.FreeChunk | src/mempool.c:68-77 | the chunk is no longer handed out and heads the list of its size |
| Mempool.Mempool.GiveAndTake | src/mempool.c:51-77 | a chunk that is given back is the next of its size to be handed out, and the pool is as before |
| Arena.Arenas.NewBlock | src/memalloc.c:26-43 | the next block is twice the last one, up to the largest chunk; it is the chunk the pool hands out next, and other arenas are unchanged |
| Arena.Arenas.ResizeIfLess | src/_memalloc.c:32-37 | blocks of doubled sizes are taken until the first that is large enough, and none if the current one is |
| Arena.Arenas.Alloc | src/_memalloc.c:32-50 | exactly the size asked for is cut from the front of what is left, in the current block if it fits there; null exactly when no block can be large enough, or nothing is asked of an empty arena |
| Arena.Arenas.AllocEach | src/_memalloc.c:39-50 | allocations that add up to no more than is left of a block lie one behind the other and take no chunk |
| Arena.Arenas.AllocRaw | src/memalloc.c:58-71 | the least power of two that holds size and header, exactly when that lies between 2 KB and the largest chunk; nothing changes otherwise |
| Arena.Arenas.FreeRaw | src/memalloc.c:73-77 | the block's chunk goes back and the regions in it are gone; all others stay |
| Arena.Arenas.Reset | src/_memalloc.c:52-69 | the arena is empty; exactly the blocks of the given type or above go back |
| Arena.Arenas.HandedOutDisjoint | src/_memalloc.c:44-50 | no two regions handed out overlap, in or across arenas |
| Arena.Arenas.BlocksOnce | src/memalloc.c:26-77 | no block is in two arenas or twice in one |
| Arena.Arenas.Run | src/memalloc.c:26-77 | all of that over any run of the operations over several arenas |
| FileWriter.SeekReaches | src/_file_writer.c:85-108 | a seek leaves the window around the location; it lies inside the file except behind a file of whole windows |
| FileWriter.WriteIsInsideWhen | src/_file_writer.c:110-121 | every copy stays inside the window, and the write ends, if and only if the window is the last one or the write does not cross it |
| FileWriter.WriteCrossesWindow | src/_file_writer.c:24-121 | a new file, one window written, a seek to the start and a write of one byte more than a window: it leaves the window |
| FileWriter.AtEndInside | src/_file_writer.c:110-121 | sequential writes never leave the window, whatever their size |
| FileWriter.SeekAndReturn | src/_file_writer.c:85-108 | seeking to the start and back restores the window |
| FileWriter.AlignsInside | src/_file_writer.c:123-125 | in every state of the writer the next multiple of 8 is not beyond the end of the window |
| FileWriter.FileWriter.constructor | src/_file_writer.c:24-54 | a window that is a power of two of at least 4096 bytes, at the start of a zeroed file |
| FileWriter.FileWriter.Wseek | src/_file_writer.c:68-83 | the window moves on exactly at its end and the file grows by zeros |
| FileWriter.FileWriter.Lseek | src/_file_writer.c:85-108 | the window of the location asked for, absolute or relative, and the file grown by zeros as far as needed; from the end it is refused and nothing changes |
| FileWriter.FileWriter.Write | src/_file_writer.c:110-121 | exactly the bytes at the write location change, over any number of windows; a writer at the end of its file stays there |
| FileWriter.FileWriter.Align | src/_file_writer.c:123-125 | from any location, the next multiple of 8, with nothing written but zeros behind the end |
| VarField.FormatOpens | src/ds_var_field.c:35-59 | every finalised file passes the reader's checks with the right number of rows |
| VarField.FormatReads | src/_ds_var_field.c:20-26 | reading row i of a finalised file gives back exactly its bytes |
| VarField.UnfinishedIsRefused | src/ds_var_field.c:73-82 | a file that was not finalised is refused |
| VarField.VarFieldWriter.constructor | src/ds_var_field.c:73-82 | a header with negated type and no rows |
| VarField.VarFieldWriter.NewRow | src/_ds_var_field.c:51-55 | starts an empty row at the write location |
| VarField.VarFieldWriter.Append | src/ds_var_field.c:89-91 | the bytes go to the last row |
| VarField.VarFieldWriter.Write | src/ds_var_field.c:84-87 | one more row with these bytes |
| VarField.VarFieldWriter.Close | src/ds_var_field.c:93-113 | the file is exactly the finalised format: patched header, rows, padding, offset table |
| VarField.WriteColumn | src/ds_var_field.c:73-113 | for any rows, each a write and appends, the file is accepted and every row reads back as it was written |
| Ring.Ring.constructor | src/ringfile.c:104-128 | an empty ring |
| Ring.Ring.Push | src/_ringbuf.c:62-66 | the bytes come behind the contents, across the wrap; dropped bytes for which there is still room stay |
| Ring.Ring.Pop | src/_ringbuf.c:56-60 | the oldest bytes, in the order in which they were pushed |
| Ring.Ring.Rseek | src/_ringbuf.c:36-42 | drops the oldest bytes; the read location stays below the capacity |
| Ring.Ring.RseekReverse | src/_ringfile.c:73-79 | exactly the bytes dropped last come back in front of the contents |
| Ring.Ring.PopAndTakeBack | src/_ringfile.c:73-101 | a reverse seek undoes a pop, locations and contents |
| Ring.Ring.PopPushTakeBack | src/_ringfile.c:73-101 | after a pop and pushes that leave room for the popped bytes, a reverse seek puts exactly those bytes back |
| Ring.Ring.Run | src/_ringbuf.c:56-66 | over any run of pushes and pops, what was popped and what is left is what was there and what was pushed, in order |
| Ring.Ring.RollingPush | src/_ringbuf.c:68-72 | the oldest bytes make room for the new ones, when they do not fit |
| Ring.RollingIsSafe | src/_ringbuf.c:68-72 | the ring stays in order if and only if there is room or at least as many bytes can be dropped |
| Ring.RollingMixedSizes | src/_ringbuf.c:68-72 | an input for which the write location falls below the buffer |
| Ring.RollingRecord | src/_ringbuf.c:68-72 | with records of one size a rolling push drops exactly the oldest record, when the ring is full |
| Ring.Ring.PushRecords | src/_ringbuf.c:68-72 | any run of rolling pushes of one size leaves exactly the newest records that fit, whole |
| Ring.Ring.Resize | src/ringfile.c:58-102 | without an evictor, exactly the newest bytes that fit the page-aligned new capacity |
| Heap.TopIsMax | src/_heap.c:27-32 | in heap order nothing is larger than the top |
| Heap.SinkStep | src/_heap.c:34-56 | one sift-down swap with the largest child keeps heap order everywhere else |
| Heap.RiseStep | src/heap.c:73-84 | one sift-up swap keeps heap order everywhere else |
| Heap.Heap.constructor | src/heap.c:28-47 | an empty heap over identity offsets |
| Heap.Heap.Top | src/_heap.c:27-32 | the element at the top, which is a maximum of all live elements |
| Heap.Heap.FixDown | src/_heap.c:34-56 | extends heap order by one position, only permuting live offsets |
| Heap.Heap.Build | src/_heap.c:87-91 | any live elements are brought into heap order, each in its slot |
| Heap.Heap.RemoveTop | src/_heap.c:93-107 | exactly a maximum leaves and all others keep their slots; nothing happens to an empty heap |
| Heap.Heap.Insert | src/heap.c:54-91 | the element is stored in the returned slot, the first free one; all others keep theirs, and the heap doubles exactly when it is full |
| Heap.Heap.Drain | src/_heap.c:27-107 | taking tops until the heap is empty lists every element once, none larger than the one before |
| Heap.Heap.Run | src/_heap.c:27-107 | over every run of insertions and removals the heap refines a plain map from slots to elements: each stays in its slot until it is a maximum and is taken |
| Heap.RunConserves | src/heap.c:54-91 | over every such run, what was there and what was inserted is what was taken and what is left, as multisets |
| BitVect.OrBits | include/bitvect.h:34 | bitwise or, bit by bit |
| BitVect.MarkEachSets | include/bitvect.h:109-119 | the plain loop sets exactly the indexed bits |
| BitVect.MarkEachUnordered | include/bitvect.h:109-119 | order and repetitions of the index do not matter |
| BitVect.BatchStep | include/bitvect.h:121-140 | collecting a bit for the pending block is setting it |
| BitVect.ListingMembers | include/bitvect.h:152-168 | the list of set bits holds exactly the set bits |
| BitVect.ListingOrder | include/bitvect.h:152-168 | it is strictly increasing |
| BitVect.ListedWhen | include/bitvect.h:152-168 | the list as 32-bit words is the list of set bits if and only if no bit from 2^32 on is set |
| BitVect.ListedWrongly | include/bitvect.h:152-168 | a vector with only bit 2^32 set is listed as bit 0 |
| BitVect.BitVect.constructor | include/bitvect.h:49-54 | enough blocks, no bit set |
| BitVect.BitVect.Set | include/bitvect.h:74-78 | exactly one more bit is set |
| BitVect.BitVect.Reset | include/bitvect.h:93-97 | exactly this bit is cleared |
| BitVect.BitVect.Isset | include/bitvect.h:104-107 | whether the bit is set; false beyond the vector |
| BitVect.BitVect.FromIndexPlain | include/bitvect.h:109-119 | the commented one-at-a-time loop |
| BitVect.BitVect.FromIndex | include/bitvect.h:121-140 | the batched builder leaves the same blocks as the plain loop, for any order and repeats; an empty index is refused |
| BitVect.BitVect.CombineOr | include/bitvect.h:147-150 | the union, or -1 and no change for different sizes |
| BitVect.BitVect.CombineAnd | include/bitvect.h:142-145 | the intersection, or -1 and no change for different sizes |
| BitVect.BitVect.ToIndex | include/bitvect.h:152-168 | the set bits in increasing order, as 32-bit words; exact if and only if no bit from 2^32 on is set |
| BitVect.BitVect.Count | include/bitvect.h:186-194 | as many as the list of set bits has, which is how many bits are set |
| Json.EscapeRoundTrip | src/json.c:194-284 | unescaping undoes escaping, for every string |
| Json.QuotedIsDelimited | src/json.c:72-94 | the quoted escaped form of any string is delimited exactly |
| Json.ScannedIsEscaped | src/json.c:72-94 | what the scanner delimits has no dangling backslash |
| Json.EscapeStr | src/json.c:267-284 | the escaped form |
| Json.EscapeIs | src/json.c:246-284 | what stands for each of the eight escaped characters; every other character stands for itself |
| Json.EscapedIsClean | src/json.c:267-284 | an escaped text has none of the control characters, and its quotes and slashes only behind backslashes |
| Json.UnescapeIs | src/json.c:194-244 | what a backslash makes of each character |
| Json.UnescapeStr | src/json.c:194-244 | in place, wherever the read pointer stops in the buffer: the unescaped text and a NUL; what lies behind is left alone |
| Json.UnescapeStaysInside | src/json.c:230-243 | the read pointer stops at the terminating NUL if and only if the text does not end in an odd number of backslashes; else it goes on behind it |
| Json.UnescapeRunsPast | src/json.c:230-243 | one backslash: the character behind the NUL is taken into the text |
| Json.ParsedIsNested | src/json.c:119-192 | a successful parse makes properly nested callbacks over proper spans and restores the stack |
| Json.MatchingEnd | src/json.c:132-151 | in nested callbacks every begin has an end with the same key span, and what lies between is nested |
| Json.ParsedWhen | src/json.c:119-192 | a parse succeeds exactly when every string and primitive of the text ends and its brackets balance |
| Json.ParsedReports | src/json.c:119-192 | the callbacks are those of the text's tokens, in order, with keys that follow from the tokens alone |
| Json.KeyIs | src/json.c:72-180 | a value has a key if and only if the last colon, comma or bracket before it is a colon; it is what was named before that |
| Json.InnermostIs | src/json.c:128-151 | between the bracket that a closing one belongs to and it, brackets balance |
| Json.TokensOfList | src/json.c:96-117 | the tokens of any list of numbers |
| Json.PrimitiveIsDelimited | src/json.c:96-117 | a primitive runs exactly up to the first bracket that closes, white space or comma |
| Json.Parser.ParseString | src/json.c:72-94 | one string token, or an error if it does not end |
| Json.Parser.ParsePrimitive | src/json.c:96-117 | one primitive up to its delimiter, or an error if the text ends first |
| Json.Parser.Parse | src/json.c:119-192 | success if and only if the text splits into complete tokens whose blocks balance; then the callbacks of these tokens, nested, each with its key |
| Base64.RoundTrip | src/base64.c:24-122 | decoding gives back what was encoded, with or without padding |
| Base64.EncodedSize | include/base64.h:25 | padded output has 4 characters for every 3 bytes begun |
| Base64.EncodedIs | src/base64.c:24-64 | the text of any source, character by character, from the alphabet as section 5 of RFC 4648 has it |
| Base64.DecodedIs | src/base64.c:66-122 | byte k of a decoded text is bits 8k to 8k + 7 of what its characters stand for; what is left over is dropped |
| Base64.CodeRoundTrip | src/base64.c:25-84 | the decoder table inverts the alphabet, which has no padding character |
| Base64.CodeIs | src/base64.c:25 | the code table is the alphabet |
| Base64.ValueIs | src/base64.c:67-83 | the decoder knows exactly the characters of the alphabet, each by its position |
| Base64.PadIs | src/base64.c:44-58 | the padding character is the equals sign |
| Base64.Encode | src/base64.c:24-64 | character k is that of the URL-safe alphabet of RFC 4648 for bits 6k to 6k + 5 of the source, with zeros behind its end; then nothing but padding |
| Base64.Decode | src/base64.c:66-122 | the decoded bytes, for any input text |

## Left out

- HashTable.HashTable.Insert: requires that the table stays below 4 GB, where the 32-bit offsets would wrap around; the code does not check it.
- HashTable.HashTable.InsertAlloc: the same limit.
- HashTable.HashTable.LookupInsert: the same limit, if the key is absent.
- LHashTable.LHashTable.Put: requires, where a region is needed, a record small enough for its size to have a free list and a sub-table with room for it; the code checks neither.
- LHashTable.LHashTable.PutKey: the same limits.
- VarIndex.Generate: reports failure instead of going on with truncated offsets when the key table would exceed 4 GB; columns that cannot get there always succeed.
- FileWriter.FileWriter.Lseek: requires a location that is not before the start of the file; what the kernel makes of the wrapped-around location is not modelled.
- Json.UnescapeStr: requires that the read pointer stops inside the buffer; beyond it there is no memory to model.
- Heap.Heap.Insert: limited to 2^31 elements, where the 32-bit child positions would overflow.
- hashtable_open and lhashtable_init on an existing file, crash recovery and clean-shutdown flags: only tables in use are modelled.
- Failing system calls (mmap, mremap, ftruncate, open): memory and files always grow.
- The hash function: any function from byte strings to 32-bit words.
- src/hashtable_vect.c: its move loop keeps the source bucket occupied while it probes and is not the scheme modelled here.
- The keyed removals of the heap and its key back-pointers, and bitvect_set_resize: they do not keep the invariants of the operations modelled.
- The byte layout of the index files over ordered keys: records are values; keys are integers, not floating point.
- Arrays of fixed-size elements in column files (ds_var_field_get_array): the same rows, divided by the element size.
- Ring resizing with an evictor callback, and the reserved area of a ring file.
- The timer and the sockets themselves: a timer goes off at or after its deadline, and a shutdown is recorded.
- Error texts and log output.
- The coroutine contexts, epoll workers, HTTP server and client, MySQL and LDAP bindings, and vmbuf.
