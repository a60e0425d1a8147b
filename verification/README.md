# A verified model of the KV storage engine

The program is a key-value server: a skip list as write buffer, a Protocol Buffers codec that turns a full buffer
into one 64 MB block of a dump file, an index from keys to blocks, a read buffer that holds one block, and two thread
pools that run requests and file accesses. This project models those parts in Dafny and proves what they promise,
for all inputs, all coin tosses and all interleavings. `dafny verify dfyconfig.toml` checks it.

## How the model is built

- **Skip list** (`SkiplistSpec`, `Skiplists`). `Skiplists.Skiplist` is the linked structure itself: heap nodes with
  eight `next` pointers, relinked in place by `Add`, `Erase`, `Clear` and `Deserialize`, loop for loop as in the
  source. Ghost fields keep the node sequence of every level and a `Shape`: the keys of each level and the map.
  `rand()` is an arbitrary function from tosses to outcomes. A string is its bytes and a capacity, and the capacity a
  copy or an assignment ends up with is a parameter.
- **Codec** (`Wire`, `Utf8`, `Fields`, `SlMessages`, `SlFields`, `SlSerializer`). The primitives follow the Protocol Buffers Encoding
  specification, sections "Base 128 Varints", "Length-Delimited Records" and "Packed Repeated Fields"; field order,
  default omission, tags and rejected inputs follow the generated code. What the parsers accept is stated a second time,
  for every input, as a scan into fields and what each field does. `SlSerializer` has the two passes as loops
  over an array with cached sizes, and the two parser loops.
- **Blocks and tables** (`Flattening`, `ReservedKeys`, `BlockFile`, `BlockFit`, `TablesSpec`, `InfoMessage`, `InfoCodec`,
  `FileInfos`). The file is a byte sequence in which unwritten bytes read as zero. `FileInfos.FileInfo` is the object with
  its super block and three tables. The message in block 0 is its bytes, with the map's pairs in any order; its size is
  computed ahead field by field, as the source does, and proved to be their number.
- **Tiered store** (`TwoMaps`, `StoreSpec`, `StoreRefinement`, `StoreRuns`, `StoreSizes`, `Caches`, and runs from a new
  store in `Ladders`, `FitRuns` and `ForgetRuns`). `Caches.Cache` and
  `Caches.Server` are the objects, each method proved equal to a function on `StoreSpec.Store`, which in turn is
  proved to refine two maps: W, what was put since the last flush, and D, what a key had when it was first flushed.
  Here an I/O task runs to its end inside the request that submits it.
- **Lock hand-over** (`IoProtocol`, `IoSafety`, `IoTheorems`, `IoRequests`, `IoReads`, `IoWitnesses`, `IoHandler`). The same requests
  with every lock, queue and worker of the I/O pool as separate atomic steps (include/cache.hpp:29-94, 123-203;
  include/IOpool.hpp:46-68): the fifteen workers wait on one condition, a notification wakes any one of them, and a
  load empties the read buffer before it fills it. A write lock handed over is free when both the flush and the PUT that
  submitted it have dropped their copies. Whether a PUT overflows is left to the run, so every decision is covered; the
  runs from a new system put any PUTs that do not overflow before one that does. The history variable `specs` holds the
  states of the two maps, `log` the answers.
- **Thread pool** (`ThreadPools`, `ThreadPoolSafety`, `ThreadPoolTheorems`, `ThreadPoolProgress`, `ThreadPoolCalls`,
  `ThreadPoolWaits`). A step machine over the worker loop
  (src/worker_thread.cpp:31-159), what is done to a worker (191-268), the lifecycle calls
  (src/thread_pool.cpp:49-213, 256-310) and `submit` (include/thread_pool.hpp:150-185). A loop over the worker list is
  one step per worker, so workers run in between. The pause semaphore counts without bound. A sleeping worker may wake
  without a notification, as the C++ standard allows; `QuietRun` singles out the runs in which none does.

Each state machine has an invariant kept by every step (`StepInv`), hence by every run (`RunInv`), that holds at the
start (`NewPoolInv`, `NewSystemInv`, `NewStoreInv`); the theorems take any state with the invariant as their start.

## What the proofs found

- A list survives a flush if and only if no key is -1 or -2 (`Flattening.StructuralRoundTrip`). With -2 every greater
  key is lost on the levels of -2, unless -1 stands on that level with a successor; then, with or without -2, the keys
  up to -1 are. If -1 is the last key of a level without -2, the walk round that level never ends, and neither does the
  loop that walks it at the end of a load (`ReservedKeys.ReachedExactly`).
- One value that is not UTF-8 makes the whole block unreadable (`SlMessages.CodecRoundTrip`).
- A node's encoding can exceed its charge, by at most 37 bytes. Whether the buffer of an overflowing PUT fits its block
  depends on the towers and texts (`BlockFit.FitsExactly`): a run of PUTs whose flush fits is `FitRuns.SafeFlushHappens`,
  one whose flush overruns the block is `FitRuns.OverrunHappens`. Over any run a block stays readable if and only if its
  message agrees with every message flushed later where the two overlap (`StoreRuns.OverrunsInRuns`).
- A key's value on disk is the one of its first flush; later PUTs of the key are lost at the next flush, and DEL does
  not reach the disk (`TwoMaps.FlushKeepsRead`, `TwoMaps.DelErases`, `StoreRefinement.FirstFlushWins`). The
  repository's README.md lists insertion and deletion without that restriction; the model follows the code.
- A file takes fifteen flushes in its life, restarts included; the write lock of the next overflowing PUT is never
  released (`StoreRuns.FlushesAreBounded`, `IoTheorems.JammedForever`).
- When the tables do not fit block 0 at a restart, blocks taken since the last one that did are handed out again
  (`StoreRuns.RestartForgets`). Up to 4473881 mapped keys always fit, 4473924 negative ones never do
  (`InfoMessage.FewKeysFit`, `InfoMessage.ManyKeysDoNotFit`), and six full buffers of negative keys are more
  than that (`ForgetRuns.BlockTakenTwice`).
- The notification for a flush can wake the wrong worker; then the flush is never run and the write lock never
  released (`IoWitnesses.FlushLost`, `IoTheorems.DeafForever`).
- When an assignment grows a string more than a copy does, `currentSize` drifts, down to wrapping below zero
  (`StoreSizes.OverwriteExact`, `StoreSizes.SizeUnderflow`).
- The read buffer is declared to hold a block before it is loaded, so a second GET of one thread can answer that a
  stored key is absent (`IoWitnesses.StaleReadHappens`); and a loaded block can be replaced under a GET
  (`IoWitnesses.ReplacedHappens`). While GETs go past the index one at a time neither can happen
  (`IoReads.OneAtATimeIsRight`).
- `pause` with `resume`, and `remove_thread`, can lose a wake-up and leave a submitted task waiting for sleeping
  workers; without these two that cannot happen (`ThreadPoolTheorems.WakeupLostByPause`,
  `ThreadPoolTheorems.WakeupLostByRemoval`, `ThreadPoolTheorems.NoLostWakeup`).
- `wait` on a paused pool keeps `resume` from ever beginning if and only if more tasks are queued than there are workers
  that may still take one (`ThreadPoolTheorems.WaitBlocksResume`).
- The limit on queued tasks is overrun by up to one less than the number of submitting threads
  (`ThreadPoolProgress.OvershootReached`).
- `terminate`, and so the destructor, can leave a worker waiting for a notification that no longer comes, and joining it
  then never ends; `shutdown` cannot (`ThreadPoolWaits.TerminateLeavesBehind`, `ThreadPoolWaits.PoolEmptiesExactly`,
  `ThreadPoolWaits.ShutdownLeavesNobody`). But `shutdown` itself never returns when tasks are queued and every worker is
  asleep or past its last look at the queue (`ThreadPoolWaits.ShutdownReturnsExactly`).
- `shutdown` returns while tasks are still executing (`ThreadPoolTheorems.ShutdownLeavesTasksExecuting`), and nothing
  waits for the I/O pool: the interrupt handler, which takes no lock, can flush a buffer whose keys a worker has already
  mapped to its own block. That block is then stored empty and their texts are lost (`IoHandler.SecondFlush`,
  `IoHandler.AllTextsLost`).

## Model

| member | source | states |
|---|---|---|
| Skiplists.Skiplist.constructor | include/skiplist.hpp:31-34 | a new list is well linked and stands for the empty map |
| Skiplists.Skiplist.Find | include/skiplist.hpp:51-57 | on each of the 8 levels the result is the last node below the target, the head if there is none; both loops end |
| Skiplists.Skiplist.Walk | include/skiplist.hpp:54 | from any node of the level below the target the inner loop ends at the last such node |
| Skiplists.Skiplist.FindDescends | include/skiplist.hpp:51-57 | what `find` returns for a level stands one level down at or before what it returns there, and the next node is not below the target |
| Skiplists.Skiplist.Search | include/skiplist.hpp:60-66 | the answer is the map's value, the empty string for an absent key |
| Skiplists.Skiplist.Add | include/skiplist.hpp:69-110 | for every outcome of the coins: present key overwritten in place, new key on a prefix of the levels, nothing else moved, and the charge in wrapping 64-bit arithmetic |
| Skiplists.LinkTower | include/skiplist.hpp:87-93 | the linking loop inserts the node on exactly the levels the coins give and keeps every other chain |
| Skiplists.LinkAfter | include/skiplist.hpp:88-89 | one round of the loop is an insertion into that level's chain |
| Skiplists.Skiplist.Erase | include/skiplist.hpp:113-132 | answers whether the key was there; if so its node leaves every level, no listed node links to it on any of the 8 levels, and all other towers keep their levels and order |
| Skiplists.UnlinkTower | include/skiplist.hpp:125-127 | the loop that stops at the first level not linking to the node has removed it from all levels, by nesting |
| Skiplists.UnlinkAfter | include/skiplist.hpp:126 | one round of the loop takes the node out of that level's chain |
| Skiplists.Skiplist.Clear | include/skiplist.hpp:37-48 | every node but the head is deleted exactly once, and all links of the head are null |
| Skiplists.Skiplist.LinksStay | include/skiplist.hpp:125-129 | every link of a listed node leads to a listed node or is null |
| Skiplists.Skiplist.Serialize | include/skiplist.hpp:157-171 | walking the pointers gives the head record and one record per node in key order, links named by key, -2 for null |
| Skiplists.Skiplist.Deserialize | include/skiplist.hpp:231-267 | from records that represent a shape the rebuilt pointers are a well-linked list of exactly that shape, all 8 levels; the reported size charges the head's record too |
| Skiplists.CreateNodes | include/skiplist.hpp:243-248 | the first pass gives every key of a record a fresh node with the record's value, and sums the charges |
| Skiplists.LinkNodes | include/skiplist.hpp:249-262 | the second pass sets every link of every node, the head's from the record with key -1 |
| SkiplistSpec.AddedWellFormed | include/skiplist.hpp:69-110 | insertion keeps every level sorted and nested in the ones below for every tower height, and is map update |
| SkiplistSpec.AddedTower | include/skiplist.hpp:87-92 | a new key stands on a level if and only if no toss before that level ended its tower, and every other key stays where it was |
| SkiplistSpec.ErasedWellFormed | include/skiplist.hpp:113-132 | removal keeps the invariant and takes the key, and only it, off every level |
| SkiplistSpec.TowerMeaning | include/skiplist.hpp:125 | nesting makes every tower a prefix of the levels, which is what lets `erase` stop early |
| SkiplistSpec.EraseUndoesAdd | include/skiplist.hpp:69-132 | erasing a key just added gives back the same towers, whatever the coins were |
| SkiplistSpec.RunsAreMapRuns | include/skiplist.hpp:60-132 | every sequence of adds and erases with every outcome of the coins keeps the invariant and answers as a map |
| SkiplistSpec.AddedTotal | include/skiplist.hpp:72-84 | how the sum of node charges changes with an insertion or an overwrite, negative differences included |
| SkiplistSpec.TotalWithout | include/skiplist.hpp:122 | a removal takes exactly the node's charge out of the sum |
| Flattening.ChargesOfFlatten | include/skiplist.hpp:243-248 | the size reported for a list read back is the charges of its nodes as they are now, and that of the head's record |
| Flattening.StructuralRoundTrip | include/skiplist.hpp:157-171 | rebuilding the written records gives the same keys, values and links on all levels if and only if no key is -1 or -2 |
| Flattening.NullKeyLost | include/skiplist.hpp:167 | with key -2 some link is read back as null |
| Flattening.HeadKeyLost | include/skiplist.hpp:255 | with key -1 the head and that node get the same links |
| Flattening.RepresentsDetermines | include/skiplist.hpp:249-262 | the records determine the towers: two shapes read from the same records are equal |
| ReservedKeys.ReachedExactly | include/skiplist.hpp:249-262 | for every list and level, which keys the rebuilt links reach from the head: those above -1, those below -2, all of them, or an endless walk |
| ReservedKeys.AllReached | include/skiplist.hpp:249-262 | the rebuilt level 0 holds all keys, once and in order, if and only if no key is reserved |
| ReservedKeys.ValueKept | include/skiplist.hpp:243-248 | the text of every key is read back, those of the reserved keys included |
| ReservedKeys.NullKeyLosesOthers | include/skiplist.hpp:167 | with key -2 a key is still reached on level 0 if and only if it is below -2, or, when -1 has a successor there, above -1 |
| Wire.VarintRoundTrip | proto/sl.pb.cc:140-145 | a varint reads back with the bytes after it untouched |
| Wire.VarintIs | proto/sl.pb.cc:205 | a number is written as its groups of seven bits, least significant first, each but the last marked, and none to spare |
| Wire.ReadVarintIs | proto/sl.pb.cc:145 | for every input a number is read if and only if one of the bytes allowed is unmarked, and it is that of the groups up to the first such |
| Wire.Congruent | proto/sl.pb.cc:145 | sign extension keeps an int32 modulo 2^64, and truncation keeps any number modulo 2^32 |
| Wire.Int32Sizes | proto/sl.pb.cc:241-265 | every negative int32 takes ten bytes, every other at most five |
| Wire.Int32RoundTrip | proto/sl.pb.cc:145 | a sign-extended int32 reads back, its ten bytes truncated to 32 bits |
| Wire.DelimitedRoundTrip | proto/sl.pb.cc:154 | a length and its bytes read back with the rest untouched |
| Wire.PackedRoundTrip | proto/sl.pb.cc:163 | packed links read back in order |
| Wire.PackedAppend | proto/sl.pb.cc:216-223 | packed links are the varints of the links one after the other |
| Utf8.ValidExactly | proto/sl.pb.cc:156 | bytes pass the check if and only if they are the encodings, one to four bytes each, of some Unicode scalar values |
| Fields.ScanReadBack | proto/sl.pb.cc:136-192 | fields of all wire types written one after the other are scanned back as they are |
| SlFields.NodeParses | proto/sl.pb.cc:136-192 | for every input: a node is parsed if and only if the input is a sequence of fields with UTF-8 texts and well-formed links, and it has the last key, the last text and all links, packed or not; unknown fields do nothing |
| SlFields.ListParses | proto/sl.pb.cc:388-428 | for every input: the records are those of the fields numbered 1, in order, and one malformed field loses them all |
| SlFields.NodeWritten | proto/sl.pb.cc:194-231 | a node is written as its fields that are not empty or zero, by number |
| SlFields.ListWritten | proto/sl.pb.cc:430-450 | a list is written as one field per record, in order |
| SlFields.NodeExample | proto/sl.pb.cc:194-231 | the bytes of one node: tags 8, 18 and 26, and the null link in ten bytes |
| SlMessages.NodeRoundTrip | proto/sl.pb.cc:136-231 | a node's bytes, key 0 and empty fields omitted, parse back to the node if its value is UTF-8 and are rejected otherwise |
| SlMessages.ListReadBack | proto/sl.pb.cc:388-450 | after any records already read, the parser adds all records written, or fails if one value is not UTF-8 |
| SlMessages.CodecRoundTrip | proto/sl.pb.cc:388-450 | the whole message parses back if and only if every value is UTF-8 |
| SlMessages.NodeSizeAgrees | proto/sl.pb.cc:233-273 | the size computed for a node is the number of bytes written for it |
| SlMessages.ListSizeAgrees | proto/sl.pb.cc:452-473 | the size computed for the list is the number of bytes written for it |
| SlSerializer.NodeByteSize | proto/sl.pb.cc:233-273 | the loop computes the length of the node's bytes and caches the length of its packed links |
| SlSerializer.ListByteSize | proto/sl.pb.cc:452-473 | the loop computes the length of the list's bytes and caches every node's length |
| SlSerializer.PutNode | proto/sl.pb.cc:194-231 | writes exactly the node's bytes at the pointer, with the cached link length, and nothing before it |
| SlSerializer.PutList | proto/sl.pb.cc:430-450 | with the cached lengths the second pass fills the buffer with exactly the message |
| SlSerializer.SerializeToArray | include/skiplist.hpp:174-180 | sizing, allocating and writing give exactly the message |
| SlSerializer.ParseNodeFrom | proto/sl.pb.cc:136-192 | the parser loop of `Node` computes the parse function |
| SlSerializer.ParseListFrom | proto/sl.pb.cc:388-428 | the parser loop of `Skiplist` computes the parse function |
| BlockFile.BlockReadBack | include/skiplist.hpp:182-211 | what was written to a block is what is read from it, in every file |
| BlockFile.LittleEndianIs | include/skiplist.hpp:184 | the eight bytes before the message are those whose sum, byte i times 256^i, is its length |
| BlockFile.BlocksDisjoint | include/skiplist.hpp:182-187 | writing a message leaves every other block of every file alone if and only if it fits a block with its 8-byte length |
| BlockFile.SameBlockSameRead | include/skiplist.hpp:205-211 | a stored message depends on the bytes of its own block only |
| BlockFile.StillRead | include/skiplist.hpp:182-211 | after a write to another block a message is still read from its own if and only if the two agree where they overlap |
| BlockFile.FittingAgree | include/skiplist.hpp:182-187 | and two that fit do not overlap |
| BlockFit.EncodedAtMost | proto/sl.pb.cc:233-273 | the message is at most the sum of charges, 37 bytes a node, and 95 for the head |
| BlockFit.FitsExactly | include/skiplist.hpp:182-187 | a buffer fits its block if and only if 8 bytes, the head record and the excess of every node's bytes over its charge find room beside the charges |
| BlockFit.FitsWithSlack | include/skiplist.hpp:182-187 | a buffer whose charges leave that much room fits its block, as one flushed at a shutdown can |
| BlockFit.FrameByNulls | proto/sl.pb.cc:233-273 | with keys that are not negative a node takes at most 60 bytes, its text and 5 bytes for each null link |
| BlockFit.CompactFits | include/skiplist.hpp:182-187 | so buffers of short texts in tall towers fit however much was charged for them |
| FitRuns.OverflowLeavesNoSlack | include/cache.hpp:38 | the buffer of an overflowing PUT never has the room that `FitsWithSlack` asks for |
| FitRuns.SafeFlushHappens | include/cache.hpp:29-52 | a run of 808541 PUTs from a new store, safe throughout, whose last one overflows, flushes and fits |
| FitRuns.OverrunHappens | include/cache.hpp:29-52 | a run of as many PUTs whose last one flushes a buffer that overruns its block |
| BlockFit.ChargeDoesNotBoundBytes | include/skiplist.hpp:72 | 15-byte values in towers of height one overrun the block whenever the charges exceed the cache size |
| TablesSpec.AllocateOnce | include/fileInfo.hpp:104-116 | a block handed out was free, is not block 0, and is used from then on; none is handed out exactly when all are used |
| TablesSpec.MapKeysFirstWins | include/fileInfo.hpp:67-86 | after mapping a list of keys a key is mapped where it was, or to the new block |
| TablesSpec.MapKeysCharges | include/fileInfo.hpp:67-76 | it takes 12 bytes from block 0's free space for each key that was not mapped, wrapping, and leaves all other entries alone |
| TablesSpec.QueueServed | include/cache.hpp:45 | the flush of a real block goes to a queue with a worker, the flush of `size_t(-1)` to one without |
| InfoMessage.InfoByteSize | proto/info.pb.cc:879-927 | the loops over entries, map pairs, in any order, and flags compute the size of the information message |
| InfoCodec.InfoLength | proto/info.pb.cc:879-927 | and that size is the number of bytes written, for every order of the map |
| InfoCodec.InfoToBytes | proto/info.pb.cc:828-877 | the loops write the super block, the entries, the pairs in the order the map gives them, and the flags |
| InfoCodec.InfoReadBack | proto/info.pb.cc:754-820 | these bytes parse back to the same super block and tables, in whatever order they were written, if both texts are UTF-8, and are rejected otherwise |
| InfoCodec.InfoExample | proto/info.pb.cc:828-877 | the bytes of one message: super block, entry, pair and flag with their field numbers |
| InfoMessage.SavingKeeps | include/fileInfo.hpp:226-229 | block 0's entry tells the room beside the message as it was before, and nothing else changes |
| InfoMessage.FewKeysFit | include/fileInfo.hpp:225-238 | with at most 4473881 keys mapped the tables fit block 0 |
| InfoMessage.ManyKeysDoNotFit | include/fileInfo.hpp:225-238 | with 4473924 keys or more, all negative, they do not |
| FileInfos.FileInfo.constructor | include/fileInfo.hpp:35-57 | block 0 used, all entries at their offsets, no key mapped |
| FileInfos.FileInfo.AddKeyBlockMapping | include/fileInfo.hpp:67-76 | a mapped key keeps its block; a new one takes 12 bytes from block 0's free space, wrapping |
| FileInfos.FileInfo.GetFreeBlock | include/fileInfo.hpp:104-116 | the scan finds and marks the lowest free block |
| FileInfos.FileInfo.UpdateBlockInfo | include/fileInfo.hpp:130-137 | sets one entry's free space, ignores numbers out of range |
| FileInfos.FileInfo.WriteToBlock0 | include/fileInfo.hpp:186-257 | the message is written if and only if its bytes fit block 0 with their length, and then is those bytes; block 0's free space is worked out either way |
| FileInfos.FileInfo.ReadFromBlock0 | include/fileInfo.hpp:260-327 | if there is a message that can be parsed, its entries and flags replace the first ones and its keys are added over the ones here; otherwise nothing changes |
| FileInfos.SaveAndReopen | include/fileInfo.hpp:186-327 | super block, usage table, entries and key map survive into a fresh object, through the bytes of block 0, if their size fits; otherwise what block 0 held before does |
| TwoMaps.FlushKeepsRead | include/fileInfo.hpp:69-72 | a flush changes a key's answer if and only if an older flush fixed another value for it |
| TwoMaps.DelErases | server.cpp:79-86 | DEL makes a key absent if and only if no flush has stored a value for it |
| StoreSpec.HoldingStored | include/skiplist.hpp:198-267 | a block that holds a flush is read back record for record, and answers every key as the flushed list did |
| StoreSpec.MemoryRoundTrip | include/skiplist.hpp:149-267 | list to records to bytes to block and back gives the same towers and values if and only if no key is reserved and all values are UTF-8 |
| StoreSpec.FlushSound | include/cache.hpp:149-185 | after a flush every mapped key names a used block whose stored list contains it, and the disk's values are the old ones over the new ones |
| StoreSpec.FlushedEntries | include/cache.hpp:158-173 | after a flush the block's entry tells the free space passed, block 0's has paid for the new keys, and no other has changed |
| StoreRefinement.GetRefines | server.cpp:68-77 | GET answers from W, then D, and changes neither |
| StoreRefinement.InsertRefines | include/cache.hpp:29-36 | a PUT without a flush is an update of W |
| StoreRefinement.FlushRefines | include/cache.hpp:149-185 | a flush moves W under D |
| StoreRefinement.DelRefines | include/cache.hpp:123-127 | DEL removes the key from W and leaves D alone |
| StoreRefinement.PutRefines | include/cache.hpp:29-52 | a PUT, with the flush it may cause, is the update of W followed by the move under D |
| StoreRefinement.RestartRefines | server.cpp:33-61 | shutting down and starting again is a flush, or loses W when no block is free |
| StoreRefinement.TieredRefinement | server.cpp:63-86 | over every run of PUT, GET, DEL and restart the answers are exactly those of the two maps |
| StoreRefinement.FirstFlushWins | include/fileInfo.hpp:69-72 | the disk's value of a key never changes after its first flush, in any run |
| StoreRefinement.JamsWhenFull | include/cache.hpp:38-48 | a PUT leaves the write lock with a flush that is never run if and only if it overflows and every block is used |
| StoreRuns.BlocksTakenOnce | include/fileInfo.hpp:104-116 | over every run, whatever it stores, whose tables fit block 0 at each restart: the blocks taken are pairwise distinct, none was used and none is block 0, the used blocks are those before and those taken, and a mapped key keeps its block |
| StoreRuns.EntriesFixed | include/fileInfo.hpp:130-137 | in such runs the entry of a used block is never changed again |
| StoreRuns.FlushesAreBounded | include/fileInfo.hpp:104-116 | in such runs the blocks taken plus those still free are the blocks free before |
| StoreRuns.OverrunsInRuns | include/cache.hpp:149-185 | over every run, whether or not its flushes fit, a block's message is read back in every state if and only if it agrees with every message flushed, where the two overlap |
| StoreRuns.RestartForgets | include/fileInfo.hpp:225-238 | a restart forgets a used block if and only if the size computed from the tables does not fit block 0 and the tables saved before do not have it |
| StoreRuns.FewKeysSaved | include/fileInfo.hpp:225-257 | and with at most 4473881 keys mapped it forgets none, nor any key |
| StoreRuns.HandedOutAgain | include/fileInfo.hpp:104-116 | and the lowest such block is the next one handed out |
| ForgetRuns.BlockTakenTwice | include/fileInfo.hpp:225-238 | a run from a new store, with PUTs of distinct negative keys and one restart, takes the blocks 1 to 7 and then 1 again |
| StoreSizes.SizeConserved | include/cache.hpp:31-40 | after every request `currentSize` is the sum of the charges plus the accumulated growth, modulo 2^64 |
| StoreSizes.OverwriteExact | include/skiplist.hpp:81-82 | an overwrite keeps it exact if and only if copying and assigning give the same capacity |
| StoreSizes.FreeSpaceExact | include/cache.hpp:39 | a flush is told the room there was before the PUT that caused it, without wrapping |
| StoreSizes.FlushNoted | include/cache.hpp:39-47 | so after an overflowing PUT the entry of the block taken is the cache size less the size before that PUT |
| StoreSizes.HandlerNoted | server.cpp:47 | and after the interrupt handler's flush it is the cache size less the size |
| StoreSizes.OverflowsExactly | include/cache.hpp:38 | with capacity a function of the text a PUT flushes if and only if the sum of charges would exceed the cache size |
| StoreSizes.ExactWithoutGrowth | include/cache.hpp:29-52 | and between requests the size is the sum of the charges and at most the cache size |
| StoreSizes.SizeUnderflow | include/cache.hpp:139 | a growing overwrite and a deletion take the size to just under 2^64, and the next PUT is charged too little |
| Caches.Cache.Put | include/cache.hpp:29-52 | the object's new state, tables and file are those of the store's PUT, jammed or not |
| Caches.Cache.Overflow | include/cache.hpp:38-48 | takes a block and flushes to it, or leaves the buffer with a task no worker runs |
| Caches.Cache.FlushToDisk | include/cache.hpp:149-185 | maps all keys, writes the block, notes the free space in its entry and in no other but block 0's, and empties the list; with no block changes nothing |
| Caches.Cache.MapListKeys | include/cache.hpp:160-165 | the walk along level 0 maps every key of the buffer |
| Caches.Cache.Del | include/cache.hpp:97-146 | the write buffer loses the key and its charge; the answer is always true |
| Caches.Cache.GetWritten | include/cache.hpp:83-92 | the write buffer's value |
| Caches.Cache.GetStored | include/cache.hpp:57-80 | loads the key's block unless the read buffer holds it, and answers from it; an unmapped key is absent |
| Caches.Cache.LoadFromDisk | include/cache.hpp:188-203 | the read buffer becomes the list the block was flushed from, empty if the block cannot be read |
| Caches.Server.ProcessPut | server.cpp:63-66 | the server's state after PUT is the store's |
| Caches.Server.ProcessGet | server.cpp:68-77 | the answer and the server's state after GET are the store's |
| Caches.Server.ProcessDel | server.cpp:79-86 | the server's state after DEL is the store's: the read tier is never asked |
| Caches.Server.InterruptAndRestart | server.cpp:33-61 | flush, saved tables and the next process's start give the store after a restart |
| IoSafety.StepInv | include/cache.hpp:29-94 | every step of every request and I/O worker keeps lock ownership, queue contents, block contents and the relation to the two maps |
| IoTheorems.GetsAreLinearizable | include/cache.hpp:55-94 | in every interleaving an answer from the write buffer, the index, or a read buffer loaded from the key's block is what the two maps gave at one moment of the request |
| IoTheorems.HistoryIsSpecRun | include/cache.hpp:29-52 | the history is a run of the specification, and while no flush has the lock the buffer is W and the blocks are D |
| IoTheorems.OnlyTheFlush | include/cache.hpp:44-47 | while a flush has the write lock only its own worker changes the buffer, and no request reads it |
| IoTheorems.OnlyThePut | include/cache.hpp:44-48 | when the flush is over before the PUT that submitted it has returned, the lock stays taken, and that return alone frees it |
| IoTheorems.OneFlush | include/IOpool.hpp:46-68 | there is at most one flush, queued or running, and there is one exactly while a block has the lock; otherwise that PUT keeps it exactly until it returns |
| IoTheorems.SnapshotStored | include/cache.hpp:44-47 | whatever else runs, the block gets exactly what the buffer held at the overflowing PUT, and keeps it |
| IoTheorems.LoadsFindTheirBlock | include/IOpool.hpp:54-68 | a load always finds its block completely written, with its key, because it queues behind the flush |
| IoTheorems.FlushNeedsItsWorker | include/IOpool.hpp:54-68 | the flush's worker alone can end it if and only if it is awake or notified, and release the lock if and only if, besides, the PUT that submitted it has returned |
| IoTheorems.FlushCanFinish | include/IOpool.hpp:46-60 | the lock can ever be released if and only if that worker is awake or notified, or some request is on its way to a `notify_one`; the PUT's return never stands in the way |
| IoTheorems.DeafForever | include/IOpool.hpp:46-60 | otherwise it is not released in any run |
| IoTheorems.JamsExactlyWhenFull | include/cache.hpp:40-47 | the hand-over goes to no worker if and only if every block is used |
| IoTheorems.JammedForever | include/IOpool.hpp:46-52 | and then no PUT, DEL or GET touches the write buffer again, in any run |
| IoRequests.PutAlone | include/cache.hpp:29-36 | a PUT that does not overflow, run through, puts its key and value into the buffer |
| IoRequests.DelAlone | include/cache.hpp:123-127 | a DEL run through takes its key out of the buffer and of W |
| IoRequests.GetAlone | server.cpp:68-77 | a GET run through adds exactly one answer, what the two maps have, from the buffer, the index, a loaded read buffer, or after a load by a free worker |
| IoReads.OneAtATimeIsRight | include/cache.hpp:55-94 | from a state in which the read buffer holds what it is declared to hold, every run in which at most one GET is past the index at a time gives only answers that the two maps gave at one moment of the request |
| IoReads.DeclaredRead | include/cache.hpp:60-63 | a GET that finds its block declared, run through, is right if and only if the block has been loaded or the texts agree |
| IoReads.BackToBack | include/cache.hpp:60-74 | two GETs of one thread with no I/O between them: the second is right if and only if the buffer was last loaded from the key's block or the texts agree |
| IoReads.Replaced | include/cache.hpp:60-71 | a GET whose block is declared and loaded answers from another block when that is loaded between its comparison and its search, and is right if and only if the texts agree |
| IoWitnesses.FlushLost | include/IOpool.hpp:46-60 | after any PUTs that fit, one that overflows can get there from a new system: the notification for its flush wakes another worker |
| IoWitnesses.StaleReadHappens | include/cache.hpp:64-74 | after any PUTs that fit, one that overflows and its flush, a run from a new system with one thread ends with the wrong answer that a stored key is absent |
| IoWitnesses.ReplacedHappens | include/cache.hpp:60-71 | after two such rounds, whatever else they put, a run from a new system with two threads does so although the block had been declared and loaded |
| IoHandler.SecondFlush | server.cpp:44-49 | the handler's flush between the submission of another and its storing, and the worker going on: the disk has for a key what one flush would have left if and only if the key has no text or was not yet mapped to the worker's block |
| IoHandler.AllTextsLost | include/cache.hpp:160-165 | once the worker has mapped the buffer, the texts lost are those of all keys that no older block has |
| ThreadPoolSafety.StepInv | src/worker_thread.cpp:31-159 | every step of workers, clients and lifecycle calls keeps the pool's invariant |
| ThreadPoolSafety.WorkerStepFrame | src/worker_thread.cpp:31-159 | a worker's step changes itself, the queue lock and at most the front of the queue, and keeps it live, paused or ended |
| ThreadPoolTheorems.NeverUndefined | src/worker_thread.cpp:55-58 | BLOCKED is never seen at the top of the loop, no worker throws, and a worker has left exactly when its status is TERMINATED |
| ThreadPoolTheorems.SettledStatus | src/thread_pool.cpp:49-244 | whenever nobody has the status lock exclusively the pool is RUNNING, PAUSED or TERMINATED |
| ThreadPoolTheorems.TerminatedForever | src/thread_pool.cpp:184-207 | a terminated pool stays so and accepts nothing, and a worker that has left stays gone |
| ThreadPoolTheorems.NoLostResume | src/worker_thread.cpp:252-268 | a worker at its semaphore whose status is no longer PAUSED can go on |
| ThreadPoolTheorems.StalePermitsDoNotPass | src/worker_thread.cpp:51-54 | left-over permits never take a paused worker past a status check |
| ThreadPoolTheorems.PauseBound | src/thread_pool.cpp:49-69 | after `pause` returns each worker takes at most one more task, and all of them at most one each |
| ThreadPoolTheorems.PermitsPileUp | src/worker_thread.cpp:261-264 | pausing and resuming can leave any number of permits behind |
| ThreadPoolTheorems.TakenInOrder | src/worker_thread.cpp:144-151 | the tasks taken are always a prefix of the tasks accepted, in order and none twice |
| ThreadPoolTheorems.Overshoot | include/thread_pool.hpp:170-183 | with S clients the queue plus the submitters past the check never exceed the limit less one plus S |
| ThreadPoolProgress.OvershootReached | include/thread_pool.hpp:170-183 | and from every new pool a run reaches that bound, first with all S past the check, then with the tasks in the queue |
| ThreadPoolProgress.AcceptedExactly | include/thread_pool.hpp:170-183 | with the queue unlocked a submitter left to itself gets its task accepted if and only if there is no limit or the queue is below it |
| ThreadPoolProgress.CanBeAccepted | include/thread_pool.hpp:170-183 | and whoever has the queue locked, a task that finds room can get in |
| ThreadPoolTheorems.NothingAfterShutdown | include/thread_pool.hpp:153-168 | once SHUTDOWN was set nothing is accepted any more |
| ThreadPoolTheorems.GracefulShutdown | src/thread_pool.cpp:112-134 | when `shutdown` has reached TERMINATED every accepted task has been taken exactly once, in order |
| ThreadPoolTheorems.ShutdownLeavesTasksExecuting | src/thread_pool.cpp:128-134 | with an empty queue `shutdown` reaches TERMINATED without any worker moving: tasks being executed are not awaited |
| ThreadPoolCalls.CallOutcome | src/thread_pool.cpp:49-213 | whatever runs beside it, a lifecycle call returns with the status its documentation gives, and with every worker paused, at work or ended accordingly |
| ThreadPoolCalls.CallCanReturn | src/thread_pool.cpp:112-134 | it can return if and only if it is not a `shutdown` with tasks queued and no worker |
| ThreadPoolWaits.ShutdownReturnsExactly | src/thread_pool.cpp:128-134 | without wake-ups that no notification caused, `shutdown` can return if and only if the queue is empty or some worker is neither asleep unnotified nor past its last look at the queue |
| ThreadPoolWaits.PoolEmptiesExactly | src/worker_thread.cpp:83-105 | without such wake-ups, all workers of a terminated pool can leave if and only if none is waiting, or about to wait, unnotified |
| ThreadPoolWaits.ShutdownLeavesNobody | src/thread_pool.cpp:128-134 | in every run a pool that `shutdown` has terminated has no such worker |
| ThreadPoolWaits.TerminateLeavesBehind | src/thread_pool.cpp:202-207 | a run from a new pool in which `terminate` leaves one |
| ThreadPoolCalls.AddedWorkerTakes | src/thread_pool.cpp:256-283 | an added worker is one more, and can take a task that nobody else serves |
| ThreadPoolCalls.RemovalCounts | src/thread_pool.cpp:285-310 | when a removal is over, in any run, exactly as many workers are gone as asked for, or all |
| ThreadPoolCalls.RemovalCanFinish | src/thread_pool.cpp:285-310 | and it can always come to that |
| ThreadPoolTheorems.NoLostWakeup | src/worker_thread.cpp:68-105 | without `pause` and `remove_thread` no run leaves a task waiting while all workers sleep unnotified |
| ThreadPoolTheorems.WaitBlocksResume | src/thread_pool.cpp:147-178 | with a client waiting on a paused pool, no run lets `resume` or any other lifecycle call begin if and only if more tasks are queued than there are workers that may still take one |
| ThreadPoolTheorems.WaitInVainHappens | src/thread_pool.cpp:147-178 | one task, a `pause` and a `wait` get there |
| ThreadPoolTheorems.WakeupLostByPause | src/worker_thread.cpp:83-105 | with `pause` a run does: the worker waits without looking at the queue again |
| ThreadPoolTheorems.WakeupLostByRemoval | src/thread_pool.cpp:285-310 | with `remove_thread` a run does: the worker to be removed is notified too early, sleeps, and takes the next task's notification with it |
| ThreadPoolSafety.RemovalStepInv | src/thread_pool.cpp:285-310 | removing workers keeps the pool's invariant: those terminated are ended, the others at work, and no task or lock is lost with them |

## Left out

- Sockets, `select`, command parsing, stack traces, the client and `test.cpp`: I/O plumbing.
- Liveness: that every worker joins, that every task is eventually run, that the server ends. Where something can be
  shown to be possible or impossible it is, as for the release of the write lock; that a scheduler brings it about is
  not claimed.
- `set_max_task_count`: the limit is fixed for a run. The pool's destructor: it terminates and joins, and whether the
  join ends is a liveness question.
- ThreadPools and IoProtocol are step machines on values, not objects with methods: a method runs without anything in
  between, and what runs in between is the point there. They do not capture the C++ memory model: unlocking from
  another thread, unlocked reads of `currentReadBlock`, the index or the read buffer, and the overflow of a binary
  semaphore, are atomic steps or unbounded counters.
- The shutdown of the I/O pool, and wake-ups of its workers that no notification caused.
- ThreadPoolCalls.CallCanReturn: the runs may contain wake-ups that no notification caused; without them the condition
  for `shutdown` is that of ThreadPoolWaits.ShutdownReturnsExactly.
- ThreadPoolCalls.RemovalCanFinish: likewise; for a terminated pool ThreadPoolWaits.PoolEmptiesExactly has the condition.
- Whether a PUT of IoProtocol overflows is not tied to its size, so its runs include more than the program's; a request
  of the server has at most 1023 bytes, and it takes many PUTs to fill the buffer.
- IoSafety.StepInv: a load is two steps, the emptying and the filling of the read buffer; lists half built by two loads
  at once, which nothing in the program excludes, are not modelled. Every flushed buffer can be read back there, as a
  block is the map it was flushed from.
- `std::string::capacity()`: what a copy and an assignment end up with are parameters of `Add`, and texts are shorter
  than their capacities only where a lemma says so. The node's key is a constant, as nothing assigns it.
- `proto/info.pb.cc`: the parser is a scan into fields and what each field does; its loop is not modelled on its own. The
  time in the super block is a parameter, 25 bytes of UTF-8.
- The message in block 0 is kept apart from the bytes of the other blocks.
- The interrupt handler's flush is one step, and not beside a worker that is walking the list it frees: what the program
  does then is undefined.
- Unknown fields of the messages are skipped, not kept; group fields are rejected; the library's limits on message
  size and nesting appear only as the limit on a length.
- A block number out of the file, a failing `open`, a short read and a file that another program changed: the file is
  a byte sequence, and what was never written reads as zero.
- In the second pass of `deserialize` a link to a key without a record inserts a null entry into the map; the model
  reads null there and leaves the map alone.
- `delKeyBlockMapping` and the read tier's DEL: nothing in the server reaches them.
- `deserialize` adds up its size without wrapping; the read buffer's size is not used by anything modelled.
- StoreRefinement.TieredRefinement: runs in which each flushed buffer can be read back, a block is free for an
  overflowing PUT and the tables fit block 0. `StoreSpec.MemoryRoundTrip`, `BlockFit.FitsExactly`,
  `StoreRefinement.JamsWhenFull` and `StoreRuns.RestartForgets` say exactly when that fails.
- StoreRefinement.FirstFlushWins: the same runs; what holds of blocks and the key map in all runs is
  `StoreRuns.BlocksTakenOnce`.
- StoreSpec.FlushSound: for a buffer that can be read back; an unreadable one is lost with every key in it.
- StoreRefinement.FlushRefines: for such a buffer, and a free block.
- StoreRefinement.PutRefines: for such a buffer, when the PUT overflows, and a free block.
- StoreRefinement.RestartRefines: for such a buffer, and tables that fit block 0.
- StoreRefinement.GetRefines: the answer of the read tier is the value that the block's records have for the key; that
  the rebuilt list gives it is Caches.Server.ProcessGet.
- Caches.Server.ProcessGet: server states in which every mapped key's block can be read back. The load runs inside the
  request; in the program the answer of a load is computed by the I/O worker and returned to nobody. The interleaved
  form is IoTheorems.GetsAreLinearizable.
- Caches.Cache.GetStored: for a key whose block can be read back, or no block.
- Caches.Cache.LoadFromDisk: for a block that cannot be parsed or whose records represent a list. Where the links of
  other lists lead is `ReservedKeys.ReachedExactly`.
- FileInfos.FileInfo.ReadFromBlock0: for a message with no more flags and entries than there are blocks; the program
  writes past its vectors when there are more.
- IoTheorems.GetsAreLinearizable: covers answers from a read buffer that was last loaded from the key's block; when that
  holds, and what happens when it does not, is in IoReads.
