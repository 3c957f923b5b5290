# Verified models of the operating-systems course programs

The repository holds C programs from an operating-systems course. This project models
the ones with the most intricate state and proves what they rely on:

* **String allocator** (`ArenaLayout`, `StrHeap`, `StrAlloc`): a next-fit allocator whose
  one-byte signed block headers lie between the bytes the client writes. Arenas are real
  byte arrays at integer addresses. A ghost layout says which block is live, free or a
  leaked split remainder. The class invariant says that the headers tile every arena,
  that the cursor is at a block boundary and that the client holds exactly the live
  blocks; it implies that the two branches that merge free blocks are never reached. What
  their arithmetic would do is stated exactly: the merged block is as long as the
  difference of the two sizes, so `strmemcheck` would still pass if and only if the sizes
  differ and the bytes at that distance happen to look like a chain of blocks.
  `ArenaList` is the arena lookup that both allocators share.
* **Object pool** (`BitString`, `SummaryBitmap`, `ObjPool`): arenas of fixed-size objects,
  with the plain bitmap of the build as shown and with the three-level bitmap of the other
  build. Both satisfy one contract.
* **Key database** (`CStrings`, `HashTable`, `HashDb`, `LineFeed`): a bounded-probe hash
  set that doubles its table until everything fits, for an arbitrary hash function, up to
  the processing of a whole input buffer.
* **Dining philosophers** (`Philosophers`), **semaphore** (`Semaphore`) and **savages**
  (`Savages`): step systems over any number of participants and every interleaving.
* **Prime sieve** (`Primes`, `PrimeSieve`): the growing chain of processes over bounded
  FIFO pipes.
* **Fork-join sort** (`SortSpec`, `HybridSort`, `ForkSort`): the routines in place on an
  array, and the tree of processes that run them on a shared table.
* **Coroutines** (`TextStages`, `Coroutines`): the round-robin scheduler and its three
  coroutines, against the composition of the three stages.

`Totals` holds sums over the members of a system. Statements about runs quantify over
every finite sequence of states whose steps the model allows.

Three things the proofs show that the programs' own texts do not:

* With an empty input the word count of `func_1` is 1 although there is no word; it is the
  number of words exactly when the input is not empty (`Coroutines.Program.Run`).
* The philosophers need at least two seats (`Philosophers.OneAloneIsStuck`), and although
  the footman is posted before the forks, never do all of them hold a fork at once.
* The savages need `M >= 1`; with `M == 0` the pot is overdrawn
  (`Savages.EmptyRefillOverdraws`).

## Model

| member | source | states |
|---|---|---|
| `ArenaLayout.LayoutIsTiling` | 8/so21_lista_8/stralloc.c:141-153 | From every block boundary the walk of strmemcheck passes all its assertions, ends at the zero byte, and meets exactly the headers of the layout |
| `ArenaLayout.TilesHasChain` | 8/so21_lista_8/stralloc.c:141-153 | What strmemcheck accepts has a list of offsets, each with a header that is not zero and leads to the next, up to the zero byte at the very end |
| `ArenaLayout.ChainTiles` | 8/so21_lista_8/stralloc.c:141-153 | And it accepts all that has one |
| `ArenaLayout.ShortFreeNeverBeforeFree` | 8/so21_lista_8/stralloc.c:60-79 | A free block shorter than MAX_BLKSZ is never followed by a free block |
| `ArenaLayout.MergeNeverTaken` | 8/so21_lista_8/stralloc.c:41-79 | In a well-formed arena no request takes either merge branch, from any block boundary: a free block that is too small is followed by a header that is not negative |
| `ArenaLayout.MergeTilesExactly` | 8/so21_lista_8/stralloc.c:64-67 | What the merge line would do, for sizes s and t on any tiled arena: strmemcheck still passes if and only if s and t differ and the walk from the first header plus their difference tiles the rest |
| `ArenaLayout.MergeOfEqualsBreaksTiling` | 8/so21_lista_8/stralloc.c:64-67 | So merging two blocks of equal size always makes strmemcheck fail |
| `ArenaLayout.TakeKeepsWellFormed` | 8/so21_lista_8/stralloc.c:46-59 | An exact fit or a split, whose remainder gets a positive header, keeps the arena well formed and drops no header |
| `ArenaLayout.ReleaseKeepsWellFormed` | 8/so21_lista_8/stralloc.c:137-138 | Negating the header of a live block keeps the arena well formed |
| `ArenaLayout.PayloadWriteKeepsWellFormed` | 8/so21_lista_8/test.h:4-8 | Any byte stored in a payload hits no header and keeps the arena well formed |
| `StrHeap.OwnedRange` | 8/so21_lista_8/arena.c:24-33 | The bytes a live pointer owns lie inside its arena, and find_ptr_arena can answer no other arena |
| `StrHeap.OwnedBytesAreNoHeaders` | 8/so21_lista_8/stralloc.c:26-36 | No header of any arena lies among the bytes of a live pointer |
| `StrHeap.LivePointersDisjoint` | 8/so21_lista_8/stralloc.c:84-117 | Two live pointers share no byte |
| `StrHeap.FreeBlockIsNotHeld` | 8/so21_lista_8/stralloc.c:46-59 | Nobody holds a pointer to a free block, so a pointer handed out is new |
| `StrHeap.TakeKeepsHeapOk` | 8/so21_lista_8/stralloc.c:46-59 | Giving a fitting block to a request yields a pointer nobody holds and keeps the invariant of all arenas and pointers |
| `StrHeap.ReleaseKeepsHeapOk` | 8/so21_lista_8/stralloc.c:119-139 | Freeing a live pointer keeps the heap invariant without that pointer |
| `StrHeap.WriteKeepsHeapOk` | 8/so21_lista_8/test.h:4-8 | A client write inside a payload keeps the heap invariant |
| `StrHeap.InsertKeepsHeapOk` | 8/so21_lista_8/arena.c:15-22 | A new arena apart from the others keeps the heap invariant |
| `StrHeap.TakeKeepsPayloads` | 8/so21_lista_8/stralloc.c:38-82 | An allocation changes no byte of any live payload |
| `StrHeap.ReleaseKeepsPayloads` | 8/so21_lista_8/stralloc.c:119-139 | A free changes no byte of any payload |
| `StrHeap.WriteKeepsOtherPayloads` | 8/so21_lista_8/test.h:4-8 | A client write changes no payload but its own |
| `StrHeap.RunKeepsHeapOk` | 8/so21_lista_8/stralloc.c:13-139 | In every run of allocations, frees of live pointers, new arenas and client writes the heap invariant holds throughout |
| `StrHeap.RunsNeverMerge` | 8/so21_lista_8/stralloc.c:38-153 | In every run, at every moment, every arena passes strmemcheck and no request from any block boundary reaches a merge branch |
| `StrAlloc.Arena.constructor` | 8/so21_lista_8/stralloc.c:13-24 | init_chunk lays a zeroed arena out as free blocks, the first of maximal size |
| `StrAlloc.Allocator.TakeBlock` | 8/so21_lista_8/stralloc.c:46-59 | The bytes and the layout become those of the taken, possibly split, block |
| `StrAlloc.Allocator.AllocBlock` | 8/so21_lista_8/stralloc.c:38-82 | The scan ends, takes the first fitting block from the cursor on, or answers NULL at the end of the chunk with nothing changed when no block fits |
| `StrAlloc.Allocator.SearchArenas` | 8/so21_lista_8/stralloc.c:97-109 | The cyclic walk meets each arena at most once, takes the first fit in walk order, and changes nothing when it has met all arenas without a fit |
| `StrAlloc.FoundOnce` | 8/so21_lista_8/stralloc.c:97-109 | A walk has at most one first fit |
| `StrAlloc.FoundIsNotExhausted` | 8/so21_lista_8/stralloc.c:97-109 | A walk that meets a fit is not one that meets none |
| `StrAlloc.Allocator.AddArena` | 8/so21_lista_8/arena.c:9-22 | The new arena is linked at its place, fresh and free, and the others stay |
| `StrAlloc.Allocator.GrowAndPlace` | 8/so21_lista_8/stralloc.c:109-112 | The first block of a new arena always serves the request |
| `StrAlloc.Allocator.StrAlloc` | 8/so21_lista_8/stralloc.c:84-117 | Every request of 1 to MAX_LENGTH bytes ends with a fresh non-NULL pointer. The cursor only moves on around the list and passes no free block that is large enough; the arena it stops in becomes the current one. If and only if no free block from the cursor on around the list is large enough, the first block of a new arena, linked right after the current one, serves the request. 0 bytes give NULL and change neither the heap nor the cursor |
| `StrAlloc.ServedPassedAll` | 8/so21_lista_8/stralloc.c:97-103 | Next fit, byte by byte: no free block from the cursor on, in the arenas between, or before the block handed out is large enough, and in the current arena the cursor does not go back |
| `StrAlloc.ExhaustedPassedAll` | 8/so21_lista_8/stralloc.c:97-109 | Where the walk meets no fit, every free block it passed is too small |
| `StrAlloc.PlacedBytes` | 8/so21_lista_8/stralloc.c:46-59 | The block of an allocation was free and large enough; its header becomes its size, what is left over gets a positive header, no other byte changes, and the pointer leads past the header |
| `StrAlloc.PlacedFollows` | 8/so21_lista_8/stralloc.c:46-59 | Serving a request from an arena there is, is a step of the runs of `StrHeap` |
| `StrAlloc.FirstOfNewFollows` | 8/so21_lista_8/stralloc.c:107-112 | Serving one from a new arena is two steps |
| `StrAlloc.FreedFollows` | 8/so21_lista_8/stralloc.c:119-139 | Freeing a live pointer is a step |
| `StrAlloc.StoredFollows` | 8/so21_lista_8/test.h:4-8 | A client write is a step, so what is proved of every run holds of every use of the allocator |
| `StrAlloc.FreshFits` | 8/so21_lista_8/stralloc.c:13-24 | A scan of a fresh arena stops at its first block, whatever the request |
| `ArenaList.FindPtrArena` | 8/so21_lista_8/arena.c:24-33 | The first arena whose address range contains the pointer, or none |
| `StrAlloc.FoundByAddress` | 8/so21_lista_8/arena.c:24-33 | For a live pointer that is the arena of its block |
| `StrAlloc.WalkTo` | 8/so21_lista_8/stralloc.c:128-133 | For a block of the layout the walk of strfree stops exactly at its header |
| `StrAlloc.Flip` | 8/so21_lista_8/stralloc.c:136-138 | Freeing negates that one byte |
| `StrAlloc.Allocator.StrFree` | 8/so21_lista_8/stralloc.c:119-139 | On NULL nothing changes; on a live pointer no assertion fails, the pointer is live no longer, its header becomes the negative size of its block, and the block can serve a request of that length again |
| `StrAlloc.FreedBytes` | 8/so21_lista_8/stralloc.c:136-138 | Freeing changes that one byte of the heap and no other, and only the pointer freed leaves the live ones |
| `StrAlloc.Allocator.WriteByte` | 8/so21_lista_8/test.h:4-8 | A client write stores its byte in its place in the payload and keeps the allocator valid |
| `StrAlloc.StoredBytes` | 8/so21_lista_8/test.h:4-8 | It changes no other byte of the heap, and no pointer |
| `StrAlloc.CheckArena` | 8/so21_lista_8/stralloc.c:144-151 | On any bytes, the check of one arena passes exactly when its headers tile it |
| `StrAlloc.Allocator.StrMemCheck` | 8/so21_lista_8/stralloc.c:141-153 | On any state, strmemcheck passes exactly when the headers tile every arena |
| `StrAlloc.Allocator.ValidPassesMemCheck` | 8/so21_lista_8/stralloc.c:141-153 | In every valid state strmemcheck passes |
| `StrAlloc.Allocator.ArraysHoldHeap` | 8/so21_lista_8/arena.c:9-22 | The heap of the model is what the arrays of the arenas hold, arena by arena |
| `BitString.TrailingOnes` | 8/so21_lista_8/objpool.c:74-74 | The index computed by tzcnt of the complement is that of the lowest clear bit |
| `BitString.MaskIsShift` | 8/so21_lista_8/objpool.c:39-39 | The mask of a bit is 1 shifted by its number |
| `BitString.ByteOf` | 8/so21_lista_8/objpool.c:128-130 | A byte is full exactly when its eight items are used, and otherwise its first clear bit is its first free item |
| `BitString.SetHolds` | 8/so21_lista_8/objpool.c:36-39 | Setting a bit adds exactly that item to the set the bitmap holds |
| `BitString.ClearHolds` | 8/so21_lista_8/objpool.c:50-54 | Clearing a bit removes exactly that item |
| `SummaryBitmap.SetAllRepresents` | 8/so21_lista_8/objpool.c:36-48 | my_bit_set keeps all three levels in agreement and adds the item |
| `SummaryBitmap.ClearAllRepresents` | 8/so21_lista_8/objpool.c:50-65 | my_bit_clear, with its shortcuts on zero bytes, keeps all three levels in agreement and removes the item |
| `SummaryBitmap.Level2HasRoom` | 8/so21_lista_8/objpool.c:67-71 | With an item free, the scan of level 2 meets a byte that is not full inside its region |
| `SummaryBitmap.ThreeLevels` | 8/so21_lista_8/objpool.c:73-90 | From the first level-2 byte that is not full, the two steps down stay inside the regions and lead to the least clear item |
| `SummaryBitmap.FindFirstClear` | 8/so21_lista_8/objpool.c:67-92 | my_bit_ffc returns the least clear item |
| `SummaryBitmap.FlatFirstClear` | 8/so21_lista_8/objpool.c:125-130 | The plain scan returns the least clear item |
| `SummaryBitmap.MyBitSet` | 8/so21_lista_8/objpool.c:36-48 | In place, the three levels represent the set with the item |
| `SummaryBitmap.MyBitClear` | 8/so21_lista_8/objpool.c:50-65 | In place, the three levels represent the set without the item |
| `SummaryBitmap.LayersStayConsistent` | 8/so21_lista_8/objpool.c:36-65 | After any sequence of sets and clears a level-1 bit is set iff its bitmap byte is full, a level-2 bit iff its level-1 byte is, and the bitmap holds the items set last |
| `SummaryBitmap.BuildsAgree` | 8/so21_lista_8/objpool.c:36-65 | After any such sequence the bitmaps of both builds have the same first clear bit |
| `SummaryBitmap.SearchBoth` | 8/so21_lista_8/objpool.c:67-130 | After any such sequence that leaves an item free, my_bit_ffc and the scan of the plain bitmap return the same index, the least free one |
| `ObjPool.LayoutFits` | 8/so21_lista_8/objpool.c:97-113 | The computed regions are as large as the search assumes, hold a bit for every item, end before the first item, and leave no room for one item more |
| `ObjPool.Arena.constructor` | 8/so21_lista_8/objpool.c:97-113 | A fresh arena has all items free, in either build |
| `ObjPool.Arena.FindFree` | 8/so21_lista_8/objpool.c:125-135 | In either build the search returns the least free item, below the item count |
| `ObjPool.Arena.BitSet` | 8/so21_lista_8/objpool.c:36-48 | In either build the bitmap then represents the set with the item |
| `ObjPool.Arena.BitClear` | 8/so21_lista_8/objpool.c:50-65 | In either build the bitmap then represents the set without the item |
| `ObjPool.Arena.AllocBlock` | 8/so21_lista_8/objpool.c:116-140 | The least free item is taken and the free count drops by one |
| `ObjPool.Arena.BitTest` | 8/so21_lista_8/objpool.c:32-34 | The bit test tells whether the item is in use |
| `ObjPool.Arena.FreeBlock` | 8/so21_lista_8/objpool.c:142-149 | The item the pointer points into is the one freed, once; freeing it again changes nothing |
| `ObjPool.ObjectInArena` | 8/so21_lista_8/objpool.c:110-139 | An item lies past the bitmaps and inside its arena, and its addresses lead back to its index and to no other arena |
| `ObjPool.ObjectsDisjoint` | 8/so21_lista_8/objpool.c:116-160 | Two live objects share no byte |
| `ObjPool.Pool.FindRoom` | 8/so21_lista_8/objpool.c:153-157 | The first arena with a free item; all before it are full |
| `ObjPool.Pool.ObjAlloc` | 8/so21_lista_8/objpool.c:151-160 | A new object is the least free item of the first arena with room, or the first item of a new last arena when all are full, and is not among the live ones |
| `ObjPool.Pool.ObjFree` | 8/so21_lista_8/objpool.c:162-168 | The object the pointer points into is live no longer, the others are unaffected; NULL changes nothing |
| `ObjPool.CountUsed` | 8/so21_lista_8/objpool.c:174-176 | The loop counts the set bits among the items |
| `ObjPool.CountIsSize` | 8/so21_lista_8/objpool.c:174-176 | That count is the size of the set of items in use below the item count |
| `ObjPool.Pool.ObjMemCheck` | 8/so21_lista_8/objpool.c:170-179 | objmemcheck passes exactly when the free counts match the bitmaps |
| `ObjPool.Pool.ValidPassesMemCheck` | 8/so21_lista_8/objpool.c:170-179 | In every valid state it passes |
| `CStrings.PadIs` | 7/so21_lista_7/hashdb.c:27-27 | A stored key is followed by zero bytes up to 48 |
| `CStrings.KeyOfPad` | 7/so21_lista_7/hashdb.c:21-28 | Round trip: a key stored by strncpy is read back the same, also when it fills the entry without a NUL |
| `CStrings.KeyOfString` | 7/so21_lista_7/hashdb.c:21-21 | A string of up to 48 bytes is its own key, and a longer one has its first 48 bytes |
| `CStrings.StrNEqualIsKeyEquality` | 7/so21_lista_7/hashdb.c:30-31 | The bounded comparison succeeds exactly when the 48-byte-truncated strings are equal |
| `HashTable.OneSlotPerKey` | 7/so21_lista_7/hashdb.c:24-32 | Each stored key occupies exactly one slot |
| `HashTable.ChainLenIs` | 7/so21_lista_7/hashdb.c:22-22 | A chain has three slots, or one for each full 16384 of the table but one if that is more |
| `HashTable.StoredKeyIsOnChain` | 7/so21_lista_7/hashdb.c:24-32 | A stored key is on its chain before any free slot |
| `HashTable.StoreKeepsTableOk` | 7/so21_lista_7/hashdb.c:26-29 | Storing a new key in the first free slot of its chain keeps the table well formed and adds exactly that key |
| `HashTable.LongChainHasRoom` | 7/so21_lista_7/hashdb.c:22-25 | Pigeonhole: a chain longer than the number of stored keys has a free slot |
| `HashTable.EnoughRoom` | 7/so21_lista_7/hashdb.c:22-25 | From size 2^14 * (keys + 2) on, every chain has a free slot, for any hash |
| `HashTable.ProbeWrapHarmless` | 7/so21_lista_7/hashdb.c:23-25 | For a table size that is a power of two up to 2^32, the 32-bit wrap-around of hash plus probe number changes no probe |
| `HashDb.Db.constructor` | 7/so21_lista_7/hashdb.c:62-65 | A new table is empty and well formed |
| `HashDb.Db.Action` | 7/so21_lista_7/hashdb.c:17-34 | A query answers membership; an insert stores a new key in the first slot of its chain that is not in use, leaves a present key alone, and fails, with nothing changed, only when all slots of the chain are in use; the empty string is never stored |
| `HashDb.Db.Rehash` | 7/so21_lista_7/hashdb.c:78-109 | All or nothing: the same keys in a table of the new size, or the database unchanged, which happens only where a chain of the new table is full, and never from the size on that always suffices |
| `HashDb.Db.Enlarge` | 7/so21_lista_7/hashdb.c:114-118 | The doubling loop ends, at least doubles the size, keeps the keys |
| `HashDb.Db.Add` | 7/so21_lista_7/hashdb.c:111-120 | Insertion ends for every hash function and database and adds exactly the key; the table grows only when the chain of a new key is full, and at most to twice the size that always suffices |
| `LineFeed.KeyOfCutLine` | 7/so21_lista_7/hashdb.c:125-130 | A line cut by NULs is read as the key of its text |
| `LineFeed.CutLine` | 7/so21_lista_7/hashdb.c:124-130 | The line is cut at its line feed, without a carriage return before it, and what follows is untouched |
| `LineFeed.CrLfLine` | 7/so21_lista_7/hashdb.c:124-130 | A text followed by carriage return and line feed is a line with that text |
| `LineFeed.LfLine` | 7/so21_lista_7/hashdb.c:124-130 | So is one that does not end in a carriage return and is followed by a line feed alone |
| `LineFeed.LastLine` | 7/so21_lista_7/hashdb.c:125-142 | The last line may lack its line feed |
| `LineFeed.LinesOfFile` | 7/so21_lista_7/hashdb.c:159-160 | Round trip: a file made of lines, with either kind of line end, is read as those lines |
| `LineFeed.FileMeans` | 7/so21_lista_7/hashdb.c:159-160 | So it inserts the keys of those lines and queries them in order, whichever line end it has |
| `LineFeed.InsertedIsFound` | 7/so21_lista_7/hashdb.c:132-138 | A file queried where its keys are stored is answered YES for every line that is not blank |
| `LineFeed.AbsentIsNotFound` | 7/so21_lista_7/hashdb.c:132-138 | And NO throughout where none of its keys is |
| `LineFeed.ConsumeLine` | 7/so21_lista_7/hashdb.c:123-142 | One line is inserted or answered, blank lines are skipped, and the next line's position is returned if there is one |
| `LineFeed.FedOne` | 7/so21_lista_7/hashdb.c:160-160 | The effect of a file is that of its first line followed by that of the rest |
| `LineFeed.Process` | 7/so21_lista_7/hashdb.c:159-160 | A whole buffer: inserting adds exactly the keys of its lines, querying answers them in order |
| `Philosophers.StepKeepsInv` | 13/so21_lista_13/philosophers.c:19-43 | Every semaphore operation keeps: each fork's value plus its holders is one, the footman has counted those he admitted, somebody holds no fork |
| `Philosophers.NeighboursExclude` | 13/so21_lista_13/philosophers.c:27-39 | In every run each fork's value plus its holders is one, so two neighbours never eat together nor hold their common fork together |
| `Philosophers.FootmanAdmitsAllButOne` | 13/so21_lista_13/philosophers.c:28-47 | At most N - 1 philosophers are between the footman's wait and post, and never do all hold a fork |
| `Philosophers.AllHoldAlike` | 13/so21_lista_13/philosophers.c:29-39 | Around the ring: if all held a fork, all would hold just the left or all just the right one |
| `Philosophers.NoDeadlock` | 13/so21_lista_13/philosophers.c:19-51 | In every reachable state for every N >= 2 some philosopher is not blocked |
| `Philosophers.BlockedByHoldersOnly` | 13/so21_lista_13/philosophers.c:27-30 | A philosopher is blocked exactly when all others but one are admitted, or the neighbour holds the fork he waits for |
| `Philosophers.Operations` | 13/so21_lista_13/philosophers.c:27-39 | Which semaphore each of his six operations changes, and by how much |
| `Philosophers.SitsDownAlone` | 13/so21_lista_13/philosophers.c:27-32 | Left alone with free forks and an admitting footman he eats after three operations |
| `Philosophers.GetsUpAlone` | 13/so21_lista_13/philosophers.c:36-39 | One who eats is thinking again after three more, whatever the others hold |
| `Philosophers.OneAloneIsStuck` | 13/so21_lista_13/philosophers.c:46-51 | With N = 1 nobody can ever move, so N >= 2 is exact |
| `Philosophers.SomeoneEats` | 13/so21_lista_13/philosophers.c:23-40 | Among any 5N + 1 consecutive steps some philosopher sits down to eat |
| `Semaphore.StepKeepsInv` | 13/sem.c:17-35 | Every action of every thread, spurious wakeups and barging included, keeps the invariant |
| `Semaphore.ValueIsConserved` | 13/sem.c:17-35 | The value is never negative, and is init plus posts minus waits, where a call counts from its change of the value on: when it has returned, or while it has only to signal or unlock |
| `Semaphore.CallActsOnce` | 13/sem.c:17-35 | Between the call and the return of a wait its thread does exactly one P and no V; between the call and the return of a post exactly one V and no P |
| `Semaphore.MutualExclusion` | 13/sem.c:17-35 | Never are two threads between lock and unlock |
| `Semaphore.NoLostWakeup` | 13/sem.c:18-33 | While a thread sleeps and the mutex is free, the value is at most the number of woken threads that have yet to look |
| `Semaphore.QuiescentMeansEmpty` | 13/sem.c:18-33 | With all threads idle or asleep the value is init plus the posts that have returned minus the waits that have, and it is 0 if anybody sleeps |
| `Semaphore.TokenMeansProgress` | 13/sem.c:18-33 | With a sleeper and a token some thread that is neither idle nor asleep can act |
| `Semaphore.BlockedByMutexOnly` | 13/sem.c:17-35 | A thread is blocked exactly when it is about to lock the mutex and the mutex is held |
| `Semaphore.BlockedBehindHolder` | 13/sem.c:17-35 | In every run whoever is blocked waits for another thread that holds the mutex and can act |
| `Semaphore.HolderLetsGo` | 13/sem.c:17-35 | The holder gives the mutex up after at most three actions of its own |
| `Semaphore.OthersLeaveHolder` | 13/sem.c:17-35 | What the others do meanwhile changes nothing about that |
| `Semaphore.CallsCanBegin` | 13/sem.c:17-28 | An idle thread can begin either call at any time |
| `Semaphore.PostReturns` | 13/sem.c:28-35 | With the mutex free, post left alone returns after five actions with the value raised by one |
| `Semaphore.WaitReturns` | 13/sem.c:17-26 | With the mutex free and a positive value, wait left alone returns after five actions with the value lowered by one |
| `Semaphore.StartsFor` | 13/sem.c:6-15 | Runs start for exactly the values that are not negative, with that value, a free mutex and idle threads |
| `Semaphore.RefinesAtomicCounter` | 13/sem.c:17-35 | Every step leaves the value alone, or is an atomic P on a positive value by a thread inside wait, or an atomic V by a thread inside post |
| `Savages.MealsAreConserved` | 13/so21_lista_13/savages.c:20-48 | The count stays in 0..M, and meals eaten plus meals left are M times the refills |
| `Savages.RefillsOnlyEmptyPot` | 13/so21_lista_13/savages.c:38-48 | The cook overwrites the count only when it is 0 and one savage waits holding the mutex |
| `Savages.NoDeadlock` | 13/so21_lista_13/savages.c:20-48 | Some participant can always act |
| `Savages.BlockedByHandshakeOnly` | 13/so21_lista_13/savages.c:20-48 | A savage is blocked only while another one holds the mutex or his refill has not been served, the cook only while no order is placed; and whoever awaits has an order, a cook at work or a served pot before him |
| `Savages.MealsAndOrders` | 13/so21_lista_13/savages.c:24-32 | A meal is taken from a pot that is not empty; the cook is woken exactly when it is empty; after the wait it holds M meals |
| `Savages.EmptyRefillOverdraws` | 13/so21_lista_13/savages.c:45-45 | With M = 0 a run makes the count negative, so M >= 1 is exact |
| `Primes.StreamContents` | 5/so21_lista_5/prime.c:36-42 | Pipe j carries, in order, the numbers that none of the first j printed numbers divides |
| `Primes.HeadIsPrime` | 5/so21_lista_5/prime.c:49-58 | The first number in every pipe is prime |
| `Primes.HeadsArePrimes` | 5/so21_lista_5/prime.c:44-68 | The first numbers of the pipes are the primes in increasing order, without gaps |
| `Primes.PrimesUpToIs` | 5/so21_lista_5/prime.c:36-42 | The list of primes up to a limit has, in increasing order, exactly the numbers that no smaller number but 1 divides |
| `PrimeSieve.StepKeepsInv` | 5/so21_lista_5/prime.c:30-78 | Every step of every process keeps each pipe a part of its stream |
| `PrimeSieve.PrintsThePrimes` | 5/so21_lista_5/prime.c:30-78 | In every interleaving a prefix of the primes is printed, each before its filter is forked; once the printing process has exited, exactly the primes up to the limit, with one filter forked for each |
| `PrimeSieve.PipesStayWithinCap` | 5/so21_lista_5/prime.c:24-34 | No pipe ever holds more numbers than its capacity |
| `PrimeSieve.GeneratorBlocked` | 5/so21_lista_5/prime.c:30-34 | The generator is blocked only by a full pipe |
| `PrimeSieve.FilterBlocked` | 5/so21_lista_5/prime.c:36-42 | A filter is blocked only by a full pipe it is to write, or an empty one it is to read whose writer lives |
| `PrimeSieve.HeadBlocked` | 5/so21_lista_5/prime.c:44-78 | The process that prints is blocked only by an empty pipe whose writer lives |
| `PrimeSieve.NoDeadlock` | 5/so21_lista_5/prime.c:30-78 | With pipes of any positive capacity some process can act until all have exited |
| `PrimeSieve.RunsEnd` | 5/so21_lista_5/prime.c:30-78 | Every run is finite, with an explicit bound on its steps |
| `PrimeSieve.MaximalRunIsComplete` | 5/so21_lista_5/prime.c:30-78 | A run cannot go on exactly when all processes have exited, and then all primes are printed |
| `SortSpec.SortedIsUnique` | 7/so21_lista_7/forksort.c:112-117 | A table has one sorted permutation |
| `SortSpec.SortedMeans` | 7/so21_lista_7/forksort.c:112-117 | A range is sorted if and only if no element of it is larger than a later one |
| `SortSpec.PermutedMeans` | 7/so21_lista_7/forksort.c:3-41 | Reordering a range keeps the elements of the table and leaves what is outside in place |
| `SortSpec.InsertedInRange` | 7/so21_lista_7/forksort.c:7-15 | One insertion extends the sorted prefix and only reorders it |
| `SortSpec.PartitionEnds` | 7/so21_lista_7/forksort.c:29-40 | Where the cursors meet, the smaller elements are exactly those below |
| `SortSpec.LeastToFront` | 7/so21_lista_7/forksort.c:66-68 | With nothing below the pivot, swapping it to the front leaves a least element there |
| `HybridSort.InsertOne` | 7/so21_lista_7/forksort.c:5-15 | The scan and shift insert the element before the first that is not smaller |
| `HybridSort.InsertionSort` | 7/so21_lista_7/forksort.c:3-17 | The range is sorted, a permutation of what it was, and nothing else changes |
| `HybridSort.SwapElem` | 7/so21_lista_7/forksort.c:19-23 | Two elements are exchanged and nothing else changes |
| `HybridSort.Partition` | 7/so21_lista_7/forksort.c:25-41 | Below the result everything is smaller than the pivot, from there on nothing is; nothing moved if the result is the begin |
| `HybridSort.SplitRange` | 7/so21_lista_7/forksort.c:63-71 | For any pivot both parts are not empty and in order with each other |
| `HybridSort.QuickSort` | 7/so21_lista_7/forksort.c:46-87 | For any choice of pivots the range becomes sorted and a permutation of what it was, and nothing else changes |
| `HybridSort.SortTable` | 7/so21_lista_7/forksort.c:109-117 | Called on a whole table the sort leaves what main asserts: no element smaller than one before it, and the same elements |
| `ForkSort.StepGood` | 7/so21_lista_7/forksort.c:46-87 | Every action of every process keeps the invariant of the whole tree and reorders only the range of its own call |
| `ForkSort.JoinGood` | 7/so21_lista_7/forksort.c:75-79 | When a call has waited once per child it forked, those children have exited and its range is sorted |
| `ForkSort.InlineCallsNeverWait` | 7/so21_lista_7/forksort.c:75-79 | A call that did not fork forks no child, nor does any call run inline in it, and it waits for none |
| `ForkSort.WaitsForItsOwnParts` | 7/so21_lista_7/forksort.c:52-79 | At every moment of every run the children forked by the process of a call, for it and for all calls it runs inline, are exactly the call's own forked parts, so a wait for any child reaps one of those |
| `ForkSort.ForkedCallPartitions` | 7/so21_lista_7/forksort.c:50-82 | A forked call always takes the branch that ends in exit |
| `ForkSort.FirstAction` | 7/so21_lista_7/forksort.c:60-65 | One element is left alone, up to 33 are sorted by insertion, and for more any element of the range may be the pivot |
| `ForkSort.PartsOverlap` | 7/so21_lista_7/forksort.c:50-71 | The second part can act if and only if the first has returned or has more than 262145 elements and so was forked |
| `ForkSort.FirstPartRuns` | 7/so21_lista_7/forksort.c:69-69 | The first part is never held up by the second or by its caller |
| `ForkSort.ReturnsAfterWaits` | 7/so21_lista_7/forksort.c:74-82 | A call returns only when both parts are done and it has waited once for each part it forked; no wait returns before a child not yet waited for has exited |
| `ForkSort.StepProgress` | 7/so21_lista_7/forksort.c:46-87 | Every action of every process decreases a measure of the work left |
| `ForkSort.SortsTheTable` | 7/so21_lista_7/forksort.c:108-117 | For all pivots and interleavings, when main goes on no element is larger than a later one and the table is a permutation of its input; for a large table main has waited for the child |
| `ForkSort.ResultIsUnique` | 7/so21_lista_7/forksort.c:108-117 | Any two runs on the same input leave the same table, whatever the pivots and interleavings |
| `ForkSort.NoDeadlock` | 7/so21_lista_7/forksort.c:46-110 | Until main goes on, some process can act |
| `ForkSort.RunsEnd` | 7/so21_lista_7/forksort.c:46-110 | No run has more than 2n^2 + 1 steps for a table of n elements |
| `TextStages.StagesCompose` | 3/so21_lista_3/coro.c:113-170 | The three stages, one after the other, print exactly the letters with their case swapped |
| `TextStages.SqueezingKeepsLetters` | 3/so21_lista_3/coro.c:119-128 | Dropping repeated spaces loses no letter |
| `TextStages.SqueezedKeeps` | 3/so21_lista_3/coro.c:119-128 | A character is passed on unless it is a space at the start or after a space |
| `TextStages.SwapCaseIsInvolution` | 3/so21_lista_3/coro.c:161-164 | Small letters become capital and capitals small; done twice it changes nothing |
| `TextStages.SwapCaseKeepsOrder` | 3/so21_lista_3/coro.c:161-164 | Letters keep their place in the alphabet |
| `TextStages.SwappedConcat` | 3/so21_lista_3/coro.c:153-170 | What two texts print one after the other is what their concatenation prints |
| `TextStages.SwappedOne` | 3/so21_lista_3/coro.c:153-170 | What a single character prints, by its code |
| `TextStages.SwappedTwice` | 3/so21_lista_3/coro.c:153-170 | What is printed for a text prints the letters of the text |
| `TextStages.WordStartsMeans` | 3/so21_lista_3/coro.c:120-133 | Words start at characters that are no spaces, at the start or after a space |
| `Coroutines.Program.Switch` | 3/so21_lista_3/coro.c:50-65 | The next coroutine in the queue runs; one that passes EOF leaves the queue; the dispatcher is resumed when the queue is empty |
| `Coroutines.SuccessorOf` | 3/so21_lista_3/coro.c:60-63 | The one after it in the queue, if any, comes next |
| `Coroutines.WithoutOne` | 3/so21_lista_3/coro.c:54-58 | A coroutine that has ended drops out and the others keep their order |
| `Coroutines.Program.Reader` | 3/so21_lista_3/coro.c:113-135 | Each turn passes on the next character of the squeezed text, and the word count is right when the text ends, for a text that is not empty |
| `Coroutines.Program.Filter` | 3/so21_lista_3/coro.c:137-151 | A letter is passed on, anything else becomes NOTHING and is counted |
| `Coroutines.Program.Printer` | 3/so21_lista_3/coro.c:153-170 | A letter is printed with its case swapped and counted, NOTHING is skipped |
| `Coroutines.Program.Run` | 3/so21_lista_3/coro.c:172-183 | The run ends with an empty queue; the output is that of the composed stages, the input's letters in order, each with its case swapped, so that a run on the output prints the letters of the input; printed plus removed is what the reader passed on; words is the number of words, plus one for an empty input |

## Left out

- HashDb.Db.Add: does not model the 32-bit sum of hash and probe number and the `int` chain length, because with more than 2^32 slots they would bound the chain; `HashTable.ProbeWrapHarmless` shows that smaller tables are not affected.
- LineFeed.Process: requires a NUL after the input, because without one the string functions read past the mapping (7/so21_lista_7/hashdb.c:158-160); the kernel supplies it unless the file's length is a whole number of pages, where the program's behaviour is not defined.
- PrimeSieve.PrintsThePrimes: does not model block-buffered output, because the program is meant for a terminal; with a buffered stdout every fork would copy unprinted text.
- ForkSort.StepGood: does not model the single moves inside one insertion of InsertionSort, because no other process can see that range meanwhile.
- Coroutines.Program.Run: does not model bytes that read as EOF or as 0, because to the scheduler they mean something else; the text is ASCII without NUL.
- The loop of stralloc is split where its walk wraps around: searching the arenas, and linking a new one when the search has failed.
- The file behind the key database, its temporary name and the atomic rename are one replacement of the table.
- Free space of the string allocator: split remainders are never given back, so nothing is claimed about it.
- `db_open` on an existing file: the table in it is taken to be one this program wrote.
- `objfree` on a pointer into an arena's header or bitmaps: its index computation is not defined for such pointers.
- mmap, ftruncate, rename, madvise, file descriptors and failing forks; sizes of structures are those of a 64-bit machine.
- `jenkins_hash`, `random` and the kernel's choice of addresses are arbitrary parameters.
- Starvation: POSIX semaphores promise no order among waiters.
- Jump buffers and stacks of coroutines: a coroutine is its local variables and its next segment.
- 13/so21_lista_13/barrier.c, smokers.c and the programs of list 14: unfinished, or relying on waits that a spurious wakeup breaks.
- The remaining demonstrations of system calls: they would only add single-branch facts.
