# DUMA: proofs about the red-zone allocator

DUMA replaces `malloc` by an allocator that puts every block against a page nobody may
touch. This project models that allocator together with the three mechanisms around it,
and proves what they promise.

* **The allocator** (`src/duma.c`, `duma_hlp.h`, `paging.h`). A table of slot records
  describes all memory, including the memory of the table itself, which is a block the
  allocator allocates, moves and frees. Blocks are carved out of chunks by best fit and
  splitting; freed blocks are denied, trimmed and finally given back by
  `reduceProtectedMemory`; two counters bound what is protected and held; a byte pattern
  fills the no man's land around each block.
* **The recursive lock** (`src/sem_inc.c`, pthread mutex variant): a re-entrant lock made
  of a non-recursive mutex and an unsynchronised read of its owner.
* **The `delete` macro** (`dumapp.h`, `src/dumapp.cpp`): a `for` loop that takes the lock
  twice and keeps a stack of source positions.
* **The copy routines and the number printers** (`src/duma.c`, `src/print.c`).

## How it is built

`Heap` says on values what every operation of the allocator does to its state: the slot
records, the counters and the process memory (which bytes are mapped, which accessible,
what they hold; every access to a byte that is not accessible ends the process). Class
`Duma` is the allocator in the program's own form: an array of records, counters, and
the loops of the source. Each of its methods is proved to do exactly what the function of
`Heap` says. `Program` lets programs call the object, so that its runs are the runs of
`Runs.Run`, and everything below holds of it.

`Outcome.Abort` stands for the end of the process, by `DUMA_Abort` or by the hardware.
The kernel is a script of answers to `mmap`: an answer that is not a fresh page-aligned
region counts as a failure. All theorems hold for every script, so for every behaviour
of `mmap`. Configuration fixed throughout: not Windows, pthread mutex, leak detection
on, neither DETOURS nor EXPLICIT_INIT; settings constant after initialisation; page size
a power of two and a multiple of 1024; a page holds at least two slot records.

| modules | content |
|---|---|
| `Bits`, `Placement` | bit masks and the address arithmetic of a block |
| `Wrappers`, `Pages`, `Slots`, `Tiling` | outcomes, process memory, slot records, disjoint intervals |
| `Heap` | the operations as functions on the state |
| `Invariants` | what every state satisfies; frames |
| `Reduction`, `Chunks`, `Placing`, `Allocation`, `Deallocation`, `Calls`, `Growth`, `Operations`, `Reallocation`, `Initialisation` | each operation keeps the invariants and does what it should |
| `Runs`, `Theorems`, `Detection`, `NoFalseAlarm` | statements about whole runs of arbitrary programs |
| `Pointers` | what a caller can rely on about a pointer it was given |
| `Least` | reductions release no more than they must; when frees and allocations reduce |
| `Frequency` | CHECK_FREQ finds damage after a bounded number of calls |
| `Verdicts` | with which verdict calls end, and what exactly the start sets up |
| `Effects` | exact effects of calls on the records; the program starts |
| `Exhaustion`, `Undercount`, `Wrap`, `Leftover`, `StalePointer` | where the code does not do what it should: exact conditions, and runs that show it |
| `Duma`, `Program` | the allocator object, and programs that call it |
| `Lock`, `DeleteMacro`, `Copy`, `Print` | the other mechanisms |

Names used throughout: `Between` is the invariant between two calls (structure, books,
supply of records, closed table, live bytes accessible); `AllDead` says that all dead
pages and all protected memory are inaccessible; `LiveMap` is the abstract map from
live pointers to size and family. `State.lost` is a history variable the program does
not have: the kB that reductions released without reaching their goal.

## What the proofs found

* `unUsedSlots` is a `size_t` that is decremented without a test (`src/duma.c:1582`,
  `src/duma.c:1606`). It wraps around exactly if it was smaller than the number of
  records a request takes (`Operations.SupplyCounterExact`), and then the next request
  does not grow the table. Failing growth alone does not suffice: a counter that is the
  true number of empty records never wraps, since the request then stops with "No empty
  slot" (`Undercount.TrueCountStays`). What makes it too low are the records that the
  second phase of a reduction empties without counting them (`duma_hlp.h:71-88`,
  `Undercount.ReduceUncounted`), and, with pages of a megabyte or more, one record that
  initialisation counts as used but leaves empty (`Undercount.StartCount`). It does
  happen: `Wrap.CounterWraps` gives, for every configuration with `PROTECT_FREE` < 0, no
  `MAX_ALLOC`, `MALLOC_FAILEXIT` off, pages of up to 128 kB and ten records or more in a
  page, a behaviour of `mmap` and a program whose run from the start ends with the counter
  at SIZE_MAX. While `mmap` gives memory it never happens (`Theorems.RunKeeps`).
* Below mode with an alignment above the page size makes bytes behind the slot
  accessible exactly when the byte after the slot's first page is not aligned
  (`Placement.BelowLiveRangeInSlot`; `Placement.BelowLiveRangeCanLeaveSlot` is a
  witness for every page size). The theorems about whole runs exclude
  below-mode requests with an alignment above the page size (`Runs.ModestOp`).
* `reduceProtectedMemory` releases memory without booking it when it returns 0. The
  books exceed the real memory by exactly that amount (`Theorems.RunAccounts`).
  Without a `MAX_ALLOC` limit and while `mmap` succeeds this never happens, whatever
  `PROTECT_FREE` is (`Theorems.RunConserves`). `Wrap.BooksLost` is a run from the start
  after which nothing is protected although the books say so.
* With `PROTECT_FREE` > 0, a freed block that does not fit under the limit is protected
  only if at least its own size is protected already; otherwise it is given back at once,
  even where a smaller reduction would have made room (`Deallocation.ReleaseVerdict`,
  `src/duma.c:1864-1894`).
* `MAX_ALLOC` is not a limit: a chunk that would exceed it is created all the same. The
  booked memory stays under it if and only if the chunk fits, or at least the chunk's kB
  are protected and can be released (`Least.LimitHolds`, `src/duma.c:1541-1544`).
* A `realloc` to a positive size should refuse every pointer that is not live, also one
  that was never issued. It accepts exactly one of them: the address its own inner
  allocation gets, which the state before the call determines. The new block is then
  freed at once and its address returned as if it were live
  (`StalePointer.StaleVerdict`). `StalePointer.NeverIssuedAccepted` shows it in the state
  in which the program starts, for a pointer that was never handed out.
* `duma_check` accepts more than live pointers: the table's own address always, and the
  address of a free slot unless a stale `protAddress` makes the scan fail
  (`StalePointer.CheckVerdict`, `StalePointer.TablePasses`).
* `MALLOC_FAILEXIT` is ignored when `PROTECT_FREE` is 0, since the exiting call is
  inside that branch (`src/duma.c:1562-1580`). While every `mmap` fails, an allocation
  that no free slot can serve ends the program if and only if the setting is on, the
  entry point asks for it, and `PROTECT_FREE` is not 0 (`Exhaustion.AllocateDry`). In
  the state of `Exhaustion.FailExitIgnored` the same malloc, with the setting on,
  returns 0 or ends the program depending on `PROTECT_FREE` alone.
* The comment in `src/print.c:96-99` says the buffer suffices for base 2. It is one
  character short: words with the top bit set abort (`Print.PrintsEveryWord`). DUMA
  prints in bases 10 and 16 only, where the abort is unreachable.
* Free remainders of chunks created after initialisation stay accessible
  (`src/duma.c:1556-1608`, `Leftover.ChunkLeaves`; `Leftover.FreeMemoryOpen` is a run
  from the start), so nothing here says that free memory is denied.

## Model

| member | source | states |
|---|---|---|
| Bits.NextLowerPowerOf2 | src/duma.c:1398-1409 | the clear-lowest-bit loop ends with the greatest power of two not above the size |
| Bits.LowestBitTest | src/duma.c:1411-1418 | the test `a == (a & -a)` accepts exactly the powers of two |
| Bits.LeadingPowerIsGreatest | src/duma.c:1398-1409 | no power of two at or below the size is greater than the chosen alignment |
| Placement.AbovePlacement | src/duma.c:1429-1433 | above mode, every power-of-two alignment: the block is aligned and inside its slot, a whole dead page follows it, the gap is smaller than a page |
| Placement.AboveTail | src/duma.c:1634-1639 | alignment up to a page: the dead page is the slot's last page and the undetectable tail is exactly (-size) mod alignment |
| Placement.BelowPlacement | src/duma.c:1655-1658 | below mode: the block is aligned, inside its slot, and preceded by a whole dead page; for alignments up to a page it starts at the second page |
| Placement.BelowLiveRangeInSlot | src/duma.c:1655-1666 | the pages made accessible stay inside the slot exactly when the byte after its first page is aligned |
| Placement.BelowLiveRangeCanLeaveSlot | src/duma.c:1663 | a family of requests, one for every page size, whose accessible pages leave the slot |
| Allocation.NumChunksIsOne | src/duma.c:1545-1560 | without wrap-around a request never needs more than one chunk |
| Tiling.Split | src/duma.c:1590-1608 | cutting a slot in two keeps the slots a disjoint cover of the same memory |
| Tiling.Shrink | duma_hlp.h:43-56 | releasing the end of a slot keeps the slots a disjoint cover of what is left |
| Invariants.UserAddressesDiffer | duma_hlp.h:95-107 | two different non-empty slots never have the same user address |
| Invariants.LookupFinds | duma_hlp.h:99-107 | looking up a slot's user address finds that slot |
| Heap.ReduceRank | src/duma.c:1562-1575 | a successful reduction strictly decreases the number of releases still possible, so the create-and-retry loop ends |
| Reduction.KeptSizeMeans | duma_hlp.h:45-50 | what phase 1 keeps of a freed block is whole pages, up to and including the one of its user address |
| Reduction.ReduceResult | duma_hlp.h:31-93 | result 1 exactly if at least k kB of protected memory were released, and then the books follow; result 0 leaves no protected slot; used and free slots are untouched; while phase 1 suffices every freed pointer is still recognised (that no more than needed is released: `Least.ReduceIsLeast`) |
| Least.ReduceIsLeast | duma_hlp.h:31-93 | which records a reduction leaves: the first n freed blocks are cut down, with the least n that releases k kB; only if cutting down all of them does not suffice, the first n of them are given back, again with the least n; every other record is unchanged |
| Least.ReducesLittle | duma_hlp.h:43-60 | so a reduction that succeeds releases at least k kB, and less than k kB more than one freed block holds |
| Least.LimitHolds | src/duma.c:1541-1544 | with MAX_ALLOC > 0 protected memory is reduced exactly if the chunk would exceed the limit, by the least reduction of the chunk's kB; the chunk then fits under the limit if and only if it did before or that much is protected |
| Least.RetrySteps | src/duma.c:1562-1571 | the retry loop makes one least reduction per mmap call, stops at the first call that succeeds, and gives up only when nothing is protected any more |
| Least.ObtainSteps | src/duma.c:1541-1576 | getting a chunk touches protected memory beyond MAX_ALLOC only for failing mmap calls, never with PROTECT_FREE = 0; it fails only when nothing is protected, after one more call if failures are left to the environment |
| Least.ChunkSizeMeans | src/duma.c:1521-1526 | a chunk is the smallest number of whole pages that holds the slot and a megabyte |
| Chunks.ObtainKeeps | src/duma.c:1541-1580 | getting a chunk keeps the tiling and every slot that is not protected; without a limit and without failures it reduces nothing and succeeds |
| Chunks.SplitKeeps | src/duma.c:1590-1608 | after a split the slot has exactly the bytes needed, the surplus is a free slot, no other slot changes |
| Placing.PlaceKeeps | src/duma.c:1610-1691 | the new block is aligned, exactly its accessible part is open, its no man's land is filled, and no other slot's record, bytes or permissions change |
| Placing.ProtectMeans | src/duma.c:1624-1666 | which bytes of the slot are accessible afterwards, for the three placements |
| Allocation.CoreKeeps | src/duma.c:1481-1691 | best fit or new chunk, split, place: block k is new and as requested, every other block and the table are kept, and exactly the predicted number of records is used up |
| Pointers.AllocateGives | src/duma.c:1398-1418 | a pointer an allocation gives is a multiple of the alignment asked for; without one, of the default alignment, or for a smaller block of every power of two up to its size; its record has the size, side, family and position of the request; in above mode fewer bytes than the alignment follow it; it holds the fill byte |
| Pointers.BadAlignmentStops | src/duma.c:1411-1418 | an alignment asked for that is no power of two ends the program, and so does a default one unless the block is smaller |
| Pointers.ZeroSizeVerdict | src/duma.c:1312-1321 | a zero-size request ends the program, gives 0, or gives null_addr by its strategy; C and C++ families follow their own setting |
| Pointers.ZeroSizeBlock | src/duma.c:1610-1622 | strategy 3 gives the middle of a page of its own that nobody may touch |
| Operations.DefaultAlignment | src/duma.c:1398-1418 | the alignment chosen for a block always passes the power-of-two test, and the undetectable tail in above mode is smaller than it and, for small blocks, than the block |
| Operations.AllocateKeeps | src/duma.c:1294-1727 | a whole allocation keeps the invariants and all other blocks; the pointer is new; the bytes hold the fill byte; 0 only if mmap failed or the zero-size strategy says so (its alignment in the caller's terms: `Pointers.AllocateGives`) |
| Operations.SupplyCounterExact | src/duma.c:1467-1469 | the supply counter stays below the number of empty records exactly if it was at least the number of records taken; else it wraps to at least SIZE_MAX - 1 and the next request does not grow the table |
| Verdicts.CoreStops | src/duma.c:1530-1537 | "No empty slot" exactly if no free slot fits and fewer than two records are empty; the null-pointer write exactly if a free slot fits that is too large and no record is empty |
| Verdicts.FamilyTable | src/duma.c:306-324 | the family test accepts exactly the pairs of allocator and deallocator that belong together |
| Verdicts.FreeSays | src/duma.c:1751-1837 | without damage a free returns for a live block of its family, and otherwise names the reason: already freed, family mismatch, or no slot's address, with the first slot that touches it |
| Operations.FreeVerdict | src/duma.c:1772-1837 | the pointer checks of free pass exactly for live pointers of the same family |
| Deallocation.ReleaseKeeps | src/duma.c:1862-1915 | releasing never aborts: the block's slot is protected as a whole or given back, protected always with PROTECT_FREE < 0, and all other blocks are kept |
| Deallocation.ReleaseVerdict | src/duma.c:1864-1894 | which of the two, decided before the call: it is protected exactly with PROTECT_FREE < 0, or with PROTECT_FREE > 0 if it fits under the limit or at least its own size, below the limit, is protected already |
| Least.FreeIsLeast | src/duma.c:1862-1894 | a whole free: where the block's memory goes, decided before the call; its record names the free's position if that is known; every other record is unchanged, or that of the least reduction by the block's own kB, exactly when PROTECT_FREE > 0, there is no room, and that much, below the limit, is booked as protected |
| Reduction.ReduceSucceeds | duma_hlp.h:31-93 | decided before the call: a reduction returns 1 exactly if at least k kB are protected, and leaves released memory in the books exactly if some, but less, is |
| Operations.DeallocateKeeps | src/duma.c:1736-1921 | a free that returns freed exactly the live block of that pointer and family |
| Growth.SwitchMeans | src/duma.c:1247-1255 | the appended records are empty because their bytes are 0, also the one that begins in the old table's tail when the record size does not divide the page; only the new table is written, and its tail is 0 again |
| Growth.GrowKeeps | src/duma.c:1218-1263 | growth moves the table transparently: all user records kept, exactly slotsPerPage empty records appended, the old table unmapped, exactly one internal slot in use, describing the new table; or mmap failed and nothing users see changed |
| Reallocation.CopyMeans | src/duma.c:2142-2147 | the first min(old, new) bytes are the old contents, growth is zero, nothing else is written |
| Reallocation.ReallocKeeps | src/duma.c:2106-2159 | realloc moves the contents, kills the old block, keeps all others even if the table moves meanwhile; on failure the old block is untouched |
| Pointers.ReallocGives | src/duma.c:2121-2147 | the pointer of a realloc, of a live block or of 0, is aligned by the default alignment and its size, its dead page is on the side PROTECT_BELOW says, its record is that of a realloc; it holds FILL's byte, or the old contents followed by zeros |
| Reallocation.NewPointer | src/duma.c:1636-1637 | a pointer handed out is not one of a live (or, without reductions, protected) slot |
| Verdicts.InitMeans | src/duma.c:1075-1186 | the start in full: null block and chunk where mmap put them, the table in the first page, the rest of a chunk of a megabyte or more one denied free slot, all other records empty, only the table accessible, all counters |
| Initialisation.InitKeeps | src/duma.c:1075-1186 | initialisation establishes every invariant |
| Runs.FreeChecksRefine | src/duma.c:1751-1837 | free(p) passes all pointer checks exactly if p is a key of the live map with the same family |
| Runs.StepRefines | src/duma.c:1294-2159 | every operation that returns does to the live map what the abstract operation does, and keeps the invariant |
| Theorems.RunKeeps | src/duma.c:1294-2159 | every completed run of every program keeps the invariant; while mmap succeeds at least five records stay empty and known to be |
| Theorems.RunRefines | src/duma.c:1294-2159 | over every run the slot table refines a plain map from pointers to (size, family) |
| Effects.BootReturns | src/duma.c:983-1062 | the program starts: if mmap gives the null block and the first chunk, initialisation, the first malloc and the first free return, whatever mmap answers later |
| Theorems.BootKeeps | src/duma.c:983-1062 | the state in which the program starts satisfies the invariants |
| Theorems.StatesExist | src/duma.c:1075-1191 | the invariants are not empty: every configuration has a state between calls that satisfies all of them |
| Theorems.RedZoneHolds | src/duma.c:1610-1666 | every live block's bytes are accessible and a whole mapped page next to it is not |
| Theorems.RunRedZone | src/duma.c:1610-1666 | no later allocation, free, growth or reduction changes that, over every run |
| Theorems.FreedStaysDead | src/duma.c:1876-1881 | PROTECT_FREE < 0: a protected slot stays the same, protected and inaccessible for ever |
| Theorems.NeverReissued | src/duma.c:1476-1506 | PROTECT_FREE < 0, no limit, mmap never failing: no pointer is handed out twice in a run |
| Theorems.RunAccounts | src/duma.c:1864-1894 | after every run both sums exceed the real memory by exactly what failed reductions released, which never shrinks; the books are exact exactly if that is nothing; PROTECT_FREE bounds the protected memory |
| Theorems.BootAccounts | src/duma.c:1864-1894 | the same after every run from the start, for every behaviour of mmap |
| Theorems.RunConserves | src/duma.c:1864-1894 | without a limit and while mmap succeeds, over every run: memory held plus given back is memory created, to the last kB |
| Theorems.BootExact | src/duma.c:1075-1186 | the books are exact when the program starts |
| Detection.CheckSlackVerdict | duma_hlp.h:167-227 | the slack check reads accessible bytes only and fails exactly if a no man's land byte was overwritten, in both modes |
| Verdicts.BlamedSide | duma_hlp.h:167-227 | the check blames the bytes below the block exactly if one of them was overwritten, else those above |
| Verdicts.CheckAllVerdict | src/duma.c:1989-2001 | a full check returns exactly if no block's no man's land was overwritten |
| Detection.SlotPartition | duma_hlp.h:129-161 | every byte of a block's slot is exactly one of: user byte, checked no man's land, dead byte |
| Detection.CorruptionCaught | src/duma.c:1850-1851 | an overwritten no man's land makes a free or check of the block, and a full check, abort |
| Detection.CorruptRealloc | src/duma.c:2106-2159 | a realloc of such a block gets no memory or aborts |
| Detection.RunCorrupt | duma_hlp.h:167-242 | over every run that does not write the damaged byte again, the block stays live with the same record and the damage stays |
| Detection.CaughtForever | duma_hlp.h:167-242 | so after every such run a free or check of the block, and a full check, abort |
| Detection.StrayWriteCaught | duma_hlp.h:129-227 | any write outside a block but inside its slot faults at once, or is caught by the first free or check that is reached, however much later, unless it writes the fill byte |
| Frequency.RunTicks | src/duma.c:1456-1461 | the CHECK_FREQ counter stays below CHECK_FREQ over every run |
| Frequency.RunNearer | src/duma.c:1761-1766 | while a block is damaged every allocation and free that returns has brought the next scan nearer, growth and realloc included |
| Frequency.FoundInTime | src/duma.c:1456-1461 | so with CHECK_FREQ = n > 0 a damaged block ends the program within n allocations and frees, of whatever blocks |
| Frequency.BootTicks | src/duma.c:983-1062 | the counter starts in that range |
| NoFalseAlarm.StepFine | src/duma.c:1294-2003 | an operation a program may ask for never aborts, except for an mmap failure that is set to be fatal |
| NoFalseAlarm.NoAlarmEver | src/duma.c:1532-1541 | no run of a well-behaved program is ever stopped while mmap succeeds; in particular "No empty slot" is unreachable, also in the internal allocation |
| NoFalseAlarm.BootHealthy | src/duma.c:983-1062 | the program starts in such a state |
| Exhaustion.ObtainDry | src/duma.c:1541-1580 | while every mmap fails, asking for a chunk ends the program exactly if MALLOC_FAILEXIT, the fail environment and a PROTECT_FREE other than 0 come together, and gives address 0 otherwise |
| Exhaustion.AllocateDry | src/duma.c:1294-1727 | while every mmap fails, a whole allocation ends the program exactly under that condition and if no free slot fits; otherwise it returns, with 0 exactly if no free slot fits |
| Exhaustion.FailExitIgnored | src/duma.c:1562-1580 | a state and a malloc that returns 0 with MALLOC_FAILEXIT set if PROTECT_FREE is 0, and ends the program otherwise |
| Undercount.EnoughRecords | src/duma.c:1530-1537 | a request that is served found as many empty records as it takes |
| Undercount.TrueCountStays | src/duma.c:1467-1469 | a supply counter that is the true number of empty records does not wrap around |
| Undercount.ReduceUncounted | duma_hlp.h:31-93 | a reduction never counts the records it empties, and it empties some exactly if trimming releases too little and something is protected |
| Undercount.ScarceCount | src/duma.c:1467-1608 | if growth fails and a free slot fits, the request is served, and the counter wraps exactly if it did not cover the record the surplus takes |
| Undercount.StartCount | src/duma.c:1152-1183 | after initialisation the counter is the number of empty records, or one less if the page is the whole chunk |
| Wrap.CounterWraps | src/duma.c:1606 | for every configuration with PROTECT_FREE < 0, no limit, MALLOC_FAILEXIT off, pages of up to 128 kB and ten records a page: some answers of mmap and some program, run from the start, make the counter wrap around to SIZE_MAX while one record is empty |
| Wrap.BooksLost | duma_hlp.h:71-92 | for the same configurations a run from the start after which nothing is protected but the books say so |
| Leftover.ChunkLeaves | src/duma.c:1577-1608 | a block that does not fill its new chunk leaves a free slot all of whose bytes are accessible |
| Leftover.FreeMemoryOpen | src/duma.c:1577-1608 | a run from the start that ends in a state with such a slot |
| StalePointer.StaleVerdict | src/duma.c:2106-2159 | a realloc of a pointer that is not live, to a positive size, gives a pointer exactly if that is the address its inner allocation gets; it then returns that address and no block is live that was not before |
| StalePointer.NeverIssuedAccepted | src/duma.c:2125-2148 | in the state in which the program starts nothing is live, and realloc accepts and returns a pointer that was never handed out |
| StalePointer.CheckVerdict | src/duma.c:1928-1981 | duma_check returns exactly for 0 and if a slot with that user address is a block with intact no man's land, the table, or a free slot whose scan passes |
| StalePointer.TablePasses | src/duma.c:1944-1973 | the table's own address always passes, though it is not a live pointer |
| Duma.Duma.SlotForUserAddress | duma_hlp.h:99-107 | the search loop finds the first slot with that user address |
| Duma.Duma.NearestSlotForUserAddress | duma_hlp.h:113-123 | the search loop finds the first slot whose interval or upper bound is at the address |
| Duma.Duma.FindSlots | src/duma.c:1481-1516 | one pass with an early exit finds the first of the smallest fitting free slots and the first two empty ones |
| Duma.Duma.InitSlack | duma_hlp.h:129-161 | the two loops write exactly the no man's land, and fault exactly if a byte of it is not accessible |
| Duma.Duma.CheckSlack | duma_hlp.h:167-227 | the two loops return what the specified scan returns |
| Duma.Duma.CheckAllSlacks | duma_hlp.h:233-242 | the loop over the table checks every used slot with user bytes, in order |
| Duma.Duma.ReduceProtectedMemory | duma_hlp.h:31-93 | the two loops over the array do what `Heap.Reduce` says, counters included |
| Duma.Duma.CreateAfterReducing | src/duma.c:1562-1575 | the do-while loop terminates and does what `Heap.CreateRetry` says |
| Duma.Duma.Serve | src/duma.c:1476-1691 | the core on the array does what `Heap.Core` says |
| Duma.Duma.UseTable | src/duma.c:1247-1255 | copying the table's bytes, clearing a page, and reading the appended records from the bytes does what `Heap.SwitchTable` says, faults included |
| Duma.Duma.AllocateMoreSlots | src/duma.c:1218-1263 | growth by the recursive allocation does what `Heap.Grow` says |
| Duma.Duma.Allocate | src/duma.c:1294-1727 | `_duma_allocate` on the object does what `Heap.Allocate` says |
| Duma.Duma.Deallocate | src/duma.c:1736-1921 | `_duma_deallocate` on the object does what `Heap.Deallocate` says, for both values of protectAllocList |
| Duma.Duma.Reallocate | src/duma.c:2106-2159 | `_duma_realloc` on the object does what `Heap.Realloc` says |
| Duma.Duma.Check | src/duma.c:1928-1981 | `duma_check` on the object does what `Heap.Check` says |
| Duma.Duma.CheckAll | src/duma.c:1989-2001 | `duma_checkAll` on the object does what `Heap.CheckAll` says |
| Duma.Duma.Initialise | src/duma.c:1075-1191 | `_duma_init` on the object does what `Heap.Init` says |
| Program.Execute | src/duma.c:1294-2159 | a program calling the object runs exactly as `Runs.Run` says |
| Program.RunFromStart | src/duma.c:983-2159 | from the start, any program that is not stopped leaves the object with all invariants, every red zone intact and all protected memory dead |
| Lock.RunKeeps | src/sem_inc.c:130-149 | every interleaving of any number of threads keeps the lock's invariant |
| Lock.LockTheorem | src/sem_inc.c:216-282 | at most one thread is inside and holds the mutex; at rest it holds it exactly while its depth is positive, and both counters equal that depth; the abort is unreachable |
| Lock.OwnerRead | src/sem_inc.c:130-141 | after a failed trylock a thread reads its own id exactly if it holds the mutex, so the owner never waits for itself |
| Lock.NoDeadlock | src/sem_inc.c:130-149 | a thread inside a call is stopped only in pthread_mutex_lock, waiting for another thread that can go on or release |
| Lock.StepWorks | src/sem_inc.c:130-149 | every own step of a call returns or leaves less of it to do; no other thread's step moves it |
| Lock.CallReturns | src/sem_inc.c:216-282 | in every interleaving a call returns within seven (get) or eight (release) own steps, with the depth one higher or lower |
| Lock.GetReturns | src/sem_inc.c:216-240 | a get, the first or a nested one, with the mutex free or its own, returns alone: depth, locknr and semDepth one higher, mutex and id its own |
| Lock.ReleaseReturns | src/sem_inc.c:245-282 | a release by the owner returns alone: all three one lower, and at 0 mutex and id free |
| Lock.RunRefines | src/sem_inc.c:216-282 | the gets and releases that returned are, in that order, a history of one re-entrant lock (that calls do return: `Lock.CallReturns`) |
| DeleteMacro.Deleter.Delete | dumapp.h:186-194 | the macro completes exactly if the nesting fits the stack; the log then shows every delete of the tree once, o's own last, whatever a destructor deletes before the object itself and in the destructor's order, each with its own position and the lock held once more per level (`DeletesTree`); lock depth, DelPtr and outer positions are restored |
| DeleteMacro.Deleter.Destroy | src/dumapp.cpp:208-217 | the delete expression, under the lock: the destructor's deletes come first, then operator delete reports the entry at DelPtr |
| DeleteMacro.MembersAreFirst | dumapp.h:186-194 | everything nested in an object is reported before it |
| DeleteMacro.MembersInOrder | dumapp.h:186-194 | what a destructor deletes is reported in the destructor's order |
| DeleteMacro.EachOnce | dumapp.h:186-194 | every delete of the tree is reported exactly once, with its own file and line |
| DeleteMacro.UnderLock | dumapp.h:186-194 | every operator delete of the tree runs with the lock held beyond the caller's depth |
| Copy.Memcpy | src/duma.c:2253-2274 | aborts exactly on its overlap test; otherwise the result is a copy of the old source, also with MEMCPY_OVERLAP |
| Copy.MemcpyStopsOnOverlap | src/duma.c:2258-2259 | by default the test stops exactly overlapping regions other than a copy onto itself; with MEMCPY_OVERLAP exactly those whose target starts behind the source's start |
| Copy.Memmove | src/duma.c:2282-2297 | for every overlap the result is a copy of the old source, nothing else changes |
| Copy.Strcpy | src/duma.c:2319-2337 | if it does not abort, the target receives the string the source was |
| Copy.Strcat | src/duma.c:2388-2409 | if it does not abort, the source string as it was is appended where the target ended |
| Copy.Strncat | src/duma.c:2420-2451 | the same for at most size bytes and a terminator |
| Copy.AppendMeans | src/duma.c:2388-2451 | afterwards the target is its old string followed by the source bytes; nothing else changed |
| Copy.StrNLen | src/duma.c:2304-2309 | the length of the string, at most size |
| Copy.LimitedLenMeans | src/duma.c:2304-2309 | that length is the string's length cut off at size |
| Print.SprintAddr | src/print.c:108-127 | the digit loop returns the numeral and its length, or aborts exactly if the buffer is too short (`sprintLong`, lines 133-152, is the same loop on values that are not negative) |
| Print.ReadsBack | src/print.c:108-127 | what is printed reads back as the value |
| Print.NoLeadingZero | src/print.c:108-127 | the numeral is not empty and has no leading zero, except for 0 |
| Print.PrintsEveryWord | src/print.c:96-100 | every word prints in every base above 2; in base 2 exactly those with the top bit clear do |

## Left out

- Windows, Cygwin, DETOURS, DLL and EXPLICIT_INIT branches, stack traces, and builds without leak detection: other configurations.
- `DUMA_SEMAPHORES` and the Windows locks: other configurations; they also release on the first inner release.
- Real system calls, signals, banner, environment parsing: their effects are parameters. `Page_Delete` is assumed to succeed (the fallback of `paging.h:355` is not modelled), as is the mmap of the first chunk: the reduction retry in `src/duma.c:1135-1148` would scan a table that does not exist.
- Size wrap-around near SIZE_MAX, the `nelem * elsize` product of calloc, the `(int)` casts of the alignment test and the 32-bit counters of the copy loops: addresses and sizes are unbounded, and only `unUsedSlots` wraps.
- A default alignment of 0, which `DUMA_SET_ALIGNMENT(0)` could set: the type of `Tls.alignment` excludes it.
- FREE_ACCESS, the statistics counters (`numAllocs`, `numDeallocs`, `sumTotalAllocatedMem`), SHOW_ALLOC output, the text of messages.
- The byte layout of a slot record: records that were stored are an array beside the memory, and of the bytes no record was stored to it only matters whether all are 0 (`Heap.RecordAt`). Accesses to records while the table is closed are excluded by the invariant on the table's pages instead of by a fault.
- memcpy, memset and strlen of the C library are single steps or helpers, since the source calls them as such; the copy inside realloc is `Pages.CopyRange`.
- The lock around the allocator's entry points: `Lock` and `Duma` are proved separately, and a run of the allocator is a sequence of whole calls.
- The entry points calloc, memalign, posix_memalign, valloc, strdup, the C++ operators and the new-handler loop, malloc_usable_size and the leak report: thin wrappers or reports over what is modelled.
- `_duma_strncpy`: its overlap test uses the length without the terminator, so the copy can differ from a snapshot when the target is the source's terminator.
- Negative numbers in `sprintLong`: `DUMA_vsprintf` prints the sign and negates before the call; the formatting around it is dispatch.
- DeleteMacro.Deleter.Delete: exceptions thrown by destructors, and deletes without the macro inside them, are not modelled.
- Theorems.NeverReissued: requires alignments up to a page in below mode, no limit, PROTECT_FREE < 0 and no failing mmap, as reductions do reuse memory otherwise.
