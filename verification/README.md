# A verified model of the biefircate boot loader's memory management

biefircate boots legacy operating systems on UEFI machines. Its stage 1, a UEFI application,
takes hold of base memory, looks for option ROMs and hands a list of boot parameters to stage 2.
Stage 2, 32-bit code without firmware below it, builds its own memory map, physical allocator,
PAE page tables and virtual address allocator. This project models that code in Dafny and proves
what it promises. `dafny verify dfyconfig.toml` checks everything.

The code works in place, and so does the model: the memory map, the free lists, the block table
and the hash chains are arrays that methods update; page tables are 64-bit words in a map of
physical memory, so that separation of tables is proved and not assumed; 32-bit and 64-bit
wrap-around is written out. Each method is proved against a function or predicate on values, and
the theorems are about those. `hlt()` is the outcome `Halted`; reading an array outside its
bounds is the outcome `Undefined`; `error()` of stage 1 is a failure result.

## The parts

| part | files |
|---|---|
| words, alignment and bit operations | Machine |
| memory map and physical allocator of stage 2 | MemMap, PhysMap, AllocRuns, Supply (how long it lasts), ShellSort, MemMapInit |
| page tables | PageTable (walks and single writes), TableNeeds (how many are needed), Paging (`ensure_pt`, `do_va_map`, `do_va_unmap`) |
| virtual addresses | VaPool (free list), VaTranslation (free list and tables together), VaRuns, VaNesting, Reach (tables and lists with paging on), VaSpace |
| `va_init` | Holes, Identity, SecondPass, PassOrder, VaReady, VaNeeds (what it takes), VaInit, MemInit, Delivered (where it fails) |
| ACPI walk of stage 2 | Acpi |
| base memory of stage 1 | BmemInit, BmemSpec, Bmem |
| hand-over | Bparm (the linked list), HandOver, Told (what the list says of each byte), Reporting, Boot (stage 1 to stage 2) |
| option ROMs | OptionRom, RomCache, RomWalk |
| keyboard | Keyboard |

The main results, in one sentence each:

- `do_va_map` is a pointwise update of the translation that the processor computes, and of the
  rights that it grants for each page, whatever was mapped before, although it breaks up large
  pages and allocates tables on the way; tables never share a frame, in every reachable state
  (`Paging.Paging.DoVaMap`, whose `Valid` holds the separation).
- In every state that calls of `mem_va_map` and matching `mem_va_unmap` can reach, free and live
  addresses partition the pool, every byte of a live mapping reaches its own physical byte, free
  pages are absent, and all other pages are as `va_init` left them (`VaSpace.VaSpace.MemVaMap`,
  `MemVaUnmap`, `VaRuns.LiveByte`). An unmapping never falls off the list. The calls need the page
  tables and lists to be reachable, and keep them so (`VaSpace.UsedIsInPlace`).
- Every run of `mem_alloc` hands out disjoint blocks, aligned as asked, and keeps coverage and
  attributes (`AllocRuns.EveryRunSafe`). Without a limit, or with one from 1 MiB, each block also
  ends within the limit and is the highest that fits.
- `va_init` leaves exactly the untouched pages as the pool. Although the map grows under its loop,
  every page from 1 MiB up gets the flags of the highest range that touches it and is not
  write-back (`VaReady.ExtendedPage`). Of all other pages it is stated exactly which are mapped
  (`VaReady.SelfMappedIff`), when write-back memory is cached (`VaReady.CachedIff`) and what base
  memory ends with (`VaReady.BasePage`, `VaReady.BaseFlagsPlain`).
- `mem_init` completes whenever there is some hole, and the map that it has sorted has entries and
  extended RAM for six blocks and a page table for each 2 MiB slot that an edge of memory cuts, or
  that holds RAM that is not write-back (`VaNeeds.Enough`, `MemInit.MemInit`); it allocates no
  others. All of them then come from extended memory. In every later
  state no table overlaps the memory map or the list of unused addresses (`VaSpace.VaSpace.MemVaMap`).
- The list that stage 1 hands over is a memory map that stage 2 can use, with no RAM entry over a
  run-time block, and says of every byte what the firmware's descriptors and the table of blocks
  do (`Told.AllIsTold`, `Reporting.PrepareToHandOver`), although each report takes memory from the
  table that is being reported.
- The option ROM cache agrees with a newest-first association list, and holds exactly the image
  that each closed group of a ROM calls for; the keyboard buffer is a bounded FIFO.

## Where the code does not keep its promises

- `mem_alloc` documents that a block ends below `max_addr`. Below 1 MiB the binary search may
  return a range that ends above the limit, as base memory may list overlapping ranges.
  `AllocRuns.LimitRespectedIff` gives the exact condition for a map with room left,
  `AllocRuns.FullLimitRespectedIff` for a full one, and `AllocRuns.LimitOverrun` a block that ends
  above its limit. No caller in the source passes a limit below 1 MiB: stage2/rm16.asm:41-60
  passes 1 MiB, all others none.
- Splitting a range does not always keep the map sorted by start: `MemMap.SplitKeepsSortedIff`, with
  the instance `AllocRuns.SplitUnsorts`. The comment at stage2/mem.c:201 says that the map is sorted
  by ending address; the key is the start.
- The `hlt()` at stage2/mem.c:463 is never reached: without a fit the walk leaves the array below
  its first entry (`MemMap.ScanFindsFit`). `AllocRuns.WalksOffIff` says exactly when, and
  `AllocRuns.WalksOff` is an instance.
- The comment at stage2/mem.c:392-393 says that growth of the map does not matter to the attribute
  loop. That is true of extended memory (`VaReady.ExtendedPage`). In base memory ranges may
  overlap, and splits may put them out of order; the loop steps over every range that does not
  start above the one just mapped. `PassOrder.BaseOrderIff` says exactly which ranges it reaches, on
  any map, and `VaReady.BaseFlagsPlain` for which pages that matters, in terms of the map that
  `va_init` is given (`VaReady.BaseFlagsIff` covers allocations in base memory as well).
  `Delivered.CachingIsLost` is an instance, from the descriptors of the firmware on, in which `mem_init`
  completes: the firmware lists the pages that the loader has grabbed in one descriptor with its
  own, so that RAM and a longer reserved range both start at 0.
- Below the first hole, write-back memory gets the caching of the first range of the map, whatever
  that is (stage2/mem.c:376-377): `VaReady.CachedIff`. In that instance, 16 MiB of write-back RAM
  are not cached.
- The identity mapping ends with the last hole below 4 GiB; past it a page is mapped only if a range
  that is not write-back touches it (`VaReady.SelfMappedIff`). The code goes on following physical
  pointers to its tables and lists with paging on. `VaReady.AllSafeIff` says exactly when it can;
  it is enough that RAM below 4 GiB ends below the end of the last hole (`VaInit.VaInit`).
  `Delivered.MapIsOutOfReach` is an instance: with RAM up to 4 GiB, `mem_init` completes, but the
  memory map and the list of unused addresses both fault.
- Stage 2 reads the boot parameters while it writes its memory map, and again after `mem_init`
  (stage2/irq.c:195-200), though they lie in memory that is reported as RAM. The map misses them if and
  only if they all lie below it, for which it is enough that it goes to extended memory or leaves
  the bottom watermark below it (`Boot.MapMissesIff`); tables and the list of unused addresses
  miss them if extended memory is large enough (`Boot.Boot`).
- The report of blocks above the run-time watermark can miss a block, when a report uses up a block
  of the table: `HandOver.BlockIsMissed` is an instance, in a state that base memory can be in
  (`HandOver.ShiftingIsReachable`), and `HandOver.MissesNoneIff` says exactly when none is missed, by the
  sizes of the blocks. Each block that is used up costs at most one (`Reporting.ReportBlocks`).
- If all of the first MiB is free, the segment of the run-time watermark truncates to 0:
  `Reporting.SegsAreExact`.

## Model

| member | source | states |
|---|---|---|
| `Machine.MaskDownIsAnd` | stage2/mem.c:459 | the alignment idiom x & -a on n-bit words is rounding down, for every power of two |
| `MemMap.FindIsHighest` | stage2/mem.c:73-93 | for limits from 1 MiB the search returns the last range wholly below the limit, and halts exactly when there is none |
| `PhysMap.PhysMap.FindHighestRangeBelow` | stage2/mem.c:73-93 | the in-place binary search and step down agree with the function, on every map and limit |
| `MemMap.SplitKeepsMapOk` | stage2/mem.c:95-120 | splitting a RAM range keeps ranges above 1 MiB sorted and disjoint, and RAM disjoint everywhere |
| `MemMap.SplitRefines` | stage2/mem.c:95-120 | splitting changes no covered address and no attribute |
| `MemMap.SplitTakesTail` | stage2/mem.c:95-120 | exactly the tail of the range stops being RAM |
| `MemMap.SplitRetypes` | stage2/mem.c:95-120 | byte by byte: the range gets the one type below the point and the other from it on, with the attributes it had, and all other entries say what they said |
| `MemMap.SplitKeepsSortedIff` | stage2/mem.c:95-120 | sorting by start survives a split if and only if the split point does not pass the next range's start |
| `AllocRuns.SplitUnsorts` | stage2/mem.c:95-120 | a sorted map that one allocation takes out of order |
| `MemMap.SplitDropsRamBytes` | stage2/mem.c:95-120 | RAM bytes drop by the length of the tail |
| `PhysMap.PhysMap.SplitRangeAt` | stage2/mem.c:95-120 | the insertion shift yields the split map, and halts exactly when an entry is needed and none is left |
| `MemMap.ScanFindsFit` | stage2/mem.c:455-464 | the downward walk stops at the highest range that holds an aligned block; without one it reads below the array and never reaches its own hlt() |
| `AllocRuns.WalksOffIff` | stage2/mem.c:443-467 | mem_alloc reads below the array exactly when the search finds a range and neither it nor one before it can hold the block |
| `AllocRuns.WalksOff` | stage2/mem.c:455-464 | a request that does so |
| `MemMap.CandidateIsHighest` | stage2/mem.c:449-464 | with no limit or one from 1 MiB, search and walk together find the highest range that fits |
| `MemMap.AllocEffect` | stage2/mem.c:443-467 | an allocation takes an aligned block, and the bytes above it, from the tail of one RAM range, and changes nothing else |
| `MemMap.AllocRetypes` | stage2/mem.c:443-467 | the bytes from the block to the end of its range become RESERVED with the attributes they had, those below stay RAM, and all other entries say what they said |
| `MemMap.AllocIsHighestFit` | stage2/mem.c:443-467 | no aligned block of that size in any RAM range below the limit starts higher, and failure means that there is none or that the map is full |
| `PhysMap.PhysMap.MemAlloc` | stage2/mem.c:443-467 | the allocator on the array does exactly what the function says, failures included |
| `Supply.ExtendedAlloc` | stage2/mem.c:443-467 | if a block fits into a range of extended memory, mem_alloc takes one there or above, and base memory stays as it is |
| `Supply.FrameStep` | stage2/mem.c:443-467 | with map entries and whole frames of one range for n requests for a frame, one is served and there is room for n - 1 |
| `Supply.BytesStep` | stage2/mem.c:443-467 | any other request costs an entry, its size and less than its alignment |
| `AllocRuns.EveryRunSafe` | stage2/mem.c:443-467 | over any run of requests: each block answers a request in order, has its size and alignment, lies below 4 GiB and ends within its limit, if that is from 1 MiB; blocks lie in former RAM, are disjoint and never RAM again; coverage and attributes stay; RAM shrinks by the bytes taken |
| `AllocRuns.RefinesSameCover` | stage2/mem.c:95-120 | a refined map describes the same addresses with the same attributes |
| `AllocRuns.LimitRespectedIff` | stage2/mem.c:439-467 | while the map has room, every block, of any size and alignment, ends within a limit if and only if the highest RAM range at or below the one the search returns does |
| `AllocRuns.FullLimitRespectedIff` | stage2/mem.c:439-467 | when the map is full, if and only if no RAM range at or below that one, which can be given out whole, ends above the limit |
| `AllocRuns.LimitOverrun` | stage2/mem.c:439-467 | a map and a request whose block ends above its limit |
| `ShellSort.GapPass` | stage2/mem.c:60-68 | a pass leaves entries a gap apart in order, and permutes them |
| `ShellSort.GapOneIsSorted` | stage2/mem.c:59-70 | order at gap 1 is order |
| `ShellSort.SinkKeeps` | stage2/mem.c:60-68 | inserting an entry with any gap keeps the entries and their order at that gap |
| `ShellSort.FirstGapIs` | stage2/mem.c:56-58 | the first gap is one less than the least power of two that is not below the length |
| `ShellSort.GapHalves` | stage2/mem.c:69 | halving keeps that form, so every gap has it |
| `ShellSort.Sort` | stage2/mem.c:50-71 | sorts by start and permutes, for every length, and leaves entries with equal starts as the gaps 2^k - 1 do |
| `MemMapInit.CountRanges` | stage2/mem.c:139-145 | the room for the map, from the number of non-empty ranges |
| `MemMapInit.RoomIsLeast` | stage2/mem.c:139-150 | half as much again as ranges and one more, at least 16: the least such room |
| `MemMapInit.CountIs` | stage2/mem.c:139-145 | the ranges counted are those that are not empty |
| `MemMapInit.EligibleIff` | stage2/mem.c:152-164 | a range can hold the map if and only if it is RAM, ends at or below 4 GiB and is long enough |
| `MemMapInit.Choose` | stage2/mem.c:152-166 | the highest RAM range below 4 GiB that can hold the map, or none |
| `MemMapInit.CopiedFits` | stage2/mem.c:139-145 | the copied ranges always leave room for one more entry |
| `MemMapInit.CopiedKeepsBytes` | stage2/mem.c:172-200 | carving out the map's own memory conserves the total length |
| `MemMapInit.CopiedSays` | stage2/mem.c:172-200 | byte by byte: the copied map says what the boot parameters do, except that the last bytes of the chosen range, where the map goes, are RESERVED |
| `MemMapInit.SortedSays` | stage2/mem.c:172-206 | and so does the map once it is sorted |
| `MemMapInit.TailIsNotRam` | stage2/mem.c:186-197 | no copied RAM range holds a byte of the map's own memory |
| `MemMapInit.SortedIsMapOk` | stage2/mem.c:201-206 | a sorted permutation of compatible ranges is a valid map |
| `MemMapInit.SortedMapServes` | stage2/mem.c:122-207 | the sorted copy is a valid map that starts at 0 and keeps the allocator off the map's memory |
| `MemMapInit.CopyRanges` | stage2/mem.c:172-200 | the copying loop writes the chosen range's head and reserved tail in its place, within the array |
| `MemMapInit.MemMapInit` | stage2/mem.c:122-207 | the map is a sorted permutation of the copied ranges and valid; halts exactly when no range can hold it |
| `PageTable.AttrIsOr` | stage2/mem.c:262 | the low bits of an entry, made with bitwise or |
| `PageTable.PteWordIsOr` | stage2/mem.c:262 | the whole PTE is the bitwise or of address, flags and constants |
| `PageTable.PdeWordIsOr` | stage2/mem.c:253-255 | so is the large PDE |
| `PageTable.TableWordIsOr` | stage2/mem.c:235 | and the words that point to tables |
| `PageTable.LargeBitIsAnd` | stage2/mem.c:221-226 | the large-page bit is tested and removed as with bitwise and |
| `PageTable.WalkUnchanged` | stage2/mem.c:225-237 | writes to a frame that is no table affect no walk |
| `PageTable.SetPte` | stage2/mem.c:262 | writing one PTE changes the translation of its page and of no other |
| `PageTable.SetPde` | stage2/mem.c:255 | writing one PDE changes no other PDE, although all tables share memory |
| `PageTable.NewPteKeepsLeaf` | stage2/mem.c:225-230 | each of the 512 new entries translates as its part of the large page did |
| `PageTable.InstallPt` | stage2/mem.c:216-238 | replacing a large page or a blank entry by a table changes no translation at all |
| `PageTable.MapLarge` | stage2/mem.c:249-258 | a large-page write maps exactly the 512 pages of the slot |
| `PageTable.UnmapLarge` | stage2/mem.c:285-289 | clearing a PDE makes exactly its 512 pages absent |
| `PageTable.UnmapSmall` | stage2/mem.c:299-303 | clearing a PTE makes exactly its page absent |
| `PageTable.BuiltIsEmpty` | stage2/mem.c:365-370 | four blank page directories translate no page |
| `Paging.NewFrameIsFresh` | stage2/mem.c:225-232 | a frame that mem_alloc returns holds no table, as all tables lie in memory that is RAM no more |
| `Paging.Paging.FillPt` | stage2/mem.c:226-233 | the filling loops write the 512 entries and nothing else |
| `Paging.Paging.EnsurePt` | stage2/mem.c:216-238 | afterwards the slot has a table, every page translates as before, with the rights it had, and tables are still separate and reserved |
| `Paging.Paging.DoVaMap` | stage2/mem.c:240-268 | page i of the interval translates to pstart + 4096 i with the flags, writable and open to user code, all others as before, rights included; fails only when no frame is left for a table |
| `TableNeeds.CostsSmall` | stage2/mem.c:246-264 | mapping one small page costs a frame if and only if its slot has no table, and then the slot cannot be mapped as a whole |
| `Paging.SmallNeedsPt` | stage2/mem.c:249-252 | a slot that lies wholly in the interval, with frames aligned as pages, never gets a table |
| `TableNeeds.RoomRemains` | stage2/mem.c:216-238 | with room for a table for every slot of a set, there is room for one more as long as one of them has none |
| `Paging.Paging.UnmapStepAt` | stage2/mem.c:278-306 | one iteration clears a large page, clears a page or skips it, and says which |
| `Paging.Paging.DoVaUnmap` | stage2/mem.c:275-308 | the pages of the interval are absent, except those of large pages only partly inside it, which stay |
| `VaPool.TakeIndexIsLast` | stage2/mem.c:485-488 | the last free range that is large enough |
| `VaPool.SpanIsLeast` | stage2/mem.c:480-482 | the least number of whole pages that hold sz bytes at the offset of pa |
| `VaPool.TakeIff` | stage2/mem.c:485-491 | there is no space if and only if every free range is shorter than asked for; else the block is the end of the last range that is not, and no other range changes |
| `VaPool.TakeKeepsPartition` | stage2/mem.c:485-491 | taking a block keeps free and live addresses a partition of the pool |
| `VaPool.TouchTests` | stage2/mem.c:520-525 | both adjacency tests in 32-bit arithmetic are exact, also for a block that ends at 4 GiB |
| `VaPool.GiveNeverFallsOut` | stage2/mem.c:517-542 | the search for a place ends inside the list for every live block, with empty and unordered entries |
| `VaPool.GiveIff` | stage2/mem.c:517-540 | the search stops at the last entry that touches the block or starts below it; the block is joined to that entry if they touch, on the right side, and else gets an entry after it; the list is full exactly if one is needed and there is no room |
| `VaPool.GiveKeepsPartition` | stage2/mem.c:517-540 | giving a block back keeps the partition; it fails only if an entry is needed and the list is full |
| `VaTranslation.MapKeepsTranslation` | stage2/mem.c:485-494 | after a mapping, tables and lists agree: live pages reach their frames, free pages are absent, others are as before |
| `VaTranslation.LiveIsRemovable` | stage2/mem.c:284-297 | in a live block no large page sticks out, so that the skip of do_va_unmap is never taken |
| `VaTranslation.UnmapIsExact` | stage2/mem.c:275-308 | unmapping a live block makes exactly its pages absent |
| `VaTranslation.UnmapKeepsTranslation` | stage2/mem.c:506-544 | after an unmapping, tables and lists agree |
| `VaSpace.SpanComputed` | stage2/mem.c:480-482 | the size computed modulo 2^64 is the span of the pages touched |
| `VaSpace.UnmapRecomputes` | stage2/mem.c:512-514 | pointer and size give back exactly the interval that was mapped, also when its end wraps to 0 |
| `VaSpace.VaSpace.TakeRange` | stage2/mem.c:485-491 | takes the end of the last range that is long enough; finds none if and only if all are shorter |
| `VaSpace.VaSpace.MemVaMap` | stage2/mem.c:473-499 | the new live block, its address, which is at the end of the last range with room, and the whole new state; tables and lists stay reachable, and apart from each other; without such a range it halts and changes nothing, and otherwise only if no frame is left |
| `VaSpace.VaSpace.GiveRange` | stage2/mem.c:517-542 | the search and insertion shift agree with the function, in each of their four endings |
| `VaSpace.VaSpace.MemVaUnmap` | stage2/mem.c:506-544 | the block is free again, joined to what it touches, and its pages absent; tables and lists stay reachable; halts exactly when the entry at which the search stops does not touch it and the list is full |
| `VaSpace.UsedIsInPlace` | stage2/mem.c:246-248 | while they are reachable, every byte of the PDPT, the directories and tables, the list of unused addresses and the memory map is found at its physical address, whatever has been mapped |
| `Reach.StaysSafe` | stage2/mem.c:216-238 | allocations keep the remaining RAM reachable, and the tables made of it are |
| `Reach.StaysKept` | stage2/mem.c:216-238 | no table ever overlaps the memory map or the list of unused addresses, nor does the allocator hand out their bytes |
| `VaRuns.LiveByte` | stage2/mem.c:473-494 | byte k of a live mapping of pa is physical byte pa + k |
| `VaRuns.StepKeepsPartition` | stage2/mem.c:473-544 | each call keeps the partition, and never loses its place in the list |
| `VaRuns.RunsStayPartitioned` | stage2/mem.c:473-544 | so does every run of calls in any order |
| `VaNesting.GiveUndoesTake` | stage2/mem.c:485-542 | giving back the block just taken restores the list entry for entry |
| `VaNesting.NestedRestores` | stage2/mem.c:485-542 | every well-nested program of mappings restores the list, and inserts no entry |
| `Holes.HolesAreOk` | stage2/mem.c:330-359 | holes are page-aligned, non-empty, from 1 MiB up, apart, and no more than the room for them |
| `Holes.HolesExact` | stage2/mem.c:330-359 | a page is in a hole if and only if it lies past the ranges before and no range from there on touches it |
| `Holes.PoolIsUntouched` | stage2/mem.c:330-359 | the pool is exactly the untouched pages from 1 MiB to 4 GiB |
| `Identity.FirstPassMaps` | stage2/mem.c:376-383 | one gap more is mapped to itself |
| `Identity.PteFlagsIff` | stage2/mem.c:310-318 | for every attribute word: cached if its write-back bit is set, else written through if that bit is set, else uncached |
| `Identity.TouchedLater` | stage2/mem.c:95-120 | splitting ranges changes no page's being touched |
| `Identity.PageFlagsLater` | stage2/mem.c:95-120 | nor the flags that ranges want for it |
| `Identity.AttrInterval` | stage2/mem.c:405-421 | the clipped and rounded interval is exactly the pages that the range touches |
| `SecondPass.BelowStays` | stage2/mem.c:396-425 | entries behind the loop index hold no byte of extended memory that was not dealt with, although entries moved up meanwhile |
| `SecondPass.HighestDecides` | stage2/mem.c:395-425 | of the mapped ranges that touch a page of extended memory, the one that decides is of the highest range of the map that does and is not write-back |
| `SecondPass.AttrMap` | stage2/mem.c:395-425 | an iteration that maps a range keeps the pass's invariant over the map as it is then: every page is as the ranges mapped so far, in order, have painted it |
| `SecondPass.PaintAgreed` | stage2/mem.c:395-425 | a page that all ranges touching it want alike gets those flags from any mapped range that touches it |
| `PassOrder.BaseOrderIff` | stage2/mem.c:395-425 | on any map, an entry of base memory is mapped if and only if it needs flags and after each earlier one that does, up to it, some entry starts higher |
| `PassOrder.BaseMap` | stage2/mem.c:395-425 | an iteration of the loop, with the frame it may take from the map, maps what that order says, and nothing else of base memory |
| `PassOrder.BaseWantPlain` | stage2/mem.c:395-425 | if no allocation cuts base memory, the ranges mapped there are those that the map itself says are reached |
| `VaInit.FindHoles` | stage2/mem.c:330-360 | the loop stores exactly the holes, within the array |
| `VaInit.SetUpTables` | stage2/mem.c:365-370 | a PDPT and four blank page directories in separate reserved frames |
| `VaInit.MapGaps` | stage2/mem.c:376-383 | everything below the last hole and in no hole is mapped to itself |
| `VaInit.MapAttributes` | stage2/mem.c:395-425 | the loop terminates although the map grows; every page ends as the ranges that it mapped paint it, they are parts of the map's, and those of base memory are the ones reached from the start |
| `VaInit.VaInit` | stage2/mem.c:320-430 | the pool, and every page of memory as both passes leave it; the list of holes is never RAM again; when tables and lists are reachable; the reasons for which it can fail; with enough memory it completes, without touching base memory |
| `VaReady.SelfMappedIff` | stage2/mem.c:376-425 | a page outside the pool is mapped to itself if and only if it lies below the last hole's end or a range without the write-back bit touches it, and is absent otherwise |
| `VaReady.ExtendedPage` | stage2/mem.c:395-425 | a page from 1 MiB up gets the flags of the highest range that touches it and lacks the write-back bit |
| `VaReady.ExtendedFlags` | stage2/mem.c:395-425 | a page from 1 MiB up is mapped uncached if no range that touches it has the write-back or write-through bit, and written through if none has the first and all have the second |
| `VaReady.CachedIff` | stage2/mem.c:376-383 | a page below the last hole's end that only ranges with the write-back bit touch is cached if and only if it lies past the first hole or the first range has that bit |
| `VaReady.BasePage` | stage2/mem.c:376-425 | a page of base memory ends with the flags of the last mapped range that touches it, else with the caching of the first range |
| `VaReady.BaseFlagsIff` | stage2/mem.c:395-425 | a page of base memory whose ranges agree by these bits gets what they say if and only if one of them is reached, or the first range wants the same |
| `VaReady.BaseReachesPlain` | stage2/mem.c:395-425 | that can be read off the map that va_init was given, unless an allocation cuts base memory |
| `VaReady.BaseFlagsPlain` | stage2/mem.c:395-425 | if no allocation cuts base memory, such a page gets it if and only if the map that va_init was given reaches one of its ranges, or the first range wants the same |
| `VaNeeds.GapNeedsMixed` | stage2/mem.c:376-383 | the first pass needs a page table only for slots with pages both in and out of the pool |
| `VaNeeds.PieceCuts` | stage2/mem.c:395-421 | the attribute pass needs one only for slots that a range cuts, or that hold RAM that is not write-back |
| `VaNeeds.StaysSupplied` | stage2/mem.c:376-425 | with room for these tables at the start, no mapping of either pass fails |
| `VaNeeds.BaseIsPlain` | stage2/mem.c:395-425 | and the attribute pass maps of base memory exactly the ranges that the given map reaches |
| `VaReady.AllSafeIff` | stage2/mem.c:246-248 | all tables, lists and the RAM for further tables are reachable if and only if each of their pages lies below the last hole's end or is touched by a range that is not write-back |
| `VaReady.RamBelowSuffices` | stage2/mem.c:376-383 | for which it is enough that RAM below 4 GiB, and the memory map, ends below the last hole's end |
| `Delivered.OneBlock` | stage1/bmem.c:171-260 | with the pages below 512 KiB free and none usable from there on, bmem_init ends with one block and its watermark at 512 KiB |
| `Delivered.ReportIs` | stage1/bmem.c:138-154 | the list that is handed over then, with the attribute word that bmem_init gathers from the same descriptors |
| `Delivered.MergedAttr` | stage1/bmem.c:252 | for the descriptors of the first instance that word is "uncached" |
| `Delivered.MergedSuffices` | stage2/mem.c:320-430 | memory is enough there for mem_init to complete |
| `Delivered.HighSuffices` | stage2/mem.c:320-430 | and in the second instance |
| `Delivered.WriteThroughIsLost` | stage2/mem.c:423-424 | a page that its only range wants written through, and that ends uncached |
| `Delivered.WriteBackIsLost` | stage2/mem.c:376-377 | a page of write-back RAM that ends uncached |
| `Delivered.CachingIsLost` | stage2/mem.c:395-425 | with what stage 1 reports of that machine, mem_init completes and both happen |
| `Delivered.MapIsOutOfReach` | stage2/mem.c:376-383 | with what stage 1 reports of a machine with RAM up to 4 GiB, mem_init completes and leaves its map and its list of holes unmapped |
| `MemInit.MemInit` | stage2/mem.c:433-437 | from boot parameters to a valid address space over the map in the very order that the sort leaves, with the map's own memory and the list of holes safe from the allocator and from all tables; exactly when these can be reached; if memory is enough, it completes and takes only extended memory |
| `Acpi.Acpi.ReadTable` | stage2/irq.c:105-106 | every byte of a mapping is the byte of the table at the mapped physical address that it stands for |
| `Acpi.Acpi.Store` | stage2/irq.c:144-147 | what is written through the start of a mapping goes to its physical address, with its caching |
| `Acpi.Acpi.Unmap` | stage2/irq.c:155 | undoing the latest mapping always succeeds and restores lists and live blocks |
| `Acpi.Acpi.MapTable` | stage2/irq.c:101-112 | the table is mapped in the larger of its own and the common size |
| `Acpi.Acpi.UnmapTable` | stage2/irq.c:118-124 | recomputes that size and restores the address space |
| `Acpi.AllAreMasked` | stage2/irq.c:144-174 | the stores are those for the I/O APICs of MADTs that are pointed to, each once, by pointer and then by controller |
| `Acpi.Acpi.ProcessMadt` | stage2/irq.c:126-162 | masks exactly the I/O APICs of the table, in order, through uncached mappings, and restores the address space |
| `Acpi.Acpi.ProcessXsdt` | stage2/irq.c:164-176 | stores, uncached, to the address of each I/O APIC of each MADT that is pointed to, in their order, and to no other; fails only if some table or controller finds no room |
| `Acpi.Acpi.ProcessRsdp` | stage2/irq.c:178-203 | so does the whole walk, which restores the address space entry for entry |
| `BmemInit.Grab` | stage1/bmem.c:171-186 | terminates although the page count wraps around; afterwards the firmware has no free page below 1 MiB, and exactly its former ones are marked |
| `BmemInit.GroupsAreFew` | stage1/bmem.c:48 | the k-th run of pages ends at page 2k or later, which bounds the number of blocks by 128 |
| `BmemInit.GroupPages` | stage1/bmem.c:193-217 | the blocks are exactly the maximal runs of marked pages 1 to 255, in order, and fit the table |
| `BmemInit.AttrIsShared` | stage1/bmem.c:252 | base memory is given exactly the attributes that all usable descriptors support |
| `BmemInit.FreesIff` | stage1/bmem.c:237-247 | the pages of base memory that a usable descriptor covers |
| `BmemInit.MarkDesc` | stage1/bmem.c:237-251 | marks exactly the pages below 1 MiB of a usable descriptor, in 32-bit arithmetic |
| `BmemInit.BmemInit` | stage1/bmem.c:157-263 | the invariant of base memory holds, the watermark ends the pages that are or will be free, and it gives up exactly below 192 KiB |
| `BmemSpec.FindTopIsHighest` | stage1/bmem.c:273-281 | no higher block has room for a run-time allocation |
| `BmemSpec.TopIsHighestPiece` | stage1/bmem.c:269-289 | a run-time allocation takes the highest free aligned piece of that size, and finds none if and only if there is none |
| `BmemSpec.FindBottomIsLowest` | stage1/bmem.c:300-310 | no lower block has room for a boot-time allocation |
| `BmemSpec.BottomIsLowestPiece` | stage1/bmem.c:297-329 | a boot-time allocation finds the lowest free aligned piece of that size, and none if and only if there is none |
| `BmemSpec.TopAllocKeeps` | stage1/bmem.c:269-289 | a run-time allocation keeps uses disjoint and in grabbed pages, lets no free block straddle the watermark, and keeps every cut at or above it |
| `BmemSpec.BottomAllocKeeps` | stage1/bmem.c:297-329 | so does a boot-time allocation, which also ends at or below the watermark |
| `BmemSpec.TopCutFrees` | stage1/bmem.c:283-286 | a run-time allocation takes from what is free the bytes from its start to the end of the block, and no others |
| `BmemSpec.BottomCutFrees` | stage1/bmem.c:311-325 | a boot-time allocation takes the bytes of the block up to its end, and no others |
| `Bmem.Bmem.Alloc` | stage1/bmem.c:269-289 | takes the top of the highest block that fits; gives up exactly when none does |
| `Bmem.Bmem.Remove` | stage1/bmem.c:319-325 | closes the gap of a used-up block |
| `Bmem.Bmem.AllocBoottime` | stage1/bmem.c:297-329 | takes the bottom of the lowest block that fits; gives up if there is none or it lies above the watermark |
| `Bmem.Bmem.CloseOff` | stage1/bmem.c:343-350 | boot-time memory ends below the aligned bottom, run-time memory starts above the aligned top, and it succeeds exactly if 128 KiB lie between and the top is at 192 KiB or more |
| `Bparm.WalkIsListed` | stage1/bparm.c:48-54 | following the links gives the parameters in the order of their addition, and ends |
| `Bparm.Bparms.Add` | stage1/bparm.c:43-58 | appends a node in boot-time memory of its own; fails exactly when there is no room |
| `Bparm.Bparms.AddMemRange` | stage1/bparm.c:64-77 | appends the range, or nothing for an empty one |
| `Bparm.ReadList` | stage2/mem.c:175-200 | a reader that follows the links sees the same list |
| `HandOver.EatenKeepsTail` | stage1/bmem.c:315-325 | a boot-time allocation shifts blocks above the watermark by one place at most and changes none |
| `HandOver.ShiftSkipsABlock` | stage1/bmem.c:144-153 | which block the loop misses when the table shifts under it |
| `HandOver.MissesNoneIff` | stage1/bmem.c:144-153 | the loop reads every block above the watermark if and only if, of the blocks below it, none that 48-byte nodes fill to the last byte is reached by the nodes that all but its last block need |
| `HandOver.ShiftingIsReachable` | stage1/bmem.c:297-329 | a table that meets the invariant of base memory |
| `HandOver.BlockIsMissed` | stage1/bmem.c:144-153 | of which the loop misses a block |
| `HandOver.AllSeen` | stage1/bmem.c:144-153 | if no block is missed, all above the watermark are reported |
| `HandOver.ExtendedIsFit` | stage1/main.c:455-481 | the parts of disjoint descriptors above 1 MiB are sound and disjoint |
| `HandOver.UefiIsFit` | stage1/bmem.c:99-132 | the parts of unusable descriptors below 1 MiB are sound, inside base memory and never RAM |
| `HandOver.OursFit` | stage1/bmem.c:138-154 | RAM reported of base memory is disjoint and overlaps no run-time block |
| `HandOver.HandedIsBootMap` | stage1/main.c:438-494 | the list is a memory map as stage 2 requires |
| `HandOver.HandedIsClear` | stage1/main.c:438-494 | no RAM entry of the list overlaps a run-time block |
| `Told.ExtendedRamIff` | stage1/main.c:454-481 | from 1 MiB up, a byte is in a RAM entry if and only if a descriptor of loader, boot services or conventional memory holds it |
| `Told.BaseRamIff` | stage1/bmem.c:99-154 | below 1 MiB, if and only if it lies below the run-time watermark or in what is free of a block that the report reads |
| `Told.AllIsTold` | stage1/main.c:438-494 | of every byte the list says what its descriptor and its block do, by type and attribute word: RAM, ACPI, NVS and PMEM for their kinds, RESERVED for all others and for memory in use; and nothing else |
| `Reporting.AddExtended` | stage1/main.c:454-481 | each byte from 1 MiB up that a descriptor holds is told with the type for its kind and its attributes, and no others; the end of a descriptor wraps at 2^64 |
| `Reporting.AddUefi` | stage1/bmem.c:99-132 | each byte below 1 MiB that an unusable descriptor holds is told so, and no others |
| `Reporting.ReportBlocks` | stage1/bmem.c:144-153 | the entries of exactly the blocks that the loop gets to read, as they were before it; a block used up loses one at most |
| `Reporting.AddOurs` | stage1/bmem.c:138-154 | RAM below the watermark, then those blocks |
| `Reporting.SegsAreExact` | stage1/main.c:494-495 | the segments give the watermarks back, unless the top one is at 1 MiB |
| `Reporting.PrepareToHandOver` | stage1/main.c:438-495 | the whole list, in order, what it says of every byte, its safety, and the watermarks; the reasons for which it can fail |
| `Boot.MapIsClear` | stage2/mem.c:172-206 | no RAM of stage 2's map, at any later time, overlaps what was clear of RAM in the boot parameters |
| `Boot.RamEndsAbove` | stage1/bmem.c:138-154 | every RAM range that is handed over ends at or above the bottom watermark |
| `Boot.MapMissesIff` | stage2/mem.c:152-200 | the map misses all boot-time memory if and only if that lies below it, and does so if the bottom watermark is no higher than the map |
| `Boot.NodesAreMissed` | stage1/bparm.c:43-58 | then it misses all nodes of the list |
| `Boot.Boot` | stage1/main.c:524-525 | after hand-over and mem_init no RAM that stage 2 can hand out overlaps a run-time block of stage 1; where the map goes, and what that means for the parameters; with enough extended memory it completes, and no table overlaps them |
| `OptionRom.ComputeCksum` | stage1/util.c:93-100 | the byte that brings the sum to 0 modulo 256 |
| `OptionRom.UpdateCksum` | stage1/util.c:102-108 | afterwards the bytes sum to 0 if the checksum byte is among them, and only that byte has changed |
| `OptionRom.FindPcir` | stage1/pci.c:82-112 | accepts a buffer if and only if it starts with an image, and reads only inside it |
| `OptionRom.ImageRevalidates` | stage1/pci.c:99-111 | an image passes again in any buffer that holds its declared size |
| `OptionRom.FindDevIdList` | stage1/pci.c:114-134 | accepts a list if and only if its zero word lies inside the image |
| `RomCache.BucketSuffices` | stage1/fv.c:50-53 | the chain of a key's bucket knows as much of it as the list of all entries |
| `RomCache.Cache.Add` | stage1/fv.c:55-68 | a new entry goes in front, in its chain and in the list of all |
| `RomCache.Cache.Find` | stage1/fv.c:214-228 | finds what a newest-first association list would |
| `RomCache.Cache.CacheRimg` | stage1/fv.c:70-101 | lookup changes for the image's id and all ids of its list, and for no other key |
| `RomCache.Cache.GetRimg` | stage1/pci.c:216-226 | a found image is for the device and passes the checks again |
| `RomWalk.PickedIff` | stage1/fv.c:110-135 | an image is cached if and only if its group is closed and it is the first PC-AT image of revision 3 or later there or, without one, the first PC-AT image |
| `RomWalk.UpdateIsClosing` | stage1/fv.c:118-133 | the source's update of the image found computes that choice |
| `RomWalk.Gather` | stage1/fv.c:103-139 | visits all contiguous valid images from the start of the ROM, and the cache then finds the last one cached for a device |
| `Keyboard.BitsFollowEvents` | stage2/16/kb.c:211-250 | for every sequence of scan codes: Shift, Ctrl and Alt bits are their last event, lock bits the parity of their make codes |
| `Keyboard.RunIsFifo` | stage2/16/kb.c:279-294 | for every sequence of scan codes and reads: first in, first out, up to the capacity |
| `Keyboard.Keyboard.constructor` | stage2/rm16.asm:81-86 | an empty buffer of (end - start) / 2 - 1 keys |
| `Keyboard.Keyboard.PutKey` | stage2/16/kb.c:281-294 | the ring appends the key, or drops it if full |
| `Keyboard.ModifiersMean` | stage2/16/kb.c:251-278 | while Alt is down no other modifier matters, while Ctrl is down neither Shift nor locks do; both Shift keys do the same and undo the lock that their keys obey |
| `Keyboard.TableOf` | stage2/16/kb.c:251-278 | which table a key comes from, and where in it; a code past its end gives none |
| `Keyboard.Keyboard.Decode` | stage2/16/kb.c:251-278 | Alt before Ctrl before Shift, which inverts the locks |
| `Keyboard.Keyboard.HandleCode` | stage2/16/kb.c:144-295 | one step of the abstract keyboard |

## Left out

- VaInit.VaInit: the loads of CR0, CR3 and CR4 are left out.
- VaSpace.VaSpace.MemVaMap: what happens when a table cannot be reached, a page fault, is not modelled; reachability is required. The TLB flush has no counterpart, as the model walks the tables for every access. Accessed and dirty bits, and the physical address width, are not modelled.
- MemMapInit.MemMapInit: the size of the map is taken not to exceed 32 bits; boot parameters are a sequence here, and `Bparm.ReadList` connects that to the linked list.
- Holes.HolesExact: pages below 1 MiB are never in a hole, as the source skips them.
- Acpi.Acpi.ReadTable: the bytes of ACPI tables are assumed not to change during the walk, and lengths inside a MADT to be well formed; tables are values, and their signature checks are a flag. What is written to an I/O APIC is modelled by one store to its address; the 24 entries of its redirection table are left out. The size of the union of table types is a parameter.
- BmemInit.Firmware.AllocatePages: the firmware may choose any run of free pages that fits; which one is not modelled.
- Reporting.PrepareToHandOver: UEFI descriptors are assumed non-empty and disjoint, as the UEFI specification requires; waiting for the clock and leaving boot services are left out.
- RomCache.Cache.CacheRimg: pool memory for nodes and copies is assumed to be available.
- RomWalk.Gather: reading sections out of firmware volumes is left out.
- Keyboard.Keyboard.HandleCode: the entries of the decoding tables are parameters; the 8042 port traffic and the interrupt controller are left out. Status bytes are records of their bits.
- Keyboard.Keyboard.TakeKey: the reader of the buffer is not part of the source; any reader is meant that takes the key at the head and advances it.
- Option ROM placement (`get_rimg`), VGA enabling and PCI enumeration in stage1/pci.c, loading of stage 2, console output and secure boot: calls into the firmware.
- MP table construction, the PIC and PIT set-up, the real mode thunks and assembly: hardware access.
