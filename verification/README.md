# The memory management of the kernel, and the protocols beside it

This project models the parts of the kernel where a mistake is hardest to see and proves that they do what the
rest of the system relies on. Frames and pages are numbers (address / 4096); bitmaps, page tables, node tables, rings
and descriptor trees are the data the C code keeps, updated in the same steps.

| file | what it models |
|---|---|
| `Words`, `Bits` | machine words, `check_byte` and `set_bit`, and the byte-wise writes of a range of bits |
| `MemoryMap`, `FrameAllocation`, `FrameHistory` | the frame bitmap: `allocator_init`, `alloc_frame`, `free_frame`, `fill_bitmap`, `run_simulation`, and histories of calls |
| `E820` | the BIOS memory map, its conversion in stage 4, and the bitmap it leads to |
| `PageTree`, `PageEffects`, `PageSplits` | four-level page tables as values (Intel SDM volume 3A, section 4.5), the processor's walk, and what a write, a new table, a freed table and a split leaf do to every translation |
| `PageSupply`, `PageNeeds` | which tables the two mapping functions make, and how many frames they need |
| `PageRights` | what the processor allows on a page, from the entries of all levels (Intel SDM volume 3A, section 4.6) |
| `Paging`, `PageTheorems` | `create_mapping`, `destroy_mapping`, `paging_lookup` and the helpers that allocate and free table frames |
| `Vmalloc` | `vmalloc` and `vfree` over both of them |
| `VaForest`, `VaRanges`, `VaAlloc` | the two trees of free virtual ranges |
| `VirtualMemory` | `va_alloc` and `va_free` over the trees, the page tables and the frame bitmap together |
| `Slab` | the slot bitmap of a `kmalloc` slab |
| `XhciCommandRing`, `XhciEventRing`, `Xhci` | the xHCI command and event rings (xHCI 1.2, sections 4.9.3 and 4.9.4), controller and driver interleaved |
| `Uhci` | the control-transfer descriptor chain of UHCI (UHCI Design Guide 1.1, section 3.2) and the loop that waits for it |
| `Vga` | the back buffer with its dirty tiles |
| `UsbConfig` | the parser of USB configuration trees (USB 2.0, sections 9.6.3, 9.6.5 and 9.6.6) |

Main results:

- `create_mapping` and `destroy_mapping` refine updates of a flat map from page to frame and attributes, whatever mix of
  1 GiB, 2 MiB and 4 KiB leaves they find, pick, replace or split; the tables stay a tree without shared frames, every
  table frame is marked used, the page counter is the number of tables, and frames are neither leaked nor freed twice.
  Four free frames that the search can reach are enough for `destroy_mapping`, however many leaves the range has.
- `vmalloc` followed by `vfree` restores every translation and the whole pool of frames.
- The trees and the live allocations of `va_alloc` tile the address space after every call, `max_length` is exact, and
  the search without backtracking finds the first fit in preorder if and only if there is a fit.
- After any calls of `va_alloc` and `va_free`, on whatever page tables start-up has made, every page of every live range
  is mapped to a frame that no other page of a live range and no page table has and that is not free. If the addresses
  behind the kernel are unmapped at the start, the free ones among them stay so, and kernel allocations disturb no page
  outside them.
- The controller executes the submitted commands in order and once each for every interleaving with at most 254
  outstanding, and some run with 255 deadlocks; no event is lost or repeated.
- A page is free after boot exactly when it lies wholly inside one usable entry from 1 MiB on and is not the kernel's.
- The slab search is first fit over 128 booleans, any printed USB configuration is parsed back, a successful UHCI control
  transfer reports the bytes moved up to the first short packet, and the back buffer agrees with direct drawing.

Where the code does not meet what one would expect of it, the exact condition is proved:

- `create_mapping` takes away pages outside its range if and only if some leaf reaches both into the range and out of it
  (`OutsideIsKeptIff`; `LeafIsLostExample` is such a tree), and `Maps` says which ones.
- So `va_alloc` takes away pages outside its range when one of its ends lies inside a leaf (`AllocElsewhereIff`).
  Start-up maps all conventional memory one to one (paging.c:367-368), from 1 GiB on at addresses of the user range
  (va_alloc.c:10), so user allocations meet such leaves; `UserRangeExample` is one.
- A page mapped for user mode is reachable from there if and only if the tables on its path that existed before were made
  for user mode too, since `create_mapping` never changes the entry of a table (`MappedAccessIff`); `NarrowTableExample`
  is a table that is not.
- `vmalloc` counts the frames for pages but not for tables (valloc.c:25). On a range without a whole 2 MiB block it gets
  through if and only if a frame can be found for each page and for each missing table (`Vmalloc`); `OneFrameExample` is a
  page for which one cannot.
- A range that ends with the address space has the end address 0: `create_mapping` maps nothing and `destroy_mapping`
  unmaps nothing (paging.c:154-155, 226-227), so the last page is never mapped, while `vmalloc` reports success for such a
  range (`CreateMapping`, `DestroyMapping`, `Vmalloc`; `LastPageExample`).
- `va_free` does nothing when no node of its kind can take a child (va_alloc.c:360), and the range is lost unless a later
  `va_free` of it finds one; for attributes other than 3 and 7 none ever does (`OtherKindsAreLost`).
- After a block is freed, the next allocation gets its base back exactly when no run that is large enough starts between
  the search hint and the block (`FreeThenAlloc`; `OtherBaseExample` is a history where it does not).
- 255 outstanding xHCI commands deadlock the command ring (`LimitOf255Deadlocks`).

## Model

| member | source | states |
|---|---|---|
| Paging.AddressSpace.CreateMapping | boot/kernel/x86-64/paging.c:150-219 | the flat map is updated: page i of the range translates to frame + i with the given attributes through leaves inside the range, a page outside loses its translation exactly when its old leaf reaches into the range and keeps it otherwise; tables and frames stay accounted for; only tables that no leaf can stand for are made, and it succeeds if as many frames can be found as of these are missing; a range that ends at the end of the address space maps nothing |
| Paging.AddressSpace.DestroyMapping | boot/kernel/x86-64/paging.c:222-326 | up to the first hole the range is unmapped and every other page keeps frame and attributes, also those of the huge leaves it splits; a fully mapped range is unmapped as a whole; frames are conserved; it succeeds if a frame can be found for each missing table that an end of the range cuts through (see FewCuts), and needs none if no leaf reaches out of the range, then no leaf outside changes; a range that goes on to the end of the address space is left alone |
| Paging.AddressSpace.PagingLookup | boot/kernel/x86-64/paging.c:31-83 | success exactly when the page translates, with the base frame, level and attributes of its leaf; each failure code names the first level that is missing |
| Paging.AddressSpace.constructor | boot/kernel/x86-64/paging.c:354-356 | an empty PML4 in a frame of its own: nothing translates |
| Paging.AddressSpace.AllocPages | boot/kernel/x86-64/paging.c:86-97 | a zeroed frame leaves the pool and is counted |
| Paging.AddressSpace.FreePages | boot/kernel/x86-64/paging.c:99-108 | a table frame goes back to the pool and is not counted any more |
| Paging.AddressSpace.FreePdpt | boot/kernel/x86-64/paging.c:120-135 | exactly the page directory and the page tables behind it are given back, once each |
| Paging.AddressSpace.EnsureTable | boot/kernel/x86-64/paging.c:166-168 | after the step there is a table on the path; only a leaf that stood there is displaced |
| Paging.AddressSpace.NewTable | boot/kernel/x86-64/paging.c:184-186 | a leaf gives way to an empty table: its pages and no others lose their translation |
| Paging.AddressSpace.ReplacePdpte | boot/kernel/x86-64/paging.c:175-178 | a 1 GiB entry is overwritten after all tables behind it went back: one block of pages changes, no frame is lost |
| Paging.AddressSpace.ReplacePde | boot/kernel/x86-64/paging.c:193-196 | the same for a 2 MiB entry and its page table |
| Paging.AddressSpace.ReplacePte | boot/kernel/x86-64/paging.c:209-214 | one page changes |
| Paging.AddressSpace.MapGb | boot/kernel/x86-64/paging.c:170-182 | a run of 1 GiB leaves maps its range |
| Paging.AddressSpace.MapMb | boot/kernel/x86-64/paging.c:188-200 | a run of 2 MiB leaves maps its range |
| Paging.AddressSpace.MapKb | boot/kernel/x86-64/paging.c:201-215 | a run of 4 KiB leaves maps its range |
| Paging.AddressSpace.UnmapGb | boot/kernel/x86-64/paging.c:244-255 | a run of 1 GiB entries is cleared, tables behind them freed |
| Paging.AddressSpace.UnmapMb | boot/kernel/x86-64/paging.c:279-290 | a run of 2 MiB entries is cleared, page tables behind them freed |
| Paging.AddressSpace.UnmapPartOfGb | boot/kernel/x86-64/paging.c:259-277 | part of a 1 GiB leaf: split, then a round one level below that cannot end at a hole |
| Paging.AddressSpace.UnmapPartOfMb | boot/kernel/x86-64/paging.c:294-313 | part of a 2 MiB leaf: split, then single pages |
| Paging.AddressSpace.UnmapKb | boot/kernel/x86-64/paging.c:314-322 | a run of 4 KiB entries is cleared |
| Paging.AddressSpace.SplitLeaf | boot/kernel/x86-64/paging.c:259-277 | a huge leaf is remapped in up to three parts: every page of it keeps frame and attributes in a smaller leaf, and the tables made for it are ones that an end of the range cuts through |
| PageTree.WalkSeesTree | boot/kernel/x86-64/paging.c:31-83 | the processor's walk from the PML4 and the tree of tables give the same frame, leaf attributes and leaf level for every page (for the rights of all levels together see PageRights) |
| PageTree.WriteLeaf | boot/kernel/x86-64/paging.c:178-178 | writing one leaf keeps the tree and changes the pages under that entry only |
| PageTree.LinkTable | boot/kernel/x86-64/paging.c:184-186 | linking a zeroed table keeps the tree and unmaps the pages under that entry only |
| PageTree.UnlinkTable | boot/kernel/x86-64/paging.c:175-178 | replacing a table by a leaf keeps the tree; the frames behind it are no longer in it |
| PageRights.AccessIff | boot/kernel/x86-64/paging.c:166-205 | a page can be written, and reached from user mode, as its leaf says if and only if every table entry on its path grants that |
| PageRights.MappedAccessIff | boot/kernel/x86-64/paging.c:150-219 | after create_mapping a page of the range has the rights asked for if and only if all tables on its path that were there before grant them: existing tables keep the rights they were made with, new ones get those of the mapping |
| PageRights.NarrowTableExample | boot/kernel/x86-64/paging.c:166-168 | a table made for a supervisor mapping below which a page mapped for user mode is not accessible from there |
| PageEffects.MapsAppend | boot/kernel/x86-64/paging.c:155-217 | the effects of consecutive chunks of create_mapping add up to the effect of the whole |
| PageEffects.UnmapsAppend | boot/kernel/x86-64/paging.c:227-325 | the effects of consecutive rounds of destroy_mapping add up to the effect of the whole |
| PageEffects.RunMaps | boot/kernel/x86-64/paging.c:174-182 | a run of leaves written under one table maps its range in the sense of create_mapping |
| PageEffects.ConservesPool | boot/kernel/x86-64/paging.c:86-108 | free frames and table frames together stay the same set |
| PageSplits.FindAddressInverts | boot/kernel/x86-64/paging.c:137-148 | find_address is the inverse of taking the four indices, on both halves of the address space |
| PageSplits.SplitParts | boot/kernel/x86-64/paging.c:266-276 | three mappings of the parts of a leaf leave every page of it where it was |
| PageSplits.SplitUnmaps | boot/kernel/x86-64/paging.c:259-322 | splitting the leaf first does not change what the unmapping behind it means |
| PageSplits.LeafBeforeLast | boot/kernel/x86-64/paging.c:275-276 | as the last page of all is never mapped, the three parts of a leaf end before the end of the address space |
| PageNeeds.ReadyStep | boot/kernel/x86-64/paging.c:155-217 | no round of create_mapping or destroy_mapping ends inside a block that one leaf of the range could stand for |
| PageNeeds.EnoughSupply | boot/kernel/x86-64/paging.c:166-204 | create_mapping cannot run out of frames while as many can be found as tables that no leaf can stand for are missing |
| PageNeeds.PartCuts | boot/kernel/x86-64/paging.c:266-276 | a table needed to map a part of a huge leaf again is one that an end of the range cuts through |
| PageNeeds.CutsFromHere | boot/kernel/x86-64/paging.c:227-325 | a later round cuts through no table that the whole range does not cut through |
| PageNeeds.EnoughForCuts | boot/kernel/x86-64/paging.c:222-326 | destroy_mapping cannot run out of frames while as many can be found as tables that the ends of the range cut through are missing |
| PageNeeds.FewCuts | boot/kernel/x86-64/paging.c:222-326 | these are at most four: a page directory and a page table at each end |
| PageTheorems.EveryTableIsReached | boot/kernel/x86-64/paging.c:86-97 | every frame counted as a table is reached by a walk from the PML4: nothing leaks |
| PageTheorems.WalksReachTables | boot/kernel/x86-64/paging.c:86-108 | every frame a walk arrives at is counted as a table: nothing is freed too early |
| PageTheorems.NoSharing | boot/kernel/x86-64/paging.c:184-204 | at most one entry points to a table, and none to the PML4 |
| PageTheorems.OutsideIsKeptIff | boot/kernel/x86-64/paging.c:150-219 | create_mapping keeps every translation outside its range if and only if no leaf reaches both into the range and out of it |
| PageTheorems.LeafIsLostExample | boot/kernel/x86-64/paging.c:184-186 | a tree of one 2 MiB leaf in which mapping one page takes away its neighbour |
| Bits.SetBitAt | boot/kernel/x86-64/memory/memhlp.c:81-107 | set_bit changes the bit check_byte reads and no other, counting from either end |
| Bits.SetBitsWrites | boot/kernel/x86-64/memory/memhlp.c:92-107 | n calls of set_bit write exactly the bits [lo, lo + n) |
| Bits.WrittenIsSetBits | boot/kernel/x86-64/memory/maphlp.c:17-41 | whatever byte writes were used, if they wrote exactly a range of bits the bitmap is the one n calls of set_bit give |
| Bits.TailWrites | boot/kernel/x86-64/memory/maphlp.c:21-21 | the masked write to the end of a byte writes exactly those bits |
| Bits.HeadWrites | boot/kernel/x86-64/memory/maphlp.c:39-39 | the last masked write writes exactly the bits left, none if none are left |
| FrameAllocation.FillBitmap | boot/kernel/x86-64/memory/maphlp.c:17-41 | the byte-wise fill is n calls of set_bit, for every alignment and length |
| FrameAllocation.ClearBitmap | boot/kernel/x86-64/memory/alloc.c:192-212 | the byte-wise clear is n calls of set_bit, for every alignment and length |
| FrameAllocation.FrameAllocator.constructor | boot/kernel/x86-64/memory/alloc.c:15-109 | after the descriptors were handled in order and the kernel was taken, exactly the released pages outside the kernel are free, and the page count is that before the kernel was taken |
| FrameAllocation.CountClear | boot/kernel/x86-64/memory/alloc.c:74-81 | the nested loop counts the clear bits of the bitmap |
| FrameAllocation.KernelPagesCover | boot/kernel/x86-64/memory/alloc.c:83-84 | a page-aligned kernel lies in exactly the pages taken for it |
| FrameAllocation.FrameAllocator.FindRun | boot/kernel/x86-64/memory/alloc.c:122-146 | the lowest run of free frames at or above the hint, or none exactly when there is none |
| FrameAllocation.FrameAllocator.AllocFrame | boot/kernel/x86-64/memory/alloc.c:113-179 | that run is taken and nothing else changes; the status tells invalid, too little memory and success apart |
| FrameAllocation.FrameAllocator.FreeFrame | boot/kernel/x86-64/memory/alloc.c:183-215 | the frames of the block become free, no others, and the hint never lies above them |
| FrameAllocation.FrameAllocator.RunSimulation | boot/kernel/x86-64/memory/maphlp.c:46-61 | 0 exactly when at least that many frames are free from the start on |
| FrameHistory.HistoriesAreExclusive | boot/kernel/x86-64/memory/alloc.c:113-215 | in every history of allocations and frees live blocks are disjoint and none of their frames is free |
| FrameHistory.Alloc | boot/kernel/x86-64/memory/alloc.c:113-179 | alloc_frame is a step of such a history |
| FrameHistory.Free | boot/kernel/x86-64/memory/alloc.c:183-215 | free_frame is a step of such a history |
| FrameHistory.FreeThenAlloc | boot/kernel/x86-64/memory/alloc.c:113-215 | after freeing a block a smaller or equal allocation succeeds, and gets the same base if and only if no such run starts between the hint and the block |
| FrameHistory.AllocFreeAlloc | boot/kernel/kernel.cpp:112-118 | allocate, free, allocate no more than before, as the kernel does at start-up: the second base is the first one |
| FrameHistory.OtherBaseExample | boot/kernel/x86-64/memory/alloc.c:113-215 | a history after which the next allocation of the size just freed gets another base |
| E820.ConvertE820ToEfi | boot/bios/stage4/stage4.c:83-128 | the descriptors of the first 1024 entries in order; empty entries and those that reach the end of the address space give none |
| E820.FindHighestPage | boot/bios/stage4/stage4.c:264-274 | the least bound of all descriptors |
| E820.BitmapSize | boot/bios/stage4/stage4.c:451-451 | the least number of whole pages that has a bit for each page below the highest one |
| MemoryMap.ReleasedInAnyOrder | boot/kernel/x86-64/memory/alloc.c:24-66 | if descriptors that share a page agree about it, their order does not matter |
| E820.DisjointIsConsistent | boot/bios/stage4/stage4.c:99-107 | with disjoint entries, rounding usable ones inwards and others outwards makes descriptors agree on every page |
| E820.ReleasedIffUsable | boot/bios/stage4/stage4.c:83-128 | conversion and allocator_init release a page exactly when it lies wholly inside one usable entry that starts, rounded, at 1 MiB or above |
| E820.OrderDoesNotMatter | boot/bios/stage4/stage4.c:83-128 | a permutation of the entries releases the same pages |
| E820.Boot | boot/bios/stage4/stage4.c:83-451 | both stages run: a page is free exactly when it is usable in that sense and not the kernel's |
| Vmalloc.Vmalloc | boot/kernel/x86-64/memory/valloc.c:12-57 | every page of the range gets its own frame: pairwise distinct, free before, neither free nor a table afterwards, although tables are taken from the same bitmap; the others keep their translation unless their leaf reaches into the range; the descriptor names the first frame; statuses for no pages and too little memory, counted without the tables; with a frame for each page and each missing table it does not stop on the way, and on a range without a whole 2 MiB block it stops with any fewer; a range up to the end of the address space is reported as a success without its last page being mapped |
| Vmalloc.Vfree | boot/kernel/x86-64/memory/valloc.c:59-87 | exactly those frames go back and exactly the range is unmapped, no leaf outside is split |
| Vmalloc.RoundTrip | boot/kernel/x86-64/memory/valloc.c:12-87 | backing an unmapped range and freeing it leaves every translation as it was |
| Vmalloc.BackAndFree | boot/kernel/x86-64/memory/valloc.c:12-87 | vmalloc then vfree: all translations and the pool of frames are those from before |
| Vmalloc.ChosenAppend | boot/kernel/x86-64/memory/valloc.c:36-39 | one more run keeps the chosen frames distinct, neither free nor tables, and every frame accounted for |
| Vmalloc.RunEnds | boot/kernel/x86-64/memory/valloc.c:36-43 | the frames still to be found stay enough while runs are mapped and tables are made |
| Vmalloc.EnoughIsNeeded | boot/kernel/x86-64/memory/valloc.c:25-48 | a backed range without a whole 2 MiB block has used a frame for each page and one for each table that was missing |
| Vmalloc.OneFrameExample | boot/kernel/x86-64/memory/valloc.c:25-48 | one page without a page table and one free frame: counted as enough, and missing for the table |
| Vmalloc.LastPageExample | boot/kernel/x86-64/memory/valloc.c:46-56 | the last page of all: a success is reported and nothing is mapped |
| Vmalloc.NextLeaf | boot/kernel/x86-64/memory/valloc.c:65-82 | the leaves vfree meets start where the last one ended and hold just the frames of the allocation |
| VaAlloc.VaAllocator.constructor | boot/kernel/x86-64/memory/va_alloc.c:183-207 | the initial trees: two kernel ranges and the user range are free, nothing is allocated |
| VaAlloc.VaAllocator.FindFit | boot/kernel/x86-64/memory/va_alloc.c:120-143 | without backtracking it finds the first node in preorder that is long enough, and one is found if and only if there is one below the root |
| VaForest.FirstFitExists | boot/kernel/x86-64/memory/va_alloc.c:120-143 | a subtree has a fitting node exactly when max_length of its root says so |
| VaForest.PreorderIsSubtree | boot/kernel/x86-64/memory/va_alloc.c:120-143 | preorder lists exactly the nodes below a node |
| VaAlloc.VaAllocator.FindRange | boot/kernel/x86-64/memory/va_alloc.c:210-217 | the node chosen is the first fit below the root of the right kind, and there is one exactly when some node of that kind is long enough |
| VaAlloc.VaAllocator.UpdateParents | boot/kernel/x86-64/memory/va_alloc.c:101-116 | max_length is exact in every node again, and nothing else is changed |
| VaAlloc.VaAllocator.CarveEntry | boot/kernel/x86-64/memory/va_alloc.c:231-234 | carving the front off a node keeps all invariants |
| VaAlloc.VaAllocator.RemoveEntry | boot/kernel/x86-64/memory/va_alloc.c:235-251 | taking an empty leaf out of its tree keeps all invariants and frees its slot |
| VaAlloc.VaAllocator.TakeRange | boot/kernel/x86-64/memory/va_alloc.c:231-292 | the range was free as a whole and belongs to nobody else; every other address keeps its holder; bytes free and bytes live add up as before |
| VaAlloc.VaAllocator.FindLast | boot/kernel/x86-64/memory/va_alloc.c:303-319 | the first slot that can take a child of the kind asked for, none exactly when there is none |
| VaAlloc.VaAllocator.FindUnused | boot/kernel/x86-64/memory/va_alloc.c:368-391 | the first slot that is in no tree |
| VaAlloc.VaAllocator.ReturnRange | boot/kernel/x86-64/memory/va_alloc.c:356-405 | the range and nothing else becomes free, in a recycled slot if there is one; bytes add up as before; without a parent nothing is changed |
| VaAlloc.OtherKindsAreLost | boot/kernel/x86-64/memory/va_alloc.c:358-363 | a range with attributes other than 3 and 7 never finds a parent |
| VaAlloc.FitIsAnywhere | boot/kernel/x86-64/memory/va_alloc.c:212-212 | looking below the root of a kind is looking at every node of that kind |
| VaForest.MaxLengthIsSubtreeMaximum | boot/kernel/x86-64/memory/va_alloc.c:101-116 | max_length is the greatest length in the subtree: no node exceeds it and one attains it |
| VaForest.SetMaxStep | boot/kernel/x86-64/memory/va_alloc.c:103-114 | one turn of the climb moves the only stale node one step up |
| VaForest.UnlinkKeeps | boot/kernel/x86-64/memory/va_alloc.c:240-249 | an unlinked slot keeps no parent and no child, and the trees stay trees |
| VaForest.AdoptKeeps | boot/kernel/x86-64/memory/va_alloc.c:323-342 | a recycled slot becomes a leaf of its new tree, without any link from its past |
| VaRanges.CarveKeepsTiling | boot/kernel/x86-64/memory/va_alloc.c:231-234 | an allocation takes addresses that were free and keeps the sum of lengths |
| VaRanges.FillKeepsTiling | boot/kernel/x86-64/memory/va_alloc.c:376-378 | a freed range comes back as a whole and keeps the sum of lengths |
| VirtualMemory.KernelMemory.constructor | boot/kernel/x86-64/memory/va_alloc.c:183-207 | on whatever page tables start-up has made: nothing is allocated, and the trees hold exactly the two kernel ranges and the user range |
| VirtualMemory.KernelMemory.VaAlloc | boot/kernel/x86-64/memory/va_alloc.c:159-299 | over vmalloc, on any page tables: it succeeds exactly when a node of the right kind is long enough and enough frames are free; the first fit is taken and its pages are backed by frames of their own; the pages outside keep their translation exactly when no leaf reaches both into the range and out of it, and unmapped free pages stay unmapped; a failure changes nothing |
| VirtualMemory.KernelMemory.VaFree | boot/kernel/x86-64/memory/va_alloc.c:346-409 | over vfree: the range is free and unmapped, exactly its frames are back, and no page outside it changes; without a parent nothing is changed |
| VirtualMemory.AllocEffect | boot/kernel/x86-64/memory/va_alloc.c:212-234 | whatever else the page tables map, all live ranges stay mapped to frames of their own, because their leaves lie inside them |
| VirtualMemory.FreeEffect | boot/kernel/x86-64/memory/va_alloc.c:376-405 | freeing one range leaves all other live ranges mapped to their frames |
| VirtualMemory.AllocElsewhereIff | boot/kernel/x86-64/memory/va_alloc.c:219-219 | va_alloc keeps the pages outside its range if and only if no leaf reaches both into the range and out of it |
| VirtualMemory.AllocKeepsUnmapped | boot/kernel/x86-64/memory/va_alloc.c:212-234 | free pages from any address on that are unmapped stay unmapped when a range is taken |
| VirtualMemory.FreeKeepsUnmapped | boot/kernel/x86-64/memory/va_alloc.c:376-405 | and when one is given back |
| VirtualMemory.KernelRangesAreClean | boot/kernel/x86-64/memory/va_alloc.c:192-200 | so, where free addresses behind the kernel are unmapped as start-up leaves them, kernel ranges disturb no page outside them |
| VirtualMemory.UserRangeExample | boot/kernel/x86-64/paging.c:367-368 | the one-to-one mapping of memory at the first user address, in which the first user allocation of one page takes away the next page |
| VirtualMemory.RangesApart | boot/kernel/x86-64/memory/va_alloc.c:159-409 | after any calls the addresses of two live allocations do not overlap |
| VirtualMemory.PagesHaveOwnFrames | boot/kernel/x86-64/memory/va_alloc.c:159-409 | after any calls every page of a live allocation is mapped, no two of them share a frame, and none of these frames is free or a page table |
| VirtualMemory.PagesOf | boot/kernel/x86-64/memory/va_alloc.c:219-219 | the pages vmalloc is given are those of the addresses taken from the trees, in both halves of the address space |
| Slab.Bsf128Scans | boot/kernel/x86-64/memory/kmalloc.c:156-161 | two 64-bit scans find the lowest set bit of 128 |
| Slab.Mask128Drops | boot/kernel/x86-64/memory/kmalloc.c:165-173 | mask128 clears exactly the bits below the index |
| Slab.Or128Sets | boot/kernel/x86-64/memory/kmalloc.c:177-185 | Or128 sets exactly the bits below the index |
| Slab.Put128Puts | boot/kernel/x86-64/memory/kmalloc.c:205-217 | set128 and clean128 write exactly one bit |
| Slab.ScanStep | boot/kernel/x86-64/memory/kmalloc.c:235-244 | what one turn of the scan rules out, and that a run it accepts is the first one |
| Slab.SlabObject.FindRun | boot/kernel/x86-64/memory/kmalloc.c:235-244 | the scan ends with the lowest run of clear slots, or with none exactly when there is none |
| Slab.SlabObject.Mark | boot/kernel/x86-64/memory/kmalloc.c:259-308 | 64, 32, 16 and 8 bit stores and single bits write exactly the slots of the run, for every alignment |
| Slab.SlabObject.FindObjs | boot/kernel/x86-64/memory/kmalloc.c:221-314 | first fit over 128 booleans: exactly that run is taken, its address returned; nothing changes when none fits or an untouched slab is asked for and this is not one |
| Slab.SlabObject.CleanCache | boot/kernel/x86-64/memory/kmalloc.c:316-376 | exactly the slots of the request are cleared |
| Slab.FillUndone | boot/kernel/x86-64/memory/kmalloc.c:316-376 | giving a run back undoes taking it |
| Slab.SlabObject.Take | boot/kernel/x86-64/memory/kmalloc.c:514-520 | over every run of matched calls live requests are disjoint, the set slots are theirs, and FreeObs is 128 less their sizes |
| Slab.SlabObject.Give | boot/kernel/x86-64/memory/kmalloc.c:663-664 | a live request is given back and nothing else |
| Slab.TakeKeeps | boot/kernel/x86-64/memory/kmalloc.c:221-314 | taking a clear run keeps live requests disjoint and the number of set slots the sum of their sizes |
| Slab.NoRoom | boot/kernel/x86-64/memory/kmalloc.c:514-520 | with FreeObs below the request no run can fit |
| XhciCommandRing.StepInv | boot/kernel/drivers/usb/xhci.cpp:358-384 | every step of the driver and of the controller keeps the invariant of the command ring |
| XhciCommandRing.ExactlyOnceInOrder | boot/kernel/drivers/usb/xhci.cpp:358-384 | for every interleaving with at most 254 commands outstanding the controller has consumed the commands submitted first, in order and once each |
| XhciCommandRing.NeverStuck | boot/kernel/drivers/usb/xhci.cpp:372-379 | and while commands are outstanding two controller steps consume the next one |
| XhciCommandRing.LimitOf255Deadlocks | boot/kernel/drivers/usb/xhci.cpp:372-379 | with 255 outstanding some run leaves the controller at a rewritten Link TRB |
| XhciCommandRing.StuckForever | boot/kernel/drivers/usb/xhci.cpp:372-379 | and from there it consumes nothing any more, whatever happens |
| XhciCommandRing.SubmitRuns | boot/kernel/drivers/usb/xhci.cpp:358-384 | submit_command is a run of the protocol's steps |
| XhciEventRing.AvailableMeansUnread | boot/kernel/drivers/usb/xhci.cpp:388-406 | the cycle bit says exactly whether an event was produced and not yet polled |
| XhciEventRing.RoomMeansRoom | boot/kernel/drivers/usb/xhci.cpp:473-481 | the producer's test against the published pointer is the test that fewer than 255 events are not yet published as read |
| XhciEventRing.StepInv | boot/kernel/drivers/usb/xhci.cpp:388-408 | producing, polling and publishing keep the invariant of the event ring |
| XhciEventRing.PollsWhatWasProduced | boot/kernel/drivers/usb/xhci.cpp:388-486 | for every interleaving events are polled in the order produced, none lost and none twice, and a published pointer names the next unread TRB |
| Xhci.XhciController.constructor | boot/kernel/drivers/usb/xhci.cpp:309-356 | the rings start as the protocols require |
| Xhci.XhciController.SubmitCommand | boot/kernel/drivers/usb/xhci.cpp:358-384 | the ring memory and the driver's fields change as the protocol says: one more command submitted; its address is returned and remembered |
| Xhci.XhciController.PollEvent | boot/kernel/drivers/usb/xhci.cpp:388-408 | the oldest unread event, or none exactly when there is none |
| Xhci.XhciController.ControllerConsumes | boot/kernel/drivers/usb/xhci.cpp:358-384 | the controller reads the next TRB of the ring memory that submit_command writes, as the protocol says |
| Xhci.XhciController.ProcessEvents | boot/kernel/drivers/usb/xhci.cpp:410-486 | with events arriving before every poll, all events up to the last poll are delivered once and in order, nothing is left unread, and ERDP names the next unread TRB if anything was read, an interrupt was pending or the handler-busy bit was set |
| Xhci.PortsReported | boot/kernel/drivers/usb/xhci.cpp:439-444 | a port is reported as changed exactly if it was before or a status change event for it was among those delivered |
| Xhci.CommandReported | boot/kernel/drivers/usb/xhci.cpp:432-438 | the completion of the pending command is noticed; of several the last is kept |
| Xhci.NoCommandReported | boot/kernel/drivers/usb/xhci.cpp:432-438 | without one nothing is reported |
| Xhci.TransferReported | boot/kernel/drivers/usb/xhci.cpp:445-465 | an event for the transfer waited for is noticed; of several the first is kept |
| Xhci.XhciController.TakePortChange | boot/kernel/drivers/usb/xhci.cpp:488-494 | a change is reported once, and port 0 never |
| UsbConfig.FieldsAreRead | boot/kernel/drivers/usb/usb.cpp:291-312 | every field of an endpoint comes from its place in the endpoint or interface descriptor |
| UsbConfig.CountTree | boot/kernel/drivers/usb/usb.cpp:211-233 | the number of descriptors of a kind up to the first that makes no sense |
| UsbConfig.FillInterfaces | boot/kernel/drivers/usb/usb.cpp:235-339 | for any bytes it ends, reads inside the tree only, and gives the interfaces the descriptors mean, or nothing |
| UsbConfig.FillEndpoints | boot/kernel/drivers/usb/usb.cpp:268-331 | the endpoints of one interface with their companions, or nothing |
| UsbConfig.CompanionIsRead | boot/kernel/drivers/usb/usb.cpp:298-310 | the descriptor behind an endpoint is taken as its companion exactly when it is one |
| UsbConfig.InterfacesRoundTrip | boot/kernel/drivers/usb/usb.cpp:211-339 | printing any list of interfaces and parsing it gives the same interfaces and endpoints in order |
| UsbConfig.ParsePrinted | boot/kernel/drivers/usb/usb.cpp:401-413 | count_tree and fill_interfaces together recover what was printed, behind any unrelated descriptors |
| Uhci.TokenFields | boot/kernel/drivers/usb/uhci.cpp:66-68 | an encoded length is read back |
| Uhci.ChunksPartition | boot/kernel/drivers/usb/uhci.cpp:1133-1169 | the chunks of the data stage are not empty, at most one packet long, and contiguous |
| Uhci.ChunksAddUp | boot/kernel/drivers/usb/uhci.cpp:1133-1169 | together they are the whole buffer |
| Uhci.BuildDataTds | boot/kernel/drivers/usb/uhci.cpp:1133-1169 | each data descriptor moves its chunk, toggles alternate from DATA1, links lead to the next descriptor and from the last to the status descriptor, all but the last detect short packets |
| Uhci.WaitForControlTransfer | boot/kernel/drivers/usb/uhci.cpp:310-404 | against any controller that retires descriptors in order: success reports the bytes moved up to the first short packet, an error only if a descriptor failed, and a transfer complete before the last poll succeeds |
| Uhci.ControlTransfer | boot/kernel/drivers/usb/uhci.cpp:1133-1169 | set-up of the data stage and waiting together, at either speed: what is reported is never more than asked for |
| Vga.IndexInverts | boot/kernel/drivers/display/vga.c:133-134 | a tile's index gives back its column and row, for every number of columns |
| Vga.EncodeSwaps | boot/kernel/drivers/display/vga.c:152-157 | for a BGR screen red and blue change places, green stays |
| Vga.Screen.constructor | boot/kernel/drivers/display/vga.c:88-114 | a black back buffer and no marked tile in front of whatever the screen shows |
| Vga.Screen.DrawPixel | boot/kernel/drivers/display/vga.c:146-162 | the pixel changes in the back buffer if it is on the screen, its tile is marked, and pixels that differ from the screen stay marked or were never drawn |
| Vga.Screen.Draw16Color | boot/kernel/drivers/display/vga.c:164-181 | the same for a colour of the table of sixteen |
| Vga.Screen.Present | boot/kernel/drivers/display/vga.c:126-144 | afterwards the screen shows the back buffer in every tile that was ever marked and what it showed before elsewhere, and no tile is marked |
| Vga.Screen.Scroll | boot/kernel/drivers/display/vga.c:231-260 | the picture moves up by sixteen lines, is black below, and the whole screen shows it |
| Vga.Screen.ScrolledAt | boot/kernel/drivers/display/vga.c:242-257 | a pixel gets what was sixteen lines below it, the last sixteen lines are black |
| Vga.Screen.Paint | boot/kernel/drivers/display/vga.c:117-260 | after any sequence of draws and scrolls a present makes the screen what direct drawing would have left in every tile drawn to, or in all of them after a scroll; elsewhere it is as before and the picture is black |

## Left out

- Vmalloc.Vmalloc: where the C code would go on with frame 0 because create_mapping finds no frame for a table, or read behind the bitmap, the model stops (`stopped`); that this does not happen is shown for one free frame more per missing table; on a range that contains a whole 2 MiB block that is enough but not always necessary, as a huge leaf may take the place of a table.
- VirtualMemory.KernelMemory.VaAlloc: the root of the tree searched is assumed not to be used up exactly, as it starts with terabytes; a range that ends with the address space is not covered by the invariant.
- Uhci.WaitForControlTransfer: packets are shorter than 2048 bytes, the length field has 11 bits; only the IN data stage is modelled, as in the source.
- Slab.SlabObject.FindObjs: reports the search result as an option instead of a null address.
- A failed frame allocation for a table stops the model's create_mapping; the C code would go on with frame 0 (paging.c:86-97).
- Virtual and physical addresses are page and frame numbers; alignment and canonical form are taken for granted, so no range goes on from the lower half of the address space into the upper one; attribute bit 0 is set and bit 7 clear.
- The SetupPaging loop over the memory map, CR3 and the flushing of translations; that alloc_pages writes through the one-to-one mapping, which user allocations can displace (paging.c:91-94).
- Cache and execute-disable attributes, and write protection switched off for the kernel: `PageRights` covers the read/write and user bits of the entries.
- Metadata pages of va_alloc: slots are one growing table, pages of slots are neither made nor given back (va_alloc.c:44-71, 253-284).
- kmalloc and kfree beyond one slab: slab headers, page bookkeeping and krealloc.
- The DMA pool, and the EP0 transfer ring of xHCI.
- Timers, MMIO, memory fences, locks and the reads of former_count outside the lock: calls run one after the other, xHCI interleavings excepted.
- Loading the kernel, find_free_region and the rest of stage 4.
- Character drawing, fonts, the cursor and printing on top of the back buffer.
- Unfinished drivers, ATA, PCI enumeration, ELF loading: mostly input and output, with little state that calls keep between them.
