# termOS: memory, scheduling and program loading, verified

This project models the core of the termOS kernel and of the tools around it in Dafny and proves that it does
what its design promises. What the C and Rust sources change in place is modelled by classes, arrays and byte
memories; each of their methods is proved against a specification on values, and the promises are lemmas about
that specification, for every input, every state and every run.

| part | files |
|---|---|
| frame bitmap | `FrameBitmap.dfy` |
| 4-level page tables: walks, ownership, one map, unmap or new space | `PageTables.dfy`, `Mappings.dfy` |
| all clients together: one frame, one page; isolation over whole runs | `Isolation.dfy` |
| how many frames a list of pages takes | `PageCosts.dfy` |
| a loader without a frame: the null frame mapped | `NullFrame.dfy`, `SpareFrames.dfy`, `NullPages.dfy` |
| the table editor over byte memory (entries as 64-bit words), on whatever tables are there | `RawTables.dfy`, `PageWords.dfy`, `MemoryViews.dfy`, `AddressSpaces.dfy` |
| kernel half at boot; user stack and `SYS_MEM` | `KernelMap.dfy`, `MemoryServices.dfy` |
| whole runs over the bytes of memory, from boot on | `MemoryRuns.dfy` |
| HOT! executables: converter and loader; a new process | `HotFormat.dfy`, `HotLoader.dfy`, `ProcessSpawn.dfy` |
| first-fit heap on its own header bytes, kernel and user | `HeapBlocks.dfy`, `HeapHeaders.dfy`, `BlockHeap.dfy`, `HeapRuns.dfy`, `UserHeap.dfy`, `UserResize.dfy`, `UserRuns.dfy` |
| the pages behind a process's heap | `UserMemory.dfy` |
| round-robin scheduler | `SchedulerRing.dfy`, `Scheduler.dfy` |
| spinlocks, interrupts, keyboard ring | `LockDiscipline.dfy`, `Keyboard.dfy` |
| algorithms: qsort, calendar, cpio and VFS, tokenizer | `QuickSort.dfy`, `Calendar.dfy`, `Archive.dfy`, `FileSystem.dfy`, `Tokenizer.dfy` |
| shared | `Common.dfy`, `Bits.dfy` |

## How the model is built

- **Memory.** `AddressSpaces.memory` maps each frame to 4096 bytes. Page-table entries are the 64-bit words in
  those bytes; `PageWords` proves that what the code builds with `phys | flags` decodes to the frame and the flags.
  The ghost `world` adds who owns each frame (root, table, low-half page, loose, reserved at boot) and the
  invariant `PageTables.Inv` ties all of it together. Part of it is that nothing in the kernel half is open to the
  user, so the runs allow a process any store, at any address, that the hardware allows it.
- **Translations.** `PageTables.Resolve` is the hardware walk of section 4.5 of the Intel SDM, Volume 3A, with the
  rights of section 4.6 (allowed only when every level allows). Mapping is proved to update exactly one key of it.
- **Heap.** `BlockHeap.memory` holds the 40-byte headers; the ghost list `blocks` is what they say. Allocation,
  free, coalescing and resize are proved to be `Carve`, `Release`, `Combine` on that list, and the lemmas of
  `HeapBlocks` are about the list.
- **Scheduler.** `Scheduler` relinks nodes in place; its ghost ring lists them from the running task on, and
  `SchedulerRing` holds the specification and the run theorems.
- **Locks.** `LockDiscipline` is a step system at instruction grain: pushfq, cli, exchange, store, sti,
  interrupts wherever the flag is set, `int $32`, task switches and iretq.
- A panic is a result (`None`, `null` or `false`). Sizes and addresses are unbounded naturals, with the 64-bit
  wrap-around written out wherever the code can reach it.

## Where the code falls short of its promise

Each of these has a lemma that says exactly when the promise holds, and one with an input at which it does not.

| promise | holds exactly | lemmas |
|---|---|---|
| `FSCPIORead` clips a read to the file | when the read starts behind the file or its end does not wrap | `FileSystem.ReadIsClipped`, `FileSystem.WrappedReadIsNotClipped` |
| the bitmap loops visit every frame that their range reaches into | when the start's offset in its page is no larger than the last byte's, so for page-aligned starts | `FrameBitmap.LoopCovers`, `FrameBitmap.UnalignedLoopMisses` |
| `SYS_MEM` covers the request | up to 2^64 minus one page | `MemoryServices.PagesCover`, `MemoryServices.LargestRequestGetsNothing` |
| the address that `SYS_MEM` returns is backed by pages | when the free frames reach for the tables of the last page as well | `MemoryServices.GrantIsBacked`, `UserMemory.GrowthIsBacked`, `MemoryServices.GrantWithoutPage` |
| a growing process heap leaves a stack in use alone | when the new pages end below the stack or start above it; nothing in the code checks that | `MemoryServices.GrowthKeepsStack`, `MemoryServices.HeapMeetsStack` |
| the rounded size covers the size asked for | up to 2^64-16 | `HeapBlocks.AlignedCovers`, `HeapBlocks.AlignedTooSmall` |
| the user heap's grown block holds the request | up to 2^64-48 | `UserHeap.GrownBlockFits`, `UserHeap.GrownBlockTooSmall` |
| a loaded page has a frame of its own, so that processes are isolated | when a frame is free or a table is missing; without either the loader maps frame 0. A whole file is loaded in order exactly if that happens to none of its pages, and a process that is started has had no such page | `Isolation.LoadKeepsInv`, `HotLoader.Load`, `ProcessSpawn.Spawn`, `NullPages.NullPagesShareFrame`, `NullPages.SharedFromBoot` |
| a loaded program reads its ELF segments' bytes | at every byte where the last segment with that page says the same, so whenever the segments have pages of their own | `HotLoader.LoadedImageIsElfImage`, `HotLoader.SharedPageIsLost` |
| the firmware clock is converted correctly | for years after 2000 | `Calendar.EfiSecondsAreRight`, `Calendar.Year2000IsWrong` |
| `OSSchedulerNext` finds a task | unless neither the running task nor any other may run; an idle task that always runs rules the panic out | `SchedulerRing.PanicsWithoutTasks`, `SchedulerRing.SleepersPanic` |
| the collector takes the dead task out of the ring and no other | when the task before it has spawned none since the collector looked | `SchedulerRing.CollectsOneWithoutSpawn`, `SchedulerRing.SpawnedTaskIsLost` |
| yielding for `n` ticks costs one tick in the call itself | for `n` at most 1; otherwise it costs two | `SchedulerRing.YieldLosesTwoTicks`, `SchedulerRing.CollectorSleepsShort` |

## Model

| member | source | states |
|---|---|---|
| FrameBitmap.FrameAllocator.Initialize | kernel/src/VM/PMM.c:30-100 | a frame is free exactly when the loop of a conventional descriptor visits it and none of the reservation loops does (low megabyte, kernel image, bitmap); panics exactly when no descriptor can host the bitmap, and takes the first that can |
| FrameBitmap.FrameAllocator.MarkRange | kernel/src/VM/PMM.c:86-88 | the page loop sets exactly the frames its addresses fall in and leaves the others |
| FrameBitmap.LoopCovers | kernel/src/VM/PMM.c:86-99 | the page loop visits only frames that its range reaches into, and all of them exactly if the offset of the start in its page is no larger than that of the last byte |
| FrameBitmap.DescriptorFrames | kernel/src/VM/PMM.c:78-88 | the loop over a descriptor visits as many frames as it has pages, from its first one on |
| FrameBitmap.FrameAllocator.Reserve | kernel/src/VM/PMM.c:97-99 | the low megabyte, the kernel image and the bitmap become used, nothing else changes |
| FrameBitmap.FindTop | kernel/src/VM/PMM.c:34-50 | the largest end of a descriptor of memory of any use, 0 if there is none: every kind but the five that the code excludes, listed the other way round |
| FrameBitmap.FindHost | kernel/src/VM/PMM.c:56-65 | the first conventional descriptor from the first megabyte on that is large enough, or none |
| FrameBitmap.FrameAllocator.AllocatePage | kernel/src/VM/PMM.c:102-122 | the lowest free frame, which becomes used, and null exactly when every frame is used |
| FrameBitmap.FrameAllocator.FreePage | kernel/src/VM/PMM.c:124-131 | clears the bit of that frame only, frame 0 included |
| FrameBitmap.FrameAllocator.Set | kernel/inc/VM/PMM.h:15 | sets the bit of one frame and no other |
| FrameBitmap.FrameAllocator.Unset | kernel/inc/VM/PMM.h:16 | clears the bit of one frame and no other |
| FrameBitmap.MarkByte | kernel/inc/VM/PMM.h:12-16 | or-ing or and-not-ing one bit of one byte changes the bit of that frame alone |
| PageWords.MakeEntry | kernel/src/VM/VMM.c:90 | `phys \| flags` decodes to the frame of `phys` and to the three flags |
| PageWords.AddUserBit | kernel/src/VM/VMM.c:59 | or-ing the user flag changes the user right alone |
| PageWords.PathOfPage | kernel/inc/VM/VMM.h:27-30 | two addresses have the same four table indices exactly when they are on the same 48-bit page |
| PageWords.PathIs | kernel/inc/VM/VMM.h:27-30 | the four indices are the base-512 digits of the page number, most significant first |
| PageWords.PathHalf | kernel/inc/VM/VMM.h:27-30 | the top index is below 256 exactly for the low half |
| PageWords.StoreEntry | kernel/src/VM/VMM.c:90 | writing one word changes one entry of the table read from the page |
| PageTables.NextTableKeepsInv | kernel/src/VM/VMM.c:52-60 | finding or making the next table keeps the ownership invariant, fails exactly without a free frame, and leaves a user link for a user map |
| PageTables.NextTableKeepsWalks | kernel/src/VM/VMM.c:52-60 | no walk from any table sees that a table was added or got the user bit |
| PageTables.SetLeafKeepsInv | kernel/src/VM/VMM.c:90 | writing the last-level entry keeps the ownership invariant |
| PageTables.SetLeafWalk | kernel/src/VM/VMM.c:90 | exactly the walks that end in that entry find the new leaf |
| PageTables.LeafDecides | kernel/src/VM/VMM.c:50-90 | in every reachable table tree the rights of a walk are those of its leaf alone |
| PageTables.OnePlace | kernel/src/VM/VMM.c:41-95 | no two owned frames have the same place in the same space |
| PageTables.OnTheWay | kernel/src/VM/VMM.c:62-89 | a table above a frame links to the next table on the way to it |
| Mappings.MapKeepsInv | kernel/src/VM/VMM.c:41-95 | mapping a page, also when it fails midway, keeps the ownership invariant |
| Mappings.MapUpdatesOneKey | kernel/src/VM/VMM.c:41-95 | the walks that see the mapped page find the new leaf, every other walk what it found before; a map that ran out of frames changes no translation |
| Mappings.MapTakesMissing | kernel/src/VM/VMM.c:52-86 | a map succeeds exactly when the free frames cover the missing tables, takes just those, and otherwise uses up all frames |
| PageCosts.CostIsMissing | kernel/src/VM/VMM.c:52-86 | a page takes its own frame and one for each table that is missing on the way to it |
| PageCosts.MapReaches | kernel/src/VM/VMM.c:52-86 | after a map, failed or not, the missing tables are there as far as the frames went |
| PageCosts.NeededDecides | kernel/src/VM/VMM.c:41-95 | pages mapped one after the other all get their frames exactly if the free ones cover the pages and each missing table once, and take just those; otherwise none is left |
| Mappings.UnmapKeepsInv | kernel/src/VM/VMM.c:97-118 | unmapping keeps the ownership invariant |
| Mappings.UnmapRemovesOneKey | kernel/src/VM/VMM.c:97-118 | unmapping removes exactly one key |
| Mappings.CreateKeepsInv | kernel/src/VM/VMM.c:169-190 | a new address space keeps the ownership invariant |
| Mappings.CreateTranslations | kernel/src/VM/VMM.c:178-186 | a new space has an empty low half and the kernel's high half; other spaces translate as before |
| Mappings.KernelHalfAgrees | kernel/src/VM/VMM.c:184-186 | every space agrees with the kernel on each high slot present in it, in every reachable state |
| Mappings.OverwriteKeepsInv | kernel/src/OS/Services/OSServiceMemory.c:24 | writing a page that is no table keeps the ownership invariant |
| Isolation.PageIsOwned | kernel/src/VM/VMM.c:41-95 | a mapped low-half page lies on a used frame whose owner is that page of that space |
| Isolation.OneFrameOnePage | kernel/src/VM/PMM.c:102-122 | two low-half pages on one frame are one page of one space |
| Isolation.FrameAccount | kernel/src/VM/PMM.c:102-122 | every used frame is exactly one of reserved, loose, one table page, or mapped at exactly one low-half page of exactly one space |
| Isolation.LoadKeepsInv | kernel/src/OS/Exec/HOTLoader.c:29-32 | the loader's page keeps the ownership invariant exactly if a frame is free or a table is missing; otherwise it is mapped to frame 0 |
| SpareFrames.NullLoadStands | kernel/src/OS/Exec/HOTLoader.c:29-43 | when no frame is free, loading a page, mapped to frame 0 or not, leaves the tables of a machine in order that has one spare frame more, where every spare frame is frame 0 in truth; only tables are edited, and the walk stays in memory, for the first such load and for every later one |
| SpareFrames.NullLoadKeeps | kernel/src/OS/Exec/HOTLoader.c:29-43 | such a load changes no low-half page of any space but its own; a page once on frame 0 stays there |
| SpareFrames.NullFrameBreaks | kernel/src/OS/Exec/HOTLoader.c:29-32 | with a low-half page on the reserved frame 0 the ownership invariant does not hold |
| NullPages.NullPagesShareFrame | kernel/src/OS/Exec/HOTLoader.c:29-32 | two pages, of one process or of two, loaded without a frame and with all their tables there are both on frame 0, which holds what was loaded last |
| NullPages.ThreePages | kernel/src/OS/Exec/HOTLoader.c:28-43 | a segment whose first page takes the last frames has its second and third, behind the same table, on frame 0 |
| NullPages.SharedFromBoot | kernel/src/OS/Exec/HOTLoader.c:28-43 | such a run from boot, with seven frames |
| Isolation.KernelHalfIsClosed | kernel/src/VM/VMM.c:158-186 | in every reachable state no address of the kernel half of any space is open to the user |
| Isolation.StoreIsLow | kernel/src/VM/VMM.c:41-95 | whatever address a process may store to is in a low-half page of its own space, on a frame that is no table |
| Isolation.StepKeepsPage | kernel/src/VM/VMM.c:121-207 | one step of any client, a store of a process at any address included, leaves every other low-half page its translation and the decoded entries of its frame |
| Isolation.RunKeepsInv | kernel/src/VM/VMM.c:121-207 | every state reached by space creation, fresh user pages, the loader's pages, kernel maps and writes, those of processes at whatever address the hardware lets them write, keeps the ownership invariant, where the loader maps no page to the null frame |
| Isolation.RunIsolates | kernel/src/VM/VMM.c:121-207 | over any run a low-half page keeps its translation and the decoded entries of its frame unless the run maps it anew or its own process writes to it, whatever the other processes store and wherever; `MemoryRuns.RunIsolates` is the same for bytes |
| Isolation.SmoothKeepsLoose | kernel/src/VM/VMM.c:41-207 | a step that finds its frames and maps no page twice leaves no frame in hand |
| MemoryViews.BootKeepsInv | kernel/src/VM/VMM.c:145-148 | the kernel's empty root table satisfies the ownership invariant and translates nothing |
| AddressSpaces.AddressSpaces.MapPage | kernel/src/VM/VMM.c:41-95 | for any page, frame and flags, and on any tables whose walk stays in memory, the bytes change as the map on raw tables says, in the frames that it edits only; when the caller may map the page, that is the map of the specification, and no byte of a mapped or handed-out page changes |
| RawTables.MapIsRaw | kernel/src/VM/VMM.c:41-95 | where the owners are in order, the map of a page that the caller may map is the map on raw tables, and its walk stays in memory |
| RawTables.DataNotEdited | kernel/src/VM/VMM.c:41-95 | it writes to no mapped page and to no frame in anyone's hands |
| RawTables.NullIsRaw | kernel/src/OS/Exec/HOTLoader.c:29-30 | mapping null for the user without a free frame sets user bits on the way, and the leaf to frame 0 exactly if no table is missing |
| AddressSpaces.AddressSpaces.NextLevel | kernel/src/VM/VMM.c:52-60 | one table level of the map: find the table, add the user bit, or allocate, zero and link a new one |
| AddressSpaces.AddressSpaces.UnmapPage | kernel/src/VM/VMM.c:97-118 | the byte-level unmap does exactly what the unmap on values does |
| AddressSpaces.AddressSpaces.CreateAddressSpace | kernel/src/VM/VMM.c:169-190 | a zeroed root with the kernel's 256 high slots, or nothing when no frame is free |
| AddressSpaces.AddressSpaces.CopyKernelHalf | kernel/src/VM/VMM.c:178-186 | the slot loop yields an empty low half under the kernel's high half |
| KernelMap.MapRange | kernel/src/VM/VMM.c:158-160 | a mapping loop changes no translation outside its range; it maps every page of the range if the free frames suffice for the missing tables, and then takes just those, and otherwise leaves some page unmapped and no frame |
| KernelMap.MappedIfSuffices | kernel/src/VM/VMM.c:158-160 | so the range is mapped if and only if the frames suffice for each missing table once |
| KernelMap.Initialize | kernel/src/VM/VMM.c:144-167 | with frames for the tables of the three ranges the kernel half holds the direct map, the image without its guard page and the framebuffer, and exactly those tables are taken; otherwise no frame is left; in both cases it holds nothing else |
| KernelMap.RangesDone | kernel/src/VM/VMM.c:158-160 | all three ranges are mapped if and only if the frames suffice for the missing tables of all their pages, each counted once |
| KernelMap.AllDone | kernel/src/VM/VMM.c:158-161 | the three loops and the unmapped guard page add up to that kernel half |
| KernelMap.OneMap | kernel/src/VM/VMM.c:158-160 | one kernel map changes its own page only; it succeeds exactly if the free frames suffice for the missing tables, and takes just those; when it fails its page was absent and no frame is left |
| MemoryServices.AddStackPage | kernel/src/VM/VMM.c:201-206 | the loop body adds one zeroed user page exactly if the free frames cover it and its missing tables; else no page changes and no frame is left |
| MemoryServices.SetupUserStack | kernel/src/VM/VMM.c:199-207 | it panics exactly when the free frames do not cover the four pages and their tables; else the pages are zeroed user pages, and no other low-half page of any space changes; where the loader has used up the frames and mapped frame 0, it panics at once |
| MemoryServices.AddHeapPage | kernel/src/OS/Services/OSServiceMemory.c:20-26 | the loop body adds one zeroed user page exactly if the free frames cover it and its missing tables; a frame whose tables cannot be had stays unmapped |
| MemoryServices.AddFilledPage | kernel/src/OS/Exec/HOTLoader.c:29-43 | the loop body of the loader: a page of its own with the contents exactly if the free frames cover it and its tables; without a free frame, frame 0 is overwritten, and mapped if all its tables are there, also when it is mapped elsewhere already |
| MemoryServices.ServiceMemoryAllocate | kernel/src/OS/Services/OSServiceMemory.c:12-30 | page by page, each page that the free frames cover with its tables is a zeroed user page and each other is as before; the result is the old end exactly when every page found a frame for itself |
| MemoryServices.GrantIsBacked | kernel/src/OS/Services/OSServiceMemory.c:20-27 | all pages of a granted request but the last are mapped, and the last one exactly if the frames reach for its tables as well |
| MemoryServices.GrantWithoutPage | kernel/src/OS/Services/OSServiceMemory.c:20-27 | one page asked for, one frame free, a table missing: granted and not mapped |
| MemoryServices.PagesCover | kernel/src/OS/Services/OSServiceMemory.c:17 | the pages asked for cover the request exactly when the rounding does not wrap, and then by less than a page |
| MemoryServices.LargestRequestGetsNothing | kernel/src/OS/Services/OSServiceMemory.c:17 | a request of 2^64-1 bytes asks for no page |
| MemoryServices.GrowthKeepsStack | kernel/src/OS/Services/OSServiceMemory.c:20-26 | growth leaves the user stack alone when its pages lie below or above it, else a stack page has become a zeroed one; so a stack without an all-zero page is kept exactly when they do |
| MemoryServices.HeapMeetsStack | kernel/src/VM/VMM.c:199-207 | from the heap's start, 0x2FFFC pages stay clear of the stack and the next one is its lowest page |
| MemoryRuns.Perform | kernel/src/VM/VMM.c:41-207 | each step of a run, done by the table editor on the bytes of memory, is a step of the specification |
| MemoryRuns.StepKeepsPage | kernel/src/VM/VMM.c:41-207 | one step of any client leaves every other low-half page of every space its translation and its bytes |
| MemoryRuns.RunIsolates | kernel/src/VM/VMM.c:41-207 | over any run a low-half page keeps its translation and every byte unless the run maps it anew or its own process writes to it |
| MemoryRuns.BootIsCoherent | kernel/src/VM/VMM.c:144-148 | the machine with one zeroed root table is in order |
| MemoryRuns.RunFromBoot | kernel/src/VM/VMM.c:41-207 | from boot on, whichever allocations fail, the bytes of the tables and the ownership invariant stay in order, as long as the loader maps no page to the null frame |
| MemoryRuns.FramesFromBoot | kernel/src/VM/PMM.c:102-122 | from boot on, while no allocation fails and no page is mapped twice, a frame is used exactly if it was used at boot, is one table, or is mapped at exactly one low-half page of one space |
| HotFormat.Convert | tools/elf2hot/src/main.rs:43-97 | the output, or nothing exactly when a segment's bytes are outside the file, has the entry of the ELF file and one segment for each PT_LOAD header, in file order: strictly increasing header indices reach all of these headers and no others, and each segment carries the addresses, sizes, kind and bytes of its header |
| HotFormat.LoadsArePicked | tools/elf2hot/src/main.rs:50-52 | the headers that the filter keeps are those at the increasing indices of the PT_LOAD headers |
| HotFormat.Assembled | tools/elf2hot/src/main.rs:81-93 | header, table and data written one after the other read back as the same entry, segments, offsets and bytes |
| HotFormat.HeaderReads | tools/elf2hot/src/main.rs:73-84 | the written header reads back field by field |
| HotFormat.SegmentReads | tools/elf2hot/src/main.rs:86-89 | a written segment entry reads back field by field |
| HotFormat.FileLayout | tools/elf2hot/src/main.rs:6-27 | the file starts with the letters HOT!, entry and count are the little-endian words at 8 and 16, and entry i is at 32 + 40i with its five words in order |
| HotLoader.PageContents | kernel/src/OS/Exec/HOTLoader.c:32-43 | the page is zero but for the file bytes that overlap it, for any offset of the segment in its first page |
| HotLoader.LoadSegment | kernel/src/OS/Exec/HOTLoader.c:21-45 | each page of the segment that the free frames cover with its tables is a user page with its image, also where an earlier segment had it; nothing else has changed; the tables stay in order exactly if no page of the segment finds all its tables and no frame, else such a page is on frame 0 |
| HotLoader.Load | kernel/src/OS/Exec/HOTLoader.c:14-48 | with frames for its pages and each missing table once, every page of every segment is in memory, as the last segment with that page says; in any case no other low-half page of any space has changed; the tables are in order exactly if no page of the file finds all its tables and no frame, and then the frames and tables left are known, else a page of the file is on frame 0; another magic changes nothing |
| HotLoader.ConvertedIsLoadable | kernel/src/OS/Exec/HOTLoader.c:14-48 | the converter's output for low-half segments, on shared pages or not, is a file the loader accepts |
| HotLoader.PagesOverlap | kernel/src/OS/Exec/HOTLoader.c:23-28 | the loop maps exactly the pages in which the segment has memory |
| HotLoader.LastIsLastOn | tools/elf2hot/src/main.rs:50-69 | the last segment of the converted file with a page belongs to the last PT_LOAD header of the ELF file with memory in it |
| HotLoader.LoadedImageIsElfImage | tools/elf2hot/src/main.rs:55-70 | after converting and loading, each PT_LOAD byte reads as the last PT_LOAD header with memory in its page demands, last by its index in the ELF file (chapter 5, "Program Header", of the System V gABI: file bytes, then zeros up to memsz); that is the header itself when no page is shared; same entry |
| HotLoader.SharedPageIsLost | kernel/src/OS/Exec/HOTLoader.c:29-32 | two one-byte segments on one page: the first one's byte is 7 in the file, and once both are loaded the process reads 0 at its address |
| ProcessSpawn.NewSpace | kernel/src/VM/VMM.c:169-190 | a new space has an empty low half and takes one frame; no low-half page of another space changes |
| ProcessSpawn.Spawn | kernel/src/OS/Exec/OSLoader.c:42-64 | exactly when the frames cover image, stack and tables the new space holds the image, the zeroed stack over it and nothing else, or the stack alone for another magic, and otherwise the kernel panics; every other space keeps all its low-half pages; when a page of the image is on frame 0, the panic follows or the loader refuses the program |
| ProcessSpawn.StartedImageIsElfImage | kernel/src/OS/Exec/OSLoader.c:55-64 | also after the stack is set up, a process started from a converted ELF file reads what the last PT_LOAD header with memory in the page demands, and zeros on the pages of the stack |
| HeapBlocks.AlignedCovers | kernel/src/VM/Heap.c:44 | the rounded size covers the request exactly up to 2^64-16 |
| HeapBlocks.AlignedTooSmall | kernel/src/VM/Heap.c:44 | a request of 2^64-1 bytes rounds to 0 |
| HeapBlocks.CarveKeeps | kernel/src/VM/Heap.c:48-62 | taking a block, split or whole, keeps the list sorted, gapless and without free neighbours |
| HeapBlocks.ReleaseKeeps | kernel/src/VM/Heap.c:70-79 | freeing with its two coalescing steps keeps the list sorted, gapless and without free neighbours |
| HeapBlocks.GrowNeighbours | kernel/src/VM/Heap.c:116-121 | growing into a free neighbour leaves no two free neighbours |
| HeapBlocks.CarveAddsOne | kernel/src/VM/Heap.c:48-63 | allocation adds one live block, large enough, disjoint from all live ones |
| HeapBlocks.CarveAddsBlock | kernel/src/VM/Heap.c:48-63 | of the free block found, the new live one has the rounded size and the rest behind it is a free block whenever more than a header and 16 bytes would be left; otherwise it is the whole block, so it never exceeds the rounded size by more than that |
| HeapBlocks.ReleaseRemovesOne | kernel/src/VM/Heap.c:70-79 | freeing removes exactly that live block |
| HeapBlocks.GrowChangesOne | kernel/src/VM/Heap.c:116-121 | growing in place enlarges exactly that live block |
| HeapBlocks.AllocateThenFree | kernel/src/VM/Heap.c:42-79 | allocating and freeing at once restores the very block list |
| HeapBlocks.FreeAllInAnyOrder | kernel/src/VM/Heap.c:70-79 | freeing all live blocks, in any order, yields the single initial block |
| HeapBlocks.FailsOnlyWithoutRoom | kernel/src/VM/Heap.c:46-67 | allocation fails exactly when every run of free bytes is too short for a header and the rounded size |
| HeapBlocks.KeepsAlignment | kernel/src/VM/Heap.c:44-60 | headers and payloads stay 8-aligned |
| HeapHeaders.HoldsReplaced | kernel/src/VM/Heap.c:50-60 | headers rewritten for a replaced stretch of blocks, and only those, hold the new list |
| HeapHeaders.SetWord | kernel/src/VM/Heap.c:50-60 | writing one field changes that field of that header alone |
| BlockHeap.BlockHeap.Region | kernel/src/VM/Heap.c:34-39 | the region is one free block |
| BlockHeap.BlockHeap.CombineForward | kernel/src/VM/Heap.c:16-21 | the header writes merge the block with a free successor, or do nothing |
| BlockHeap.BlockHeap.Take | kernel/src/VM/Heap.c:49-62 | the header writes carve the chosen block, with the rest split off as `HeapBlocks.CarveAddsBlock` says, and keep every live payload |
| BlockHeap.BlockHeap.AllocateInternal | kernel/src/VM/Heap.c:42-68 | first fit: null and nothing changed exactly for an empty request or without a block that fits; otherwise just one live block is new, on the first free block that fits, of the rounded size when more than a header and 16 bytes would be left, with the rest free behind it, and of the whole block when not; live payloads keep their bytes |
| BlockHeap.BlockHeap.FreeInternal | kernel/src/VM/Heap.c:70-79 | releases that block and coalesces both sides, other live payloads keep their bytes; null, a block freed before and an address without the magic change nothing |
| BlockHeap.BlockHeap.Resize | kernel/src/VM/Heap.c:100-131 | the contents survive: in place when the block is large enough, grown by the whole of a free block behind it when both together are, else copied to a new block larger than the rounded size by at most a header and 16 bytes; null exactly when there is none, and then nothing has changed; other payloads keep their bytes |
| BlockHeap.ResizedIs | kernel/src/VM/Heap.c:100-131 | a resize replaces one live block and no other, in these three ways, and fails only in the last of them |
| BlockHeap.MovedLive | kernel/src/VM/Heap.c:123-127 | through allocation, copy and free every other live block keeps its bytes |
| HeapRuns.RunGood | kernel/src/VM/Heap.c:23-131 | after any legal calls the list tiles the region, 8-aligned, with no two free neighbours |
| HeapRuns.KernelHeapRuns | kernel/src/VM/Heap.c:23-131 | the same for the kernel's 4 MiB, and freeing what is live then leads back to the initial block |
| HeapRuns.ServeKeepsLive | kernel/src/VM/Heap.c:42-131 | a call takes no block out of the live ones but the one it is about |
| HeapRuns.Perform | kernel/src/VM/Heap.c:42-131 | any call, or a store by the owner of a payload, done on the bytes changes the list as specified, an allocation by one block that wastes at most a header and 16 bytes, and every other live block is still live with its bytes |
| HeapRuns.PerformAll | kernel/src/VM/Heap.c:42-131 | any legal list of calls and stores leads to the list of the run, and every live block that none of them is about is still live with the bytes it had |
| UserHeap.GrownBlockFits | userspace/libterm/src/Memory.c:46-54 | the grown block holds the request exactly up to 2^64-48 bytes, with less than a page more than the rounded size; where even the page rounding wraps nothing is made |
| UserHeap.RequestFits | userspace/libterm/src/Memory.c:20-46 | up to 2^64-48, and only there, neither the rounding nor the header wraps |
| UserHeap.GrownBlockTooSmall | userspace/libterm/src/Memory.c:46-54 | 2^64-1 rounds to 0 and 2^64-40 to 2^64-32, and both ask for a single page |
| UserHeap.ServiceMemory | kernel/src/OS/Services/OSServiceMemory.c:17-29 | the heap's memory grows by the pages that could be granted; the address is given only when that is all of them |
| UserMemory.GrantedUpTo | kernel/src/OS/Services/OSServiceMemory.c:19-29 | `SYS_MEM` grants a request exactly if it asks for no more pages than a number that the free frames and the tables of the space determine |
| UserMemory.GrantsAfter | kernel/src/OS/Services/OSServiceMemory.c:19-26 | after a call that added `n` pages that number is smaller by `n` |
| UserMemory.ServiceMemory | kernel/src/OS/Services/OSServiceMemory.c:12-30 | carried out in the address space, `SYS_MEM` adds as many pages, returns the same address and leaves as many to add as the allocator's `UserHeap.ServiceMemory` says |
| UserMemory.GrowthIsBacked | kernel/src/OS/Services/OSServiceMemory.c:20-26 | the allocator's bytes, longer by the zeroed pages, are in the process's memory if the frames reached for the tables of the last page, and where that page was not mapped before only then; all bytes but those of that page are there in any case |
| UserHeap.MemoryAllocate | userspace/libterm/src/Memory.c:18-67 | null exactly for an empty request, or when no free block is large enough and the pages of a new one cannot all be granted; otherwise just one live block is new, on the first fit or on a grown block at the end, even behind a gap left by a failed growth, of the rounded size when more than a header and 16 bytes would be left; the recursion is at most one level deep; live payloads keep their bytes |
| UserHeap.AllocationAdds | userspace/libterm/src/Memory.c:18-67 | the allocation on the list: it fails exactly without room and without pages, and otherwise adds one block that wastes at most a header and 16 bytes |
| UserHeap.FirstAllocation | userspace/libterm/src/Memory.c:18-67 | the first call of a process succeeds exactly if all pages of the block are granted, and returns the start of them |
| UserHeap.AppendedFits | userspace/libterm/src/Memory.c:50-66 | after growing, the new last block is the first that fits |
| UserHeap.TakingLastSeparates | userspace/libterm/src/Memory.c:60-66 | taking the grown block leaves no two free neighbours |
| UserResize.MemoryReallocate | userspace/libterm/src/Memory.c:80-104 | the contents survive in place, by growth into a free block behind it or by copy to a block that exceeds the rounded size by at most a header and 16 bytes, also through heap growth; on failure the list is as it was; other payloads keep their bytes |
| UserResize.OthersKept | userspace/libterm/src/Memory.c:97-101 | through allocation, growth, copy and free every other live block keeps its bytes |
| UserRuns.NextKeepsLive | userspace/libterm/src/Memory.c:18-104 | a call of the user library takes no block out of the live ones but the one it is about, whether the heap grows or not |
| UserRuns.Perform | userspace/libterm/src/Memory.c:18-104 | any call, or a store by the owner of a payload, done on the bytes changes list, end and grants as specified, an allocation by one block that wastes at most a header and 16 bytes, and every other live block is still live with its bytes |
| UserRuns.PerformAll | userspace/libterm/src/Memory.c:18-104 | any allowed list of calls and stores leads to the heap of the run, and every live block that none of them is about is still live with the bytes it had, however often the heap grew or could not grow |
| SchedulerRing.PanicsWithoutTasks | kernel/src/OS/OSScheduler.c:169-179 | Next panics exactly when the running task may not go on and no other may run after the tick; a lone task may go on when it runs or sleeps for at most two ticks |
| SchedulerRing.RunningTaskMeansNoPanic | kernel/src/OS/OSScheduler.c:169-179 | one task marked running rules the panic out |
| SchedulerRing.SleepersPanic | kernel/src/OS/OSScheduler.c:169-179 | a blocked running task and a sleeper with ticks left: the panic |
| SchedulerRing.RunNeverPanics | kernel/src/OS/OSScheduler.c:169-179 | with an idle task that only idles no timer interrupt of any run panics, and no cut of the collector takes it out |
| SchedulerRing.NextApproaches | kernel/src/OS/OSScheduler.c:154-188 | a waiting runnable task is dispatched or comes strictly closer and stays runnable |
| SchedulerRing.NoStarvation | kernel/src/OS/OSScheduler.c:146-188 | a runnable task is dispatched within its ring distance plus the spawns in between, whatever else happens, unless it came between the two tasks that the collector remembers |
| SchedulerRing.SleeperIsDispatched | kernel/src/OS/OSScheduler.c:162-172 | a task asleep for k ticks is dispatched within k interrupts and one turn of the ring, plus the spawns in between, under the same condition |
| SchedulerRing.CollectsOneWithoutSpawn | kernel/src/OS/OSScheduler.c:34-42 | from the collector's look to its cut, whatever happens in between, the dead task alone leaves the ring exactly if the task before it has not spawned |
| SchedulerRing.CutRemoves | kernel/src/OS/OSScheduler.c:42 | the cut takes out the dead task and all that came between it and the remembered one, never the collector |
| SchedulerRing.ExposedIsLost | kernel/src/OS/OSScheduler.c:42 | every task between the remembered ones is out of the ring after the cut |
| SchedulerRing.SpawnedTaskIsLost | kernel/src/OS/OSScheduler.c:34-42 | a task spawned between look and cut runs once and is never dispatched again |
| SchedulerRing.YieldLosesTwoTicks | kernel/src/OS/OSScheduler.c:160-167 | a task that yields for n ticks has lost two of them when another runs, so it has n - 1 left exactly for n up to 1; counts are cut to 32 bits |
| SchedulerRing.RunKeepsSaved | kernel/src/OS/OSScheduler.c:154-188 | over any run each task's saved stack pointer is the one it gave at its last preemption, or its initial frame, and its page table, the top of its kernel stack and its process are those it was spawned with |
| SchedulerRing.DispatchedIsRunning | kernel/src/OS/OSScheduler.c:169-184 | the task to which Next gives the processor is marked running |
| SchedulerRing.TerminateWakesWaiters | kernel/src/OS/OSScheduler.c:196-220 | nobody is left blocked on the dying process; a task other than it and the collector changes only by waking |
| SchedulerRing.WaitsForProcess | kernel/src/OS/Services/OSServiceProcess.c:29-32 | a task that waits for process `pid` is blocked, and is not dispatched in any run in which no task of that process terminates and no wakeup of it comes; with the first that does it runs; the termination of a task of another process leaves it blocked |
| SchedulerRing.WaitIsOver | kernel/src/OS/OSScheduler.c:190-220 | once a task of that process has terminated, the waiting one is dispatched within its ring distance plus the spawns in between |
| SchedulerRing.Int32Apart | kernel/src/OS/OSScheduler.c:192-202 | two process ids are the same to the signed 32-bit comparison exactly when they are equal modulo 2^32, so when they are equal if both are below 2^32 |
| SchedulerRing.UnlinkKeepsAlive | kernel/src/OS/OSScheduler.c:42-55 | removing one dead task does not change what the sweep leaves |
| SchedulerRing.AliveIsAlive | kernel/src/OS/OSScheduler.c:37-56 | the sweep leaves exactly the tasks that are not dead |
| Scheduler.Scheduler.Next | kernel/src/OS/OSScheduler.c:154-188 | relinks nothing, turns the ring to the chosen task, returns its saved stack pointer; CR3 is its process's PML4, rsp0 its kernel stack top |
| Scheduler.PickCircle | kernel/src/OS/OSScheduler.c:169-179 | the search finds the first runnable task behind the running one, wakes it alone, and panics exactly when there is none |
| Scheduler.TickCircle | kernel/src/OS/OSScheduler.c:160-167 | every task loses one tick, the running one two |
| Scheduler.Scheduler.Spawn | kernel/src/OS/OSScheduler.c:146-147 | the new task stands right behind the running one, the rest keeps its order |
| Scheduler.Scheduler.Yield | kernel/src/OS/OSScheduler.c:222-226 | the running task sleeps and Next resumes another |
| Scheduler.Scheduler.Block | kernel/src/OS/OSScheduler.c:190-194 | the running task is blocked and Next resumes another; `SchedulerRing.WaitsForProcess` says for how long |
| Scheduler.Scheduler.WakeupAll | kernel/src/OS/OSScheduler.c:196-210 | exactly the tasks blocked on that process run again |
| Scheduler.Scheduler.Terminate | kernel/src/OS/OSScheduler.c:213-220 | the task dies, its waiters and the collector, if there is one, run again, Next resumes another |
| Scheduler.Scheduler.Sweep | kernel/src/OS/OSScheduler.c:30-57 | one circular list of the tasks that are not dead, in their old order; freed are exactly the nodes and kernel stacks of the dead tasks, none of them twice |
| Scheduler.FreesTheirBlocks | kernel/src/OS/OSScheduler.c:47-50 | the addresses freed for a list of dead tasks are their nodes and their stacks, where they have one, and all different if the blocks are |
| LockDiscipline.RunNeverSpins | kernel/src/OS/OSSpinlock.c:6-29 | in every interleaving a held lock means that interrupts are off, and no exchange finds its lock taken |
| LockDiscipline.NothingSpinsAfterBoot | kernel/src/OS/OSSpinlock.c:6-29 | the same for every run from boot |
| LockDiscipline.UnlockRestoresFlag | kernel/src/OS/OSSpinlock.c:18-29 | a pair of LockIRQ and UnlockIRQ, however nested and interrupted, ends with the flag and the locks it started with |
| LockDiscipline.StepKeepsInv | kernel/src/OS/OSSpinlock.c:6-29 | every instruction, interrupt and task switch keeps the lock discipline |
| Keyboard.FirstInFirstOut | kernel/src/IO/IOKeyboard.c:94-141 | what is delivered and what still waits is what waited and what was accepted, in order; never more than 255 wait |
| Keyboard.ShiftIsTracked | kernel/src/IO/IOKeyboard.c:100-117 | the shift state is that of the last left-shift code, however full the ring is |
| Keyboard.TablesAreKeyboard | kernel/src/IO/IOKeyboard.c:12-87 | the two tables hold for every code the character on its key, without and with shift, and none for exactly the other codes |
| Keyboard.RingPush | kernel/src/IO/IOKeyboard.c:96-105 | the ring takes a character exactly when fewer than 255 wait, at the end of the queue |
| Keyboard.RingPop | kernel/src/IO/IOKeyboard.c:129-131 | the ring is empty exactly when head meets tail, else its first character leaves |
| Keyboard.Controller.HandleInterrupt | kernel/src/IO/IOKeyboard.c:94-120 | one scancode: with fewer than 255 characters waiting, the character on its key (digits, the three rows of letters and the rest, with and without shift) is queued; a code without a character, or a full ring, queues nothing; the left shift key goes down and up |
| Keyboard.Controller.TryGetCharacter | kernel/src/IO/IOKeyboard.c:126-140 | the first waiting character, or none with interrupts enabled before the wait |
| Keyboard.Spinlock.LockIRQ | kernel/src/OS/OSSpinlock.c:18-24 | takes the lock with interrupts off and saves the flag |
| Keyboard.Spinlock.UnlockIRQ | kernel/src/OS/OSSpinlock.c:26-29 | releases the lock and enables interrupts if they were |
| QuickSort.QSort | bootloader/src/uefi/qsort.c:79-154 | the array ends sorted, with the elements it had, for every length and every total preorder |
| QuickSort.SortRange | bootloader/src/uefi/qsort.c:84-154 | recursion on the left part and the jump back to `loop` for the right part terminate and sort the range |
| QuickSort.SplitRange | bootloader/src/uefi/qsort.c:93-144 | one turn either sorts the range or splits it into smaller, equal and larger elements |
| QuickSort.Partition | bootloader/src/uefi/qsort.c:109-132 | equal elements are parked at both ends, smaller and larger ones between; without a swap the array is untouched |
| QuickSort.MovedIsSplit | bootloader/src/uefi/qsort.c:140-144 | the two vecswaps bring the parked elements to the middle |
| QuickSort.VecSwappedAt | bootloader/src/uefi/qsort.c:43-70 | the vector swap exchanges the two stretches element by element |
| QuickSort.Med3IsMedian | bootloader/src/uefi/qsort.c:71-77 | the result lies between the other two |
| QuickSort.InsertionSort | bootloader/src/uefi/qsort.c:133-139 | the fallback sorts the range |
| Calendar.MkTime | bootloader/src/uefi/time.c:109-135 | the seconds since the epoch by counting days, negative before 1970, which is the formula of section 4.16 of POSIX.1-2017; months from 12 on count into the next years |
| Calendar.YearToSecs | bootloader/src/uefi/time.c:37-83 | short path and 400-year cycles both give the days before the year, and the leap year rule |
| Calendar.SecondsArePosix | bootloader/src/uefi/time.c:109-135 | counting days agrees with the POSIX formula, for every year from 1900 |
| Calendar.LaterIsLarger | bootloader/src/uefi/time.c:109-135 | a date is earlier than another exactly when its seconds are fewer |
| Calendar.SecondsFit | bootloader/src/uefi/time.c:109-135 | every date's seconds fit a signed 64-bit time |
| Calendar.EfiSecondsAreRight | bootloader/src/uefi/time.c:85-95 | the firmware's date gets its own seconds exactly after the year 2000 |
| Calendar.Year2000IsWrong | bootloader/src/uefi/time.c:87 | New Year's Day of 2000 is taken for that of 3998 |
| Calendar.Clock.FromEfi | bootloader/src/uefi/time.c:85-95 | the time kept and returned is that of the converted date |
| Archive.ArchiveIsRead | kernel/src/FS/CPIO.c:72-119 | any archive of newc records, ended by a trailer or by its size, is read as its entries in order: name, inode, mode, data |
| Archive.RecordIsRecord | kernel/src/FS/CPIO.c:14-29 | every entry whose numbers fit 32 bits has a record, with hexadecimal digits of either case, so the format covers it |
| Archive.HexadecimalToInt | kernel/src/FS/CPIO.c:38-48 | the loop computes the value of the hexadecimal field |
| Archive.HexRoundTrip | kernel/src/FS/CPIO.c:38-48 | digits written for a number, in capitals or not, read back as that number |
| Archive.DirectoryMask | kernel/src/FS/CPIO.c:101-110 | the masked mode is 0x4000 exactly when the file type in its bits 12 to 15 is that of a directory |
| FileSystem.Mount | kernel/src/FS/CPIO.c:58-122 | the root's list holds one node per entry, in order, with name, inode, length, directory flag and data; panics exactly on a bad magic |
| FileSystem.FileSystem.OpenPath | kernel/src/FS/VFS.c:21-47 | the root for "/"; for "/" followed by a name the first node of that name, for another nonempty path the first node of that very name, and null if there is none |
| FileSystem.ReadIsClipped | kernel/src/FS/CPIO.c:50-56 | a read is clipped to the file exactly when it starts behind it or its end does not wrap |
| FileSystem.WrappedReadIsNotClipped | kernel/src/FS/CPIO.c:50-56 | 2^64-1 bytes asked for from offset 1 of a ten-byte file are not clipped |
| FileSystem.Read | kernel/src/FS/CPIO.c:50-56 | the clipped slice of the entry's data is at the start of the buffer, the rest of the buffer is untouched |
| Tokenizer.RunsAreMaximal | userspace/libterm/src/String.c:81-126 | the tokens are exactly the maximal stretches without delimiters, in order, each once |
| Tokenizer.TwoWords | userspace/termosh/src/modules/parser.c:8-49 | two words with one blank, tab, carriage return or line feed between them are the two tokens of the line |
| Tokenizer.Tokens.Tokenize | userspace/libterm/src/String.c:108-126 | the next token's start, its end overwritten by a NUL; the remembered position stays inside the buffer |
| Tokenizer.Tokens.TokenizeLine | userspace/termosh/src/modules/parser.c:38-49 | as many tokens as there are, up to the limit, each left in the buffer as a C string |

## Left out

- TLB contents, `invlpg` and the 2 MiB boot tables; the offset between a physical address and its direct-map address is taken as exact.
- The locks inside the frame allocator, the table editor and the heap: their sections are modelled as single steps, which is what `LockDiscipline` justifies on one processor.
- Page-table flags other than present, writable and user: the callers pass no others.
- AddressSpaces.AddressSpaces.MapPage: page-aligned frames, the three flags, and tables whose walk stays in memory, which `RawTables.MapIsRaw` and `SpareFrames.NullLoadStands` establish for the callers.
- HotLoader.Load: asks for data inside the file and for low-half segments.
- HotLoader.LoadSegment: asks for the same.
- HotFormat.Convert: parsing the ELF headers is the goblin crate's work, so the model starts from the parsed headers, of which ELF's 16-bit count allows fewer than 65536, and from a file below 2^44 bytes; the writes go to a value instead of a file.
- ProcessSpawn.Spawn: looking up and copying the file, the process record and the scheduler's task; a frame for the root, whose null the code does not check.
- MemoryServices.ServiceMemoryAllocate: the pages that frames allow are assumed to end below the low half's end, where the code would go on into the kernel half; what happens at the stack is in `MemoryServices.GrowthKeepsStack`.
- KernelMap.Initialize: the three ranges are assumed not to meet, and a frame to be free for the root table, whose null the code does not check; the pages of the kernel heap, mapped by the same loop form, are not mapped again here.
- BlockHeap.BlockHeap.FreeInternal: addresses of headers inside absorbed blocks, which keep their magic after the block is gone.
- BlockHeap.BlockHeap.Resize: live payloads and sizes up to 2^64-16, because `size + 15` wraps above.
- UserHeap.MemoryAllocate: sizes up to 2^64-48; `UserHeap.GrownBlockFits` says what happens above.
- UserResize.MemoryReallocate: the same sizes, and live payloads.
- UserHeap.ServiceMemory: a last page whose tables find no frame is granted and left unmapped; here every granted page is usable, and `UserMemory.GrowthIsBacked` says when it is.
- MemoryFree of the user library is the kernel's free with another magic, so `BlockHeap.BlockHeap.FreeInternal` stands for both.
- UserRuns.PerformAll: nothing else takes frames between the calls of the run; the grants it starts from are those of `UserMemory.GrantedUpTo`.
- MemoryRuns.RunIsolates: `SYS_READ` stores typed bytes through an unchecked user pointer, also into the direct map; the runs, those of `Isolation.RunIsolates` too, have no such step.
- MemoryRuns.Perform: no step takes a frame for the kernel half, so the frames of the kernel heap count as used at boot.
- Scheduler.Scheduler.Spawn: the allocation of the task and its stack, the retry after a failed one, and the initial interrupt frame are not modelled; the node arrives filled in.
- Scheduler.Scheduler.Sweep: one sweep without a spawn in between; the collector reads the ring outside its lock, and `SchedulerRing.CollectsOneWithoutSpawn` says what a spawn in between does.
- Scheduler.Scheduler.Block: nothing says that the process waited for exists, so a wait may last for ever.
- Keyboard.Spinlock.LockIRQ: the spin loop itself is absent, since `LockDiscipline.RunNeverSpins` shows that it never turns.
- CPU exceptions, the panic path and the boot code run outside the lock model.
- QuickSort.QSort: the `int` variables for byte offsets, which overflow at 2 GiB, and the choice between copying longs and chars.
- Calendar.MkTime: years before 1902, where `year-2ULL` wraps, negative months, whose cast to unsigned makes the year wrong, and negative days or times of day.
- Calendar.YearToSecs: the same years, and the 64-bit wrap of the unsigned result, which `mktime` casts back.
- FileSystem.Mount: allocation failures (a panic), and archives whose records reach behind their end.
- FileSystem.Read: reads whose end wraps, which copy from behind the archive; `FileSystem.ReadIsClipped` says which they are.
- Write, open and close operations of a node, nested directories and mount points: the archive has none.
- Graphics, console, shells, serial and timer devices, system-call entry, firmware wrappers, string and formatting helpers.
