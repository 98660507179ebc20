# Eris kernel: verified models

Eris is an x86_64 kernel written in C++. This project models the parts of it
that hold invariants over unbounded runs and proves those invariants in Dafny:

- **Memory.** The frame bitmap, the 4-level page tables with 2 MiB splitting
  (Intel SDM Vol. 3A, sections 4.5 and 4.6), the address spaces of processes,
  the vmalloc range list, device windows and the kernel heap.
- **Scheduling.** The interrupt-safe locks, N CPUs handing the scheduler lock
  from thread to thread across context switches, and the queues down to the one
  link field they share.
- **Modules and processes.** Recursive loading with reference counts, section
  placement and relocation (System V AMD64 psABI, section 4.4.1), and building
  a process from an executable (ELF gABI, chapter 5).
- **Readers.** Byte reads from a block device, ext2 files, and the ustar walk
  ("ustar Interchange Format", pax utility, IEEE Std 1003.1).

Code that updates state in place is a class or a method with loops, proved
against a function of the old state; the properties are proved about those
functions, for single calls, for every sequence of calls, and, for locks and
scheduling, for every interleaving of N CPUs.

`dafny verify dfyconfig.toml` checks the whole project.

## How the files hang together

| files | what they hold |
|---|---|
| FrameBits, PageAlloc | the bitmap as a sequence of bits and runs over it; the allocator over its bytes |
| Basics | the types that several parts share |
| PageWalk, PageUser, PageOpen, PteBits | the processor's walk, the forest of tables as an invariant, what ring 3 may use and how every store changes it, the words in memory |
| PageTables, PagingInit, AddressSpaces | map, unmap, protect, translate in place; the first tables; runs over kernel and process spaces |
| Vmalloc, Devices | the free ranges of virtual space; device windows over ranges and page tables |
| HeapModel, Heap, HeapRuns, KernelPages | the block list as a value; the linked headers in memory; whole runs; frames behind kernel addresses |
| IrqLocks | IrqSpinLock and RecursiveIrqLock, one load or store at a time |
| SchedModel, SchedPlaced, SchedSystem, SchedOrder, SchedChoice, SchedProgress | critical sections as functions; everyone in one place; all interleavings; order and time; who is chosen, where everyone else goes, and that nobody is passed over; no state is a dead end |
| SchedMemory, SchedLists, SchedWake | the link field, the list operations over it, and waking a blocked thread |
| ModuleModel, ModuleTable | the module table as a value; loading, unloading, registering |
| Relocation, Loader, LoaderObject, LoaderProtect, LoaderMemory | relocation arithmetic; placing and relocating an image; what that makes of an object file; the rights of its pages; its memory from reservation to release |
| ProcessModel, ProcessLoad | what a process sees of its branch; building it |
| Ext2, Initrd | file reads over a device that may fail; archives |

## Where the code does not do what one might expect

Each of these is stated as the exact condition under which the code does meet
the property.

- `free_pages` checks nothing: an unmatched call is harmless exactly when its
  frames belong to nobody (`FrameBits.ReleaseSoundIff`, `FrameBits.StaleFreeExample`).
- `table_for` sets the user bit on a 2 MiB entry before splitting it; the split
  copies it into all 512 small entries, and the new table entry does not carry it.
  So after a call for ring 3 a page of a 2 MiB page it reached is open exactly when
  two pages of the call lay in that one, whether the page was asked for or not: one
  page alone stays shut until another call comes to the region, two neighbours open
  the 510 pages around them as well. A split that runs out of memory leaves the
  2 MiB page open
  (`PageTables.PageTables.Map`, `PageOpen.OpenedIff`, `PagingInit.SplitExample`).
  A call that is not for ring 3 opens nothing (`PageOpen.ShutIff`). There are
  2 MiB pages only in the kernel's first gigabyte (`PageOpen.NoHuge`), so ring 3
  gets exactly what was asked for in a process (`PageOpen.RightsAreSmall`,
  `AddressSpaces.EveryRunReplays`).
- `Thread::wake` on a blocked thread queues it without taking it from its wait
  queue, and everyone waiting behind it is lost
  (`SchedWake.WakeKeepsApartIffNotBlocked`, `SchedWake.BlockedWakeExample`).
- A module slot is reused with the counters it was left with: the table stays
  sound exactly when both are zero (`ModuleTable.Modules.Register`), which after
  an unload depends on the module in the last slot (`ModuleTable.Modules.Replace`,
  `ModuleTable.StaleCounterHistory`).
- `initrd_find` reads the name as a C string, which runs on into the mode when the
  name fills its field: a file is found under its own name exactly when that is
  shorter than 100 bytes (`Initrd.FoundByNameIff`, `Initrd.LongNameExample`).
- `round_up` wraps: a reservation holds what was asked for exactly up to
  2^64 - 8192 bytes (`Vmalloc.ReservationFits`, `Vmalloc.ReservationWrapsExample`).
- `unmap_device` rounds the length without the offset: a window is taken down
  completely, and every page given back, exactly when both roundings agree
  (`Devices.RoundTrip`, `Devices.SpansAgree`, `Devices.SpansDifferExample`).
- A device or image that could be mapped only in part leaves the pages it reached
  mapped in a range that is free again: exactly the pages before the one that
  found no frame (`Devices.MapWindow`, `LoaderMemory.AllocateImage`).
- `vmalloc_release` checks nothing: ranges stay apart exactly when none of the
  pages was free (`Vmalloc.GiveWellFormed`, `Vmalloc.ReleaseFreeExample`).
- A deadline is as far away as asked for exactly when the 64-bit sum does not
  wrap (`SchedOrder.DeadlineIsLateEnough`, `SchedOrder.DeadlineWrapsExample`).
- R_X86_64_32 is range-checked as a signed value: what the ABI asks is met
  exactly when the value is not from 2^31 up to 2^32, where it is refused though
  it fits, and not negative from -2^31, where it is accepted though it does not
  (`Relocation.Abs32ZeroExtends`, `Relocation.Abs32RefusedExample`,
  `Relocation.Abs32NegativeExample`).

## Model

| member | source | states |
|---|---|---|
| FrameBits.CountUpdate | kernel/mm/page_alloc.cpp:29-45 | changing one bit changes the number of used frames by exactly that bit |
| FrameBits.UsedBlocksRun | kernel/mm/page_alloc.cpp:138-157 | a used frame rules out every run that covers it, so the scan may skip past it |
| FrameBits.NextKeepsSound | kernel/mm/page_alloc.cpp:134-177 | each call keeps live allocations disjoint, used and clear of reserved frames, if and only if it is not an unmatched free of somebody's frames; address zero means failure exactly |
| FrameBits.RunKeepsSound | kernel/mm/page_alloc.cpp:134-177 | so does every run, up to the first such call, which breaks it |
| FrameBits.NextKeepsExact | kernel/mm/page_alloc.cpp:134-177 | and keeps the frames used exactly those that are reserved or in a live allocation |
| FrameBits.RunLosesNothing | kernel/mm/page_alloc.cpp:134-177 | so in every such run no frame is lost: when the live allocations are those of the beginning, so is the bitmap, bit for bit |
| FrameBits.ReleaseSoundIff | kernel/mm/page_alloc.cpp:166-177 | an unmatched free is harmless if and only if none of its frames is reserved or in a live allocation |
| FrameBits.StaleFreeExample | kernel/mm/page_alloc.cpp:134-177 | with the first MiB reserved and nothing else in use: allocate, free, allocate, free again, and the second owner's frame is up for allocation |
| PageAlloc.SetOneBit | kernel/mm/page_alloc.cpp:29-32 | the byte-level set changes one bit of the map |
| PageAlloc.ClearOneBit | kernel/mm/page_alloc.cpp:34-37 | the byte-level clear changes one bit of the map |
| PageAlloc.TouchesIsOverlap | kernel/mm/page_alloc.cpp:47-53 | rounding outward marks exactly the frames a byte range overlaps, and none when the 64-bit sum wraps |
| PageAlloc.FrameAllocator.constructor | kernel/mm/page_alloc.cpp:20-22 | a new map has no frame marked and counts none |
| PageAlloc.FrameAllocator.TestBit | kernel/mm/page_alloc.cpp:24-27 | the byte and shift give the bit of the frame |
| PageAlloc.FrameAllocator.SetBit | kernel/mm/page_alloc.cpp:39-45 | with the count beside it: one more frame is used and nothing else changes |
| PageAlloc.FrameAllocator.ClearBit | kernel/mm/page_alloc.cpp:59-64 | with the count beside it: one frame is free and nothing else changes |
| PageAlloc.FrameAllocator.MarkUsed | kernel/mm/page_alloc.cpp:39-45 | marks a frame once and keeps `used_pages` equal to the number of set bits, also for a frame already used or outside |
| PageAlloc.FrameAllocator.MarkRangeUsed | kernel/mm/page_alloc.cpp:47-53 | every frame the byte range touches, with the 64-bit rounding, is used, no other changes |
| PageAlloc.FrameAllocator.ReleaseRange | kernel/mm/page_alloc.cpp:55-65 | a range of frames is free, the count drops by those that were used, however often they were freed before |
| PageAlloc.FrameAllocator.MarkRangeFree | kernel/mm/page_alloc.cpp:55-65 | frames wholly inside the byte range are free, no other changes |
| PageAlloc.FrameAllocator.FreePages | kernel/mm/page_alloc.cpp:166-177 | exactly these frames, up to the 64-bit sum, are free afterwards and `used_pages` still counts the set bits |
| PageAlloc.FrameAllocator.AllocPages | kernel/mm/page_alloc.cpp:134-159 | the lowest run of free frames, or failure exactly when there is none; only that run changes |
| PageAlloc.FrameAllocator.MarkRun | kernel/mm/page_alloc.cpp:153-154 | the run that was found is used, no other frame changes |
| PageAlloc.FrameAllocator.Init | kernel/mm/page_alloc.cpp:98-127 | a frame is free afterwards if and only if it lies wholly inside one available map entry and touches no reserved byte range |
| PageAlloc.FrameAllocator.FillAllUsed | kernel/mm/page_alloc.cpp:98-108 | every frame starts out used |
| PageAlloc.FrameAllocator.OpenEntry | kernel/mm/page_alloc.cpp:109-120 | an available entry opens exactly the frames wholly inside it, with the 64-bit end of the entry |
| PageAlloc.PageAllocInit | kernel/mm/page_alloc.cpp:98-127 | with the ranges it always closes, the first ledger is sound; and exact, counting every frame used at the start as reserved |
| PageAlloc.Allocate | kernel/mm/page_alloc.cpp:134-159 | alloc_pages is a step of the runs above, and keeps the ledger sound |
| PageAlloc.Free | kernel/mm/page_alloc.cpp:166-177 | free_pages is a step of the runs above: the return of a live allocation, or an unmatched free, with the exact condition |
| PageWalk.Index | kernel/mm/paging.cpp:82-85 | nine bits of the page number per level |
| PageWalk.MaskKeeps | kernel/mm/paging.cpp:35 | the address mask keeps bits 12 to 51: an address below 2^52 rounded down to its page, any other modulo 2^52 |
| PageWalk.OneParentSlot | kernel/mm/paging.cpp:137-171 | the tables form a forest: a table is referenced from one slot only, or is the branch all top-level tables share at slot zero |
| PageWalk.WalkFrame | kernel/mm/paging.cpp:137-254 | a walk that does not pass through a changed table gives the same mapping |
| PageWalk.SlotChange | kernel/mm/paging.cpp:137-171 | a slot that answers as before changes no mapping of any page in any space |
| PageWalk.LinkTable | kernel/mm/paging.cpp:137-171 | linking a zeroed table into an absent slot keeps the forest and every mapping |
| PageWalk.MarkUser | kernel/mm/paging.cpp:137-171 | setting the user bit on the way keeps every translation, write and execute right |
| PageWalk.SplitHuge | kernel/mm/paging.cpp:117-135 | splitting a 2 MiB page preserves the meaning of all 512 pages in it, a huge entry being found at level 1 only |
| PageWalk.WriteLeaf | kernel/mm/paging.cpp:173-232 | writing a last-level entry sets that page, in the spaces that see it, and no other page anywhere |
| PageWalk.LowPagesShared | kernel/proc/process.cpp:99-112 | every space looks up addresses below 2^39 exactly as the kernel does |
| PageUser.UserFromTable | kernel/mm/paging.cpp:137-171 | ring 3 may use a page exactly when every entry on its path allows it |
| PageUser.KernelPagesClosed | kernel/mm/paging.cpp:281-307 | with the shared top-level entry closed, ring 3 reaches no page below 2^39 from any space |
| PageOpen.GateDecides | kernel/mm/paging.cpp:137-171 | of the entries on a path two decide what ring 3 may use: the page's own and the page directory's |
| PageOpen.LinkGates | kernel/mm/paging.cpp:144-153 | a new table changes those two entries of no page of any space, and keeps open entries under open entries |
| PageOpen.MarkGates | kernel/mm/paging.cpp:157-158 | marking an entry of a page directory opens it for exactly the 512 pages under it, and marking one further up changes no page's two entries |
| PageOpen.SplitGates | kernel/mm/paging.cpp:117-135 | a split gives all 512 small entries the mark of the large one and leaves the new directory entry shut; no other page changes |
| PageOpen.StoreGates | kernel/mm/paging.cpp:185 | storing a last-level entry changes that page only, in the spaces that see it |
| PageOpen.GatesOneMore | kernel/mm/paging.cpp:180-187 | one more page's turn, and what all pages of all spaces have after it: the range as asked; of a 2 MiB page touched once, 512 small pages shut together; touched twice for ring 3, open together |
| PageOpen.GatesStopped | kernel/mm/paging.cpp:180-187 | and what a turn that failed leaves behind |
| PageOpen.OpenedIff | kernel/mm/paging.cpp:180-187 | ring 3 may use a page after an operation for ring 3 if and only if: in a 2 MiB page that was touched, two pages of the range lay in it; in another region that was touched, the page is in the range or its own entry was open; elsewhere, it might before |
| PageOpen.ShutIff | kernel/mm/paging.cpp:180-187 | after an operation that is not for ring 3 a page is open if and only if it was and is neither in the range nor in a 2 MiB page that was split: nothing is opened, and the range is shut |
| PageOpen.RightsAreSmall | kernel/mm/paging.cpp:173-232 | outside the direct map ring 3 may use a page of the range exactly if the operation asked for it, and all other pages as before |
| PageOpen.StoppedRight | kernel/mm/paging.cpp:155-165 | a page that table_for gave up on for ring 3 is open if and only if it lay in a 2 MiB page |
| PageOpen.NoHuge | kernel/mm/paging.cpp:117-171 | 2 MiB pages occur only in the kernel's first gigabyte |
| PteBits.EncodeFields | kernel/mm/paging.cpp:48-64 | the encoded word is present, not huge, has no address and carries exactly the flags |
| PteBits.MapWord | kernel/mm/paging.cpp:173-190 | the word map stores stands for the frame and exactly the flags |
| PteBits.ProtectWord | kernel/mm/paging.cpp:212-232 | the word protect stores keeps the address and takes the new flags |
| PteBits.TableWord | kernel/mm/paging.cpp:137-171 | the word for a new table stands for a present, writable, executable entry |
| PteBits.UserWord | kernel/mm/paging.cpp:137-171 | or-ing the user bit changes nothing else |
| PteBits.SplitWord | kernel/mm/paging.cpp:117-135 | each small word of a split stands for its frame with the huge entry's bits |
| PteBits.DirectWord | kernel/mm/paging.cpp:302-307 | the words of the direct map stand for 2 MiB pages, writable and not executable |
| PteBits.StandsInBits | kernel/mm/paging.cpp:27-35 | which bit of a word is which flag, and which bits are the address, in numbers |
| PageTables.PageTables.constructor | kernel/mm/paging.cpp:281-289 | no table and no space before paging_init |
| PageTables.PageTables.AllocateTable | kernel/mm/paging.cpp:71-80 | a zeroed frame no table and nothing else uses, the only one to become used; failure only when no frame is free, changing nothing |
| PageTables.PageTables.ClaimPage | kernel/mm/page_alloc.cpp:129-132 | a frame for data that is no table and was not taken before |
| PageTables.PageTables.FillSplit | kernel/mm/paging.cpp:117-135 | the loop builds exactly the split table |
| PageTables.PageTables.SplitHugePage | kernel/mm/paging.cpp:117-135 | on success the tables are exactly the old ones with one new table and one changed slot, and no mapping of any page in any space changes; failure only when no frame is free |
| PageTables.PageTables.TableFor | kernel/mm/paging.cpp:137-171 | leads to the last-level table of the page and changes no mapping; it fails at a page that was not mapped or had to be split, for want of a frame if it may build; with the user flag the path is open to ring 3 if and only if nothing had to be split, and after a failure the page is open if and only if it lay in a 2 MiB page; a split for ring 3 leaves all 512 entries of the region open under a shut directory entry, and nothing else changes for ring 3 in any space |
| PageTables.PageTables.Descend | kernel/mm/paging.cpp:141-168 | one level down, with the same conditions for one step |
| PageTables.PageTables.SplitOnPath | kernel/mm/paging.cpp:160-165 | the split on a walk keeps the walk and every mapping; its 512 pages take the mark of the 2 MiB page and are shut at the directory |
| PageTables.PageTables.LinkNewTable | kernel/mm/paging.cpp:144-153 | the missing table is linked; no mapping and nothing that ring 3 may use changes |
| PageTables.PageTables.SetUserBit | kernel/mm/paging.cpp:155-158 | only the user bit of the entry changes, and no mapping; in a page directory it is set for the 512 pages under it |
| PageTables.PageTables.StoreLeaf | kernel/mm/paging.cpp:181-186 | the page gets the new entry and its mark for ring 3, no other page changes |
| PageTables.PageTables.SetPage | kernel/mm/paging.cpp:180-187 | one page is set in the spaces that see it, or no mapping changes and the page was not mapped or lay in a 2 MiB page; in both cases exactly what ring 3 gains and loses, in all spaces |
| PageTables.PageTables.Map | kernel/mm/paging.cpp:173-190 | on success every page of the range leads to frame plus offset with exactly the flags, frames below 2^52 as they are; it fails only without a free frame, at a page that was not mapped or lay in a 2 MiB page; no translation outside the pages done changes in any space; which pages of all spaces ring 3 may use afterwards, one by one; without the user flag none that it could not before, and none of the range; outside the direct map exactly the range as asked |
| PageTables.MappedLeads | kernel/mm/paging.cpp:180-187 | page k of a range mapped to frames that end below 2^52 leads to the first frame's page plus k pages, with the rights the flags name |
| PageTables.PageTables.Unmap | kernel/mm/paging.cpp:192-210 | on success the range is unmapped; it fails only without a free frame, at a page that was not mapped or lay in a 2 MiB page; no translation outside the pages done changes in any space; ring 3 gains nothing anywhere, and loses the range and the 2 MiB pages that were split |
| PageTables.PageTables.ProtectPage | kernel/mm/paging.cpp:218-229 | the page keeps its frame and takes the flags; it fails only for an unmapped page, or in a 2 MiB page that no frame is left to split; in all cases exactly what ring 3 gains and loses, in all spaces |
| PageTables.PageTables.Protect | kernel/mm/paging.cpp:212-232 | no frame changes, whether it succeeds or fails; every page done leads where it led, writable, executable, global and cached as the flags say; it stops only at an unmapped page, or in a 2 MiB page that no frame is left to split; which pages of all spaces ring 3 may use afterwards, as for map |
| PageTables.ProtectedLeads | kernel/mm/paging.cpp:218-229 | pages that were mapped keep their frames and take the rights the flags name |
| PageTables.PageTables.Translate | kernel/mm/paging.cpp:234-254 | the frame of the page plus the offset, through 4 KiB and 2 MiB entries, or zero |
| PageTables.HeldMore | kernel/mm/paging.cpp:71-80 | taking a free frame for a table or for data keeps the account exact: a frame is used exactly if it was before paging, is a table, or holds data |
| PageTables.HeldLess | kernel/mm/page_alloc.cpp:161-164 | so does giving one back |
| PagingInit.AllocateThree | kernel/mm/paging.cpp:285-297 | three distinct zeroed tables, or failure only when frames run out |
| PagingInit.FillDirectory | kernel/mm/paging.cpp:302-307 | 512 direct entries covering the first gigabyte |
| PagingInit.BuildDirectMap | kernel/mm/paging.cpp:285-307 | the first gigabyte maps to itself in 2 MiB pages, writable, not executable and closed to ring 3 |
| PagingInit.MapSegment | kernel/mm/paging.cpp:318-325 | keeps identity, write-or-execute and the closed branch even when it stops; if no allocation failed the pages have exactly the rights of the segments so far |
| PagingInit.MapImage | kernel/mm/paging.cpp:317-325 | the same for all four segments |
| PagingInit.UnmapGuards | kernel/cpu/stacks.cpp:82-90 | keeps the identity map and the write-or-execute rule; if no allocation failed exactly the guard pages are holes |
| PagingInit.PagingInit | kernel/mm/paging.cpp:281-335 | identity map, nothing both writable and executable, the shared branch closed to ring 3; if every allocation succeeded each page has exactly the rights of its segment, and its access is that of its place in the image |
| PagingInit.AccessIsWanted | kernel/mm/paging.cpp:317-335 | after a complete set-up code is executable and not writable, constants neither, all other pages of the first gigabyte writable only, and the guards are holes |
| PagingInit.SplitExample | kernel/mm/paging.cpp:155-165 | on the direct map, after mapping page 0x200 alone and pages 0x400 and 0x401 together for ring 3, the pages open to it are exactly 0x400 to 0x5ff |
| AddressSpaces.StepKeepsGood | kernel/mm/paging.cpp:173-232 | a step keeps the closed shared branch, so ring 3 never gets into it |
| AddressSpaces.SharedBranch | kernel/proc/process.cpp:99-112 | below 2^39 a process sees what the kernel sees and ring 3 sees nothing |
| AddressSpaces.StepIsolates | kernel/mm/paging.cpp:173-232 | an operation on one space changes no translation and no ring 3 right above 2^39 in another, and a process operation none in the kernel |
| AddressSpaces.RunKeepsGood | kernel/mm/paging.cpp:173-232 | every state of every run is sound, and no space disappears |
| AddressSpaces.KernelSharedInEveryRun | kernel/proc/process.cpp:99-112 | in every run each address below 2^39 translates identically in the kernel and in every process |
| AddressSpaces.IsolationInEveryRun | kernel/proc/process.cpp:99-112 | in every run no operation on other spaces changes a translation of a process or what ring 3 may use of it |
| AddressSpaces.StepReplays | kernel/mm/paging.cpp:173-232 | an operation does to a page, in the space that owns it, what it does to that page alone |
| AddressSpaces.EveryRunReplays | kernel/mm/paging.cpp:173-232 | in every run, at every moment, every page of every space leads where the operations of its owner have put it, one after another, and is open to ring 3 exactly if the last of them that reached it asked for that |
| AddressSpaces.StepKeepsKernelSafe | kernel/mm/paging.cpp:173-232 | flags that are not Write without NoExecute keep kernel pages from being both |
| AddressSpaces.WriteXorExecuteInEveryRun | kernel/mm/paging.cpp:117-135 | that holds through every run, across any number of splits |
| AddressSpaces.TrampolineWindow | kernel/cpu/smp.cpp:42-61 | installing the trampoline opens one page only, retiring it restores the rule |
| AddressSpaces.AdoptSpace | kernel/proc/process.cpp:99-112 | a zeroed root with the kernel's first entry joins the forest, empty above 2^39, and changes no translation and no ring 3 right of another space |
| AddressSpaces.NewSpace | kernel/proc/process.cpp:99-112 | the same, in place, or failure only when no frame is free |
| AddressSpaces.MapIn | kernel/mm/paging.cpp:173-190 | map is a step of the runs above, whether it succeeds or stops on the way |
| AddressSpaces.UnmapIn | kernel/mm/paging.cpp:192-210 | so is unmap |
| AddressSpaces.ProtectIn | kernel/mm/paging.cpp:212-232 | so is protect |
| Vmalloc.RoundUpExact | kernel/mm/vmalloc.cpp:43-46 | the next page boundary, or zero once the sum wraps |
| Vmalloc.ReservationFits | kernel/mm/vmalloc.cpp:52-57 | a reservation holds the bytes asked for and a guard page if and only if the length is at most 2^64 - 8192 |
| Vmalloc.ReservationWrapsExample | kernel/mm/vmalloc.cpp:52-57 | two lengths near 2^64 for which it does not |
| Vmalloc.FirstLarge | kernel/mm/vmalloc.cpp:59-63 | the first range with room |
| Vmalloc.CutWellFormed | kernel/mm/vmalloc.cpp:64-71 | shrinking or swap-removing a range keeps the ranges apart, in the area and not empty |
| Vmalloc.CutLists | kernel/mm/vmalloc.cpp:64-71 | the free pages are those before without the pages taken |
| Vmalloc.GiveWellFormed | kernel/mm/vmalloc.cpp:85-103 | releasing any pages keeps the ranges apart if and only if none of them was free, or they are dropped |
| Vmalloc.ReleaseFreeExample | kernel/mm/vmalloc.cpp:78-104 | two pages released from an area that is free are in it twice |
| Vmalloc.GiveLists | kernel/mm/vmalloc.cpp:85-103 | the free pages are those before and the pages released, unless they leak |
| Vmalloc.ReserveKeepsInv | kernel/mm/vmalloc.cpp:52-76 | every page of the area stays in exactly one free range, one live reservation, or lost |
| Vmalloc.ReleaseKeepsInv | kernel/mm/vmalloc.cpp:78-104 | the same across a release, also of the first part of a reservation |
| Vmalloc.VmallocArea.constructor | kernel/mm/vmalloc.cpp:33-41 | the whole area is one free range |
| Vmalloc.VmallocArea.TakeFrom | kernel/mm/vmalloc.cpp:64-73 | the pages taken were free and are now held by the new reservation alone |
| Vmalloc.VmallocArea.Reserve | kernel/mm/vmalloc.cpp:52-76 | first fit; null exactly when no range has room; all other pages keep their owner |
| Vmalloc.VmallocArea.Release | kernel/mm/vmalloc.cpp:78-104 | of a reservation, or its first part, the pages are free again, or lost exactly when the table is full and none borders on them; of anything else the ranges stay apart exactly when nothing of it was free |
| Vmalloc.GuardPageBetween | kernel/mm/vmalloc.cpp:52-76 | between two live reservations lies a page that is neither usable nor free |
| Vmalloc.ReleaseConserves | kernel/mm/vmalloc.cpp:78-104 | no page is lost if and only if the whole reservation is released and the table does not leak |
| Vmalloc.ReleaseUndoesReserve | kernel/mm/vmalloc.cpp:52-104 | giving back at once what was just reserved never leaks and puts every page back |
| Devices.MapWindow | kernel/mm/vmalloc.cpp:112-121 | a window with its guard page is reserved and leads to the device; or the area is as before, and exactly the pages reached before the frames ran out stay mapped in free space |
| Devices.MapDevice | kernel/mm/vmalloc.cpp:106-124 | the window starts at the device's own offset and maps exactly the rounded span; byte k of it is byte k of the device, writable, not executable, uncached and closed to ring 3, for every device that ends below 2^52; null only without room or frames, with the same left behind |
| Devices.WindowShows | kernel/mm/vmalloc.cpp:106-124 | from pages to bytes: a window of whole pages shows the device at its own offset, byte for byte |
| Devices.UnmapDevice | kernel/mm/vmalloc.cpp:126-136 | unmaps and releases what its own rounding gives; the unmap can only fail at a page that was not mapped |
| Devices.SpansAgree | kernel/mm/vmalloc.cpp:106-136 | both calls round alike if and only if the device is page aligned or its last page has room for the offset |
| Devices.SpansDifferExample | kernel/mm/vmalloc.cpp:106-136 | a window of two pages of which one is unmapped |
| Devices.RoundTrip | kernel/mm/vmalloc.cpp:106-136 | map_device and then unmap_device: the unmap cannot fail; nothing of the window stays mapped, no page of the area is lost, and tables and area are as before, each if and only if the device starts on a page or its last page has room for the offset |
| HeapModel.AlignUp | kernel/mm/heap.cpp:32-35 | the next multiple of 16 |
| HeapModel.FirstFit | kernel/mm/heap.cpp:158-161 | the first block that is free and large enough |
| HeapModel.Step | kernel/mm/heap.cpp:85-90 | the smallest number of growth steps that holds the request and a header |
| HeapModel.MergeGood | kernel/mm/heap.cpp:58-81 | merging next, then previous, keeps the tiling and leaves no two free neighbours |
| HeapModel.ReleaseGood | kernel/mm/heap.cpp:183-197 | freeing a block takes it alone out of use and keeps the list tiled and coalesced |
| HeapModel.SplitRecuts | kernel/mm/heap.cpp:37-56 | a split keeps the tiling, the live blocks and their sizes |
| HeapModel.TakeGood | kernel/mm/heap.cpp:163-166 | the block taken is large enough, wastes less than 48 bytes, and is the only change among live blocks |
| HeapModel.TakesLowest | kernel/mm/heap.cpp:157-167 | the first fit is the free block with the lowest address that fits, and is cut to the size wanted unless the rest could not be a block |
| HeapModel.GrownIsBehind | kernel/mm/heap.cpp:106-122 | after a growth the block given lies behind every live one |
| HeapModel.ExtendGood | kernel/mm/heap.cpp:106-122 | growing keeps the tiling and the live blocks, and the request then fits |
| HeapModel.Canonical | kernel/mm/heap.cpp:37-124 | the whole list is determined by the live blocks and the committed size |
| HeapModel.EmptyIsOneBlock | kernel/mm/heap.cpp:58-81 | with nothing live there is one free block of committed minus a header |
| HeapModel.MallocSound | kernel/mm/heap.cpp:149-173 | keeps the invariant; gives a new block of at least the size and less than 48 bytes more than its next multiple of 16; it is cut from the lowest free block that fits, and if none does the heap grows by one step and the block lies behind every live one; null exactly for a refused size, or when nothing fits and the heap cannot grow, so the second attempt never fails |
| HeapModel.FreeSound | kernel/mm/heap.cpp:183-197 | keeps the invariant and takes exactly that block out of use |
| HeapModel.FreeUndoesMalloc | kernel/mm/heap.cpp:149-197 | kfree right after a kmalloc that did not grow restores the exact block list |
| Heap.SplitLinked | kernel/mm/heap.cpp:37-56 | the stores of split leave forward and backward links that agree |
| Heap.FuseLinked | kernel/mm/heap.cpp:58-81 | the stores of merge leave forward and backward links that agree |
| Heap.KernelHeap.constructor | kernel/mm/heap.cpp:130-139 | an empty heap |
| Heap.KernelHeap.Split | kernel/mm/heap.cpp:37-56 | the headers in memory become those of the split list, with the tail kept |
| Heap.KernelHeap.Absorb | kernel/mm/heap.cpp:60-69 | the next block becomes part of this one, links and tail kept |
| Heap.KernelHeap.MergeBlock | kernel/mm/heap.cpp:58-81 | the headers become those of the merged list |
| Heap.KernelHeap.Grow | kernel/mm/heap.cpp:85-124 | grows exactly when the reservation and the frames allow, by the step, else changes nothing |
| Heap.KernelHeap.AddBlock | kernel/mm/heap.cpp:106-122 | the new block joins at the tail and merges |
| Heap.KernelHeap.Find | kernel/mm/heap.cpp:157-161 | the walk along the links finds the first fit |
| Heap.KernelHeap.TakeBlock | kernel/mm/heap.cpp:163-167 | split, marked, counted in `used` |
| Heap.KernelHeap.Kmalloc | kernel/mm/heap.cpp:149-173 | the headers, `used` and the pointer are what the list model says |
| Heap.KernelHeap.ReleaseBlock | kernel/mm/heap.cpp:193-196 | freed, counted and merged |
| Heap.KernelHeap.Kfree | kernel/mm/heap.cpp:183-197 | the headers and `used` are what the list model says, null, free blocks and blocks merged away included |
| Heap.KernelHeap.FreeTwice | kernel/mm/heap.cpp:183-197 | a second kfree of a pointer does nothing, whether its block is still there or was merged into the one before |
| HeapRuns.RunKeepsInv | kernel/mm/heap.cpp:37-197 | after any sequence of kmalloc, growth and kfree the blocks tile the committed range, are coalesced and sized in 16s, are live exactly for live pointers, and hold what was asked for with less than 48 bytes to spare over the next multiple of 16 |
| HeapRuns.LivePayloadsDisjoint | kernel/mm/heap.cpp:149-197 | what two live pointers give access to never overlaps, or touches a header |
| HeapRuns.AllFreedIsOneBlock | kernel/mm/heap.cpp:58-197 | freeing everything in any order leaves one free block |
| HeapRuns.OrderDoesNotMatter | kernel/mm/heap.cpp:58-197 | two runs that end with the same live blocks and committed size end with the same heap |
| KernelPages.Unclaim | kernel/mm/page_alloc.cpp:161-164 | a frame that was taken and not used is free again, and no other |
| KernelPages.MapFresh | kernel/mm/heap.cpp:96-106 | one page gets a frame nobody had; or no mapping changes, the frame is given back, and at most one frame is free |
| KernelPages.Commit | kernel/mm/heap.cpp:96-106 | the pages done are backed by different new frames and nothing else changes; it stops early only when at most one frame is free |
| KernelPages.GrowHeap | kernel/mm/heap.cpp:85-124 | grow over the page tables: the heap model grows or stays, and the new part is backed by new frames, of which none is given back on failure |
| IrqLock.NextKeepsInv | include/eris/lock.hpp:45-64 | each load and store keeps exclusion and an owner field that names the holder or nobody |
| IrqLock.RunKeepsInv | include/eris/lock.hpp:45-64 | in every interleaving of N CPUs |
| IrqLock.PanicIffRecursive | include/eris/lock.hpp:45-64 | two CPUs never hold the lock at once; a CPU that asks panics if and only if it holds it already, and never spins on itself |
| IrqLock.LockIsFreed | include/eris/lock.hpp:59-64 | in every run a holder that does not ask again frees the lock by at most three steps of its own, and moves nobody else |
| IrqLock.LockIsTaken | include/eris/lock.hpp:45-58 | a CPU that runs alone while the lock is free is inside, as holder and owner, at most five steps later |
| IrqLock.EveryoneCanEnter | include/eris/lock.hpp:45-64 | so no state of any run is a dead end: unless the holder asks again, every CPU can be inside at most eight steps later |
| RecursiveLock.NextKeepsInv | include/eris/lock.hpp:100-125 | each load and store keeps exclusion and a depth equal to the holder's nesting |
| RecursiveLock.ReentersIffInside | include/eris/lock.hpp:100-125 | the unlocked test lets a CPU straight in if and only if it is inside, and the lock is given back exactly at nesting zero |
| RecursiveLock.LockIsFreed | include/eris/lock.hpp:119-127 | in every run the holder, however deep it is nested or on its way deeper, frees the lock by its own steps |
| RecursiveLock.LockIsTaken | include/eris/lock.hpp:100-117 | a CPU that runs alone while the lock is free is inside, nested once |
| RecursiveLock.EveryoneCanEnter | include/eris/lock.hpp:100-127 | so every CPU can be inside after every state of every run |
| SchedPlaced.ExpiredIs | kernel/sched/scheduler.cpp:108-126 | the sweep splits the sleepers exactly by deadline and loses nobody |
| SchedPlaced.EnqueueAllIs | kernel/sched/scheduler.cpp:66-79 | queueing one after another appends in order |
| SchedPlaced.YieldPlaced | kernel/sched/scheduler.cpp:322-344 | yield keeps every thread in exactly one place matching its state |
| SchedPlaced.SleepPlaced | kernel/sched/scheduler.cpp:346-364 | so does sleep |
| SchedPlaced.WaitPlaced | kernel/sched/scheduler.cpp:396-409 | so does waiting |
| SchedPlaced.ExitPlaced | kernel/sched/scheduler.cpp:371-386 | so does exit, and `threads_alive` counts the living |
| SchedPlaced.WakePlaced | kernel/sched/scheduler.cpp:307-315 | so does waking a thread that is not blocked |
| SchedPlaced.WakeOnePlaced | kernel/sched/scheduler.cpp:411-417 | so does wake_one |
| SchedPlaced.WakeAllPlaced | kernel/sched/scheduler.cpp:419-425 | so does wake_all |
| SchedPlaced.AdoptPlaced | kernel/sched/scheduler.cpp:232-240 | so does adopting a new thread |
| SchedPlaced.WakeExpiredPlaced | kernel/sched/scheduler.cpp:108-126 | so does waking expired sleepers, who join the run queue in list order |
| SchedSystem.NextIsSaved | kernel/sched/scheduler.cpp:143-176 | the thread a CPU switches to has a saved context, so no CPU is on it |
| SchedSystem.SectionKeeps | kernel/sched/scheduler.cpp:322-425 | a critical section gives only the calling CPU a new current thread, and never the one it leaves |
| SchedSystem.NextKeepsInv | kernel/sched/scheduler.cpp:143-176 | every step of every CPU keeps the invariant of lock, contexts, places and interrupt flags |
| SchedSystem.RunKeepsInv | kernel/sched/scheduler.cpp:143-425 | in every interleaving of N CPUs |
| SchedSystem.NoThreadOnTwoCpus | kernel/sched/scheduler.cpp:143-176 | no thread executes on two CPUs, the lock excludes, interrupts are off on the way through it, nobody panics, everyone is in exactly one place; also with interrupts coming in and cli and sti outside it |
| SchedSystem.SwitchResumesSaved | kernel/sched/scheduler.cpp:143-176 | context_switch only resumes a saved context, of a living thread that will release the lock this CPU holds |
| SchedSystem.UnlockedByItsHolder | kernel/sched/scheduler.cpp:259-266 | the lock is released on the CPU that took it, by a living thread, which gets back the interrupt flag it asked with, on whichever CPU; a new thread gets interrupts on |
| SchedSystem.HeldUntilUnlocked | include/eris/lock.hpp:45-64 | from one acquisition to the next release the same CPU is the holder |
| SchedProgress.LockIsFreed | kernel/sched/scheduler.cpp:143-176 | in every run the scheduler lock comes free by at most six steps of the CPU that holds it, across the switch and on whichever thread's stack that ends, and no other CPU moves |
| SchedProgress.LockIsTaken | include/eris/lock.hpp:45-58 | while it is free a CPU that waits is inside, with its call and the state unchanged, at most three steps later |
| SchedProgress.WaiterGetsIn | kernel/sched/scheduler.cpp:143-425 | so no state of any run is a dead end: a CPU that waits can be inside at most nine steps later |
| SchedProgress.CallGetsIn | kernel/sched/scheduler.cpp:322-425 | and from its own code with any call at most ten steps later |
| SchedOrder.SectionKeepsOrder | kernel/sched/scheduler.cpp:66-93 | each critical section takes from the front and adds at the back |
| SchedOrder.QueueOrder | kernel/sched/scheduler.cpp:66-93 | across all CPUs what was queued leaves in order before anything queued later |
| SchedOrder.NthDequeue | kernel/sched/scheduler.cpp:66-93 | a thread at position p is returned by exactly the (p+1)-th later dequeue |
| SchedOrder.AsleepUntilDeadline | kernel/sched/scheduler.cpp:95-126 | in every run a sleeper not woken by name stays asleep until a yield reads its deadline |
| SchedOrder.YieldWakesAllDue | kernel/sched/scheduler.cpp:322-344 | after a yield that read `now` nobody sleeps with a deadline at or before it, and the due are queued or running |
| SchedOrder.DeadlineIsLateEnough | kernel/sched/scheduler.cpp:356 | the stored deadline is late enough if and only if the sum does not wrap |
| SchedOrder.DeadlineWrapsExample | kernel/sched/scheduler.cpp:356 | a deadline that lies in the past |
| SchedChoice.SectionDoes | kernel/sched/scheduler.cpp:307-425 | what every critical section does, in terms of the state before: whom the CPU goes to (the front of the queue; in a yield with an empty queue the first sleeper due, or nobody; when leaving otherwise the idle thread), where every thread is afterwards, who keeps whose place in line, whoever is woken or gives way coming last, the wait queues, the sleepers and the deadline stored |
| SchedChoice.YieldDoes | kernel/sched/scheduler.cpp:322-344 | the same for yield |
| SchedChoice.SweepOrders | kernel/sched/scheduler.cpp:108-126 | sleepers that are due are queued in list order, and those that are not keep theirs, turned around |
| SchedChoice.FirstExpired | kernel/sched/scheduler.cpp:108-126 | the first one the sweep wakes is the first in the list that is due |
| SchedChoice.TurnTakes | kernel/sched/scheduler.cpp:143-176 | a thread that leaves the queue becomes current on the CPU that took it; a yield, sleep, wait or exit takes the front of a queue that is not empty |
| SchedChoice.EnoughTurns | kernel/sched/scheduler.cpp:81-93 | every such call takes somebody, as long as the threads queued before have not all been taken |
| SchedChoice.NobodyPassedOver | kernel/sched/scheduler.cpp:143-425 | in every run of N CPUs a thread with p others before it in the queue is made current at the latest when a CPU has been given away or offered p + 1 times |
| SchedMemory.AppendRepresents | kernel/sched/scheduler.cpp:66-79 | enqueue of a thread in no list, on the links: the memory holds the new state, all lists acyclic, disjoint, the tail last |
| SchedMemory.TakeFirstRepresents | kernel/sched/scheduler.cpp:81-93 | dequeue, on the links; the thread is left in no list: the memory holds the new state, all lists acyclic, disjoint, the tail last |
| SchedMemory.ParkRepresents | kernel/sched/scheduler.cpp:95-101 | parking a thread in no list: the memory holds the new state, all lists acyclic, disjoint, the tail last |
| SchedMemory.BlockRepresents | kernel/sched/scheduler.cpp:190-195 | blocking a thread in no list: the memory holds the new state, all lists acyclic, disjoint, the tail last |
| SchedMemory.TakeWaiterRepresents | kernel/sched/scheduler.cpp:197-206 | taking a waiter; it is left in no list: the memory holds the new state, all lists acyclic, disjoint, the tail last |
| SchedMemory.InstallRepresents | kernel/sched/scheduler.cpp:133-138 | making a thread current: the memory holds the new state, all lists acyclic, disjoint, the tail last |
| SchedMemory.KillRepresents | kernel/sched/scheduler.cpp:242-246 | marking a thread dead: the memory holds the new state, all lists acyclic, disjoint, the tail last |
| SchedMemory.DetachRepresents | kernel/sched/scheduler.cpp:178-188 | unlinking a sleeper anywhere in the list; it is left in no list: the memory holds the new state, all lists acyclic, disjoint, the tail last |
| SchedMemory.PutAside | kernel/sched/scheduler.cpp:121-122 | a sleeper not due moves to the other list: the memory holds the new state, all lists acyclic, disjoint, the tail last |
| SchedMemory.WakeFirst | kernel/sched/scheduler.cpp:116-119 | a sleeper due moves to the run queue: the memory holds the new state, all lists acyclic, disjoint, the tail last |
| SchedLists.Scheduler.constructor | kernel/sched/scheduler.cpp:470-487 | every CPU on its idle thread |
| SchedLists.Scheduler.Enqueue | kernel/sched/scheduler.cpp:66-79 | the stores of enqueue |
| SchedLists.Scheduler.Dequeue | kernel/sched/scheduler.cpp:81-93 | the front of the queue, or nobody exactly when it is empty |
| SchedLists.Scheduler.ParkSleeperAt | kernel/sched/scheduler.cpp:95-101 | at the head of the sleepers, with the deadline |
| SchedLists.Scheduler.BlockOn | kernel/sched/scheduler.cpp:190-195 | at the head of the wait queue |
| SchedLists.Scheduler.TakeFrom | kernel/sched/scheduler.cpp:197-206 | the head of the wait queue, or nobody exactly when it is empty |
| SchedLists.Scheduler.SetCurrent | kernel/sched/scheduler.cpp:133-138 | current on this CPU, Running |
| SchedLists.Scheduler.MarkDead | kernel/sched/scheduler.cpp:242-246 | Dead, and one fewer alive |
| SchedLists.Scheduler.EnqueueLoose | kernel/sched/scheduler.cpp:66-79 | at the back of the run queue, Ready |
| SchedLists.Scheduler.WakeExpiredSleepers | kernel/sched/scheduler.cpp:108-126 | the loop over the links does what the model's sweep does |
| SchedLists.Scheduler.DetachFromSleepers | kernel/sched/scheduler.cpp:178-188 | the loop over the links unlinks the thread if it sleeps, and changes nothing if not |
| SchedLists.Scheduler.SwitchAway | kernel/sched/scheduler.cpp:358-362 | the front of the queue or the idle thread becomes current |
| SchedLists.Scheduler.Yield | kernel/sched/scheduler.cpp:322-344 | yield, up to the switch, is the model's |
| SchedLists.Scheduler.Sleep | kernel/sched/scheduler.cpp:346-364 | sleep is the model's |
| SchedLists.Scheduler.Exit | kernel/sched/scheduler.cpp:371-386 | exit is the model's |
| SchedLists.Scheduler.Wait | kernel/sched/scheduler.cpp:396-409 | waiting is the model's |
| SchedLists.Scheduler.WakeOne | kernel/sched/scheduler.cpp:411-417 | wake_one is the model's |
| SchedLists.Scheduler.WakeAll | kernel/sched/scheduler.cpp:419-425 | the loop of wake_all is the model's |
| SchedLists.Scheduler.Adopt | kernel/sched/scheduler.cpp:232-240 | adopt is the model's |
| SchedLists.Scheduler.Wake | kernel/sched/scheduler.cpp:307-315 | wake is the model's for a thread that is not blocked; for a blocked one it is an enqueue alone |
| SchedWake.BlockedWakeLosesWaiters | kernel/sched/scheduler.cpp:307-315 | waking a blocked thread leaves it on both queues and drops everyone waiting behind it |
| SchedWake.WakeKeepsApartIffNotBlocked | kernel/sched/scheduler.cpp:307-315 | run queue and wait queues stay apart if and only if the thread is not blocked |
| SchedWake.BlockedWakeExample | kernel/sched/scheduler.cpp:307-315 | one blocked thread is enough |
| ModuleModel.Find | kernel/module/module.cpp:40-47 | the first slot with the name |
| ModuleModel.WalkFromReady | kernel/module/module.cpp:49-118 | from a Ready module every walk along dependencies stays on Ready modules of falling rank |
| ModuleModel.ReadyReachesNoCycle | kernel/module/module.cpp:49-118 | so a module that can reach a missing name or a cycle is never Ready |
| ModuleModel.TakeOne | kernel/module/module.cpp:68-72 | a reference taken is one counter up and no other change |
| ModuleModel.BecomesReady | kernel/module/module.cpp:116-118 | with the references taken, becoming Ready restores exact counters, support and acyclicity |
| ModuleModel.SomethingToDrop | kernel/module/module.cpp:124-134 | the panic for a missing reference is unreachable |
| ModuleModel.NoLongerReady | kernel/module/module.cpp:225-226 | with the references dropped, leaving Ready restores the invariant |
| ModuleModel.SwapKeepsInv | kernel/module/module.cpp:236-241 | swap-removal keeps the invariant |
| ModuleModel.RegisterKeepsInvIff | kernel/module/module.cpp:165-170 | a new module keeps the invariant if and only if its slot's counter is zero |
| ModuleModel.ReadyIsLoadable | kernel/module/module.cpp:74-122 | what is Ready after a load shows an order of initialisation |
| ModuleModel.RanTwice | kernel/module/module.cpp:49-118 | one load after another: still each init at most once, and every module after its dependencies |
| ModuleModel.CalledTwice | kernel/module/module.cpp:49-118 | and every init called with the dependencies of its module Ready |
| ModuleModel.JoinSupports | kernel/module/module.cpp:49-118 | two orders of initialisation can be joined to one |
| ModuleModel.SupportForAll | kernel/module/module.cpp:49-118 | so dependencies that can be loaded one by one can be loaded together |
| ModuleTable.Modules.constructor | kernel/module/module.cpp:33-36 | an empty table of zeroed slots |
| ModuleTable.Modules.FindModule | kernel/module/module.cpp:40-47 | the loop finds the first slot with the name |
| ModuleTable.Modules.AcquireDependencies | kernel/module/module.cpp:68-72 | every dependency is found and its counter goes up once per slot that names it |
| ModuleTable.Modules.FinishLoad | kernel/module/module.cpp:116-118 | takes the references and becomes Ready with exact counters everywhere, changing nothing else |
| ModuleTable.Modules.CallInit | kernel/module/module.cpp:108 | the call is logged with the table it finds |
| ModuleTable.Modules.LoadDependencies | kernel/module/module.cpp:49-64 | ends with all dependencies Ready or stops; changes only Registered modules; each init at most once and after those of its dependencies; succeeds if an order supports it |
| ModuleTable.Modules.LoadLocked | kernel/module/module.cpp:74-122 | terminates on the number of Registered modules; zero if and only if Ready; the depth guard is unreachable; nothing is left Loading; each init is called at most once, with all dependencies of its module Ready and after theirs; its result is returned and stored, unless a dependency could not be loaded |
| ModuleTable.Modules.Load | kernel/module/module.cpp:201-207 | returns what the table and the init results say: -1 if missing or if a dependency cannot be loaded, the stored error of a failed module, otherwise what init returns; dependencies that can be loaded are Ready afterwards even if the module's own init fails; zero if and only if some order of initialisation ends with the module Ready, and exactly then it is Ready |
| ModuleTable.Modules.ReleaseDependencies | kernel/module/module.cpp:124-134 | every counter drops by the slots that name it, none below zero |
| ModuleTable.Modules.Unload | kernel/module/module.cpp:209-252 | refused exactly when missing or in use; otherwise the counters, the state, the swap-removal and the copy left in the slot that falls vacant, with the invariant kept |
| ModuleTable.Modules.Register | kernel/module/module.cpp:140-173 | refused exactly for another ABI, a name present or a full table; takes the next vacant slot with its counters, and the table stays sound if and only if they are zero |
| ModuleTable.Modules.Replace | kernel/module/module.cpp:140-252 | unloading an image and registering another keeps the table sound if and only if the module in the last slot is the one unloaded, or has neither users nor other Ready modules on top of it |
| ModuleTable.Modules.Get | kernel/module/module.cpp:269-279 | succeeds exactly for a Ready module and counts the user, changing nothing but counters of users |
| ModuleTable.Modules.Put | kernel/module/module.cpp:281-289 | panics exactly for a put without its get, and changes nothing but counters of users |
| ModuleTable.LastSlot | kernel/module/module.cpp:236-241 | what the vacant slot is left with, in terms of the table before |
| ModuleTable.StaleCounterHistory | kernel/module/module.cpp:140-252 | from an empty table: three modules loaded, one unloaded, and the next registered starts with a counter though nobody depends on it |
| Relocation.DecodeEncode | kernel/module/loader.cpp:159-184 | a little-endian field reads back as what was stored |
| Relocation.WideField | kernel/module/loader.cpp:159-184 | a 64-bit field is never refused and decodes to S + A, or S + A - P, modulo 2^64 |
| Relocation.NarrowField | kernel/module/loader.cpp:162-181 | a 32-bit field sign-extends to the target modulo 2^64, and is refused exactly when no field would: what the ABI asks of all narrow kinds but R_X86_64_32 |
| Relocation.Abs32ZeroExtends | kernel/module/loader.cpp:172-181 | R_X86_64_32 is accepted and zero-extends to its value if and only if that is below 2^31; what the ABI asks is met if and only if the value is not from 2^31 up to 2^32 and not negative from -2^31 |
| Relocation.Abs32NegativeExample | kernel/module/loader.cpp:172-181 | a negative value that is accepted and reads as 2^32 - 1 |
| Relocation.Abs32RefusedExample | kernel/module/loader.cpp:172-181 | a value of 2^31 that is refused though four bytes hold it |
| Relocation.StoreAllAt | kernel/module/loader.cpp:126-194 | after stores to sites apart each site holds its own field and other bytes are untouched |
| Loader.SectionsApart | kernel/module/loader.cpp:318-337 | no byte of the image belongs to two sections |
| Loader.OwnerOf | kernel/module/loader.cpp:318-337 | every byte of the image belongs to one |
| Loader.CursorAligned | kernel/module/loader.cpp:318-337 | sections start on page boundaries |
| Loader.TotalSize | kernel/module/loader.cpp:300-306 | the size allocated is what the sections take |
| Loader.LoadedImage.constructor | kernel/module/loader.cpp:295-296 | no section is placed yet |
| Loader.LoadedImage.PlaceSections | kernel/module/loader.cpp:318-337 | each section is at its place with its own bytes, zeros for nobits, and its placement says where it is and what its flags allow |
| Loader.LoadedImage.ApplyTable | kernel/module/loader.cpp:146-190 | one table: every store made, or refused because some relocation must be |
| Loader.LoadedImage.ApplyRelocations | kernel/module/loader.cpp:126-194 | succeeds if and only if every symbol resolves and every value fits, and then memory is exactly those stores |
| Loader.FieldsHoldTargets | kernel/module/loader.cpp:126-194 | after success on sites apart every field, read the way it is used, is its target modulo 2^64; R_X86_64_32, read zero-extended, exactly when that is below 2^31 |
| Loader.OtherBytesKept | kernel/module/loader.cpp:126-194 | bytes outside the sites are as copied |
| LoaderObject.PendingIs | kernel/module/loader.cpp:90-157 | what the loader makes of a relocation entry is what the object says: P is the load address of the target section plus the offset; S is the load address of the symbol's section plus its value, the value alone if that section is not placed, or the exported address; none for an index or a section out of range or a name nobody exports |
| LoaderObject.OutcomeIs | kernel/module/loader.cpp:126-194 | relocation succeeds if and only if every entry of every table for an allocated section has an S and a value its field can hold |
| LoaderObject.FieldsRead | kernel/module/loader.cpp:126-194 | and then, with fields apart, every field, read the way it is used, is S + A or S + A - P; R_X86_64_32 holds its low 32 bits |
| LoaderObject.OthersRead | kernel/module/loader.cpp:126-194 | and every byte outside the fields is as it was copied |
| LoaderObject.BuildImage | kernel/module/loader.cpp:298-349 | from the object file to memory: placing, copying and relocating succeeds exactly when every entry applies; then every field reads as its value and every other byte of a section is the file's, or zero |
| LoaderProtect.OneOwner | kernel/module/loader.cpp:196-217 | no page belongs to two sections, so the order of the calls does not matter |
| LoaderProtect.ApplyProtections | kernel/module/loader.cpp:196-217 | with the image mapped above the direct map no protect can fail, even without a free frame: every page keeps its frame and takes the rights of its section, and no other page changes |
| LoaderProtect.PageHasItsRights | kernel/module/loader.cpp:196-217 | each page ends writable exactly if its own section is, executable exactly if its own section is, cached and not global |
| LoaderMemory.AllocateImage | kernel/module/loader.cpp:42-70 | a window of pages backed by different new frames; or the area is as before and the pages reached stay mapped in free space |
| LoaderMemory.PlaceImage | kernel/module/loader.cpp:298-349 | the memory of an image from allocate_image to apply_protections, without the copying in between: every page of every section leads to a new frame with exactly the rights of that section, and no other page changes |
| LoaderMemory.TakePage | kernel/module/loader.cpp:76-83 | the page is unmapped, which cannot fail, and its frame is free again |
| LoaderMemory.ReleaseImage | kernel/module/loader.cpp:71-88 | all pages of the image are unmapped, exactly its frames go back, and the reservation ends |
| LoaderMemory.PlaceAndRelease | kernel/module/loader.cpp:42-88 | an image placed and released at once leaves every translation and every page of the area as before, and of the frames only those of new tables in use; it is not placed only for want of space or frames |
| ProcessModel.CopyOneMore | kernel/proc/process.cpp:152-160 | one more byte of the segment is in place and nothing else changes |
| ProcessModel.SegmentBuilt | kernel/proc/process.cpp:137-173 | zeroed pages, the copy and the final bits make the segment |
| ProcessModel.SegmentKept | kernel/proc/process.cpp:118-174 | loading other pages leaves a segment as it is |
| ProcessModel.PagesAreExact | kernel/proc/process.cpp:131-136 | the pages of a segment are exactly those that hold a byte of it |
| ProcessLoad.ProcessImage.constructor | kernel/proc/process.cpp:99-113 | nothing of the branch is mapped, no page is counted, the break is zero |
| ProcessLoad.ProcessImage.MapPage | kernel/proc/process.cpp:137-148 | a zeroed frame nobody had taken is mapped for ring 3 with the flags, and counted; no other space changes, and no byte of a frame that had been taken |
| ProcessLoad.ProcessImage.PutPage | kernel/proc/process.cpp:142-147 | a zeroed frame becomes the page, or the frames have run out; no other space changes, and no byte of another frame |
| ProcessLoad.ProcessImage.MapPages | kernel/proc/process.cpp:137-148 | the same for a range |
| ProcessLoad.ProcessImage.StoreByte | kernel/proc/process.cpp:152-160 | the byte at the address changes and no other of the process, and no frame of anybody else; a mapped address always translates |
| ProcessLoad.ProcessImage.CopyFile | kernel/proc/process.cpp:150-160 | the file part of the segment is in place |
| ProcessLoad.ProcessImage.ProtectPages | kernel/proc/process.cpp:166-173 | the pages take the final flags; protect cannot fail on them even with no frame left |
| ProcessLoad.ProcessImage.LoadSegment | kernel/proc/process.cpp:118-174 | byte k is the file's for k below the file size and zero up to the memory size, with the rights the header asks for; all other pages are kept |
| ProcessLoad.ProcessImage.LoadSegments | kernel/proc/process.cpp:118-174 | that holds of every loaded segment at the end, `page_count_` is their number of pages and `brk_` the highest end; it fails only without a free frame or for a segment below the user base; no other space changes, and of the frames that had been taken only those of the process have other bytes |
| ProcessLoad.ProcessImage.MapStack | kernel/proc/process.cpp:179-199 | sixteen zeroed pages, writable and not executable, below the stack top |
| ProcessLoad.LoadProcess | kernel/proc/process.cpp:83-199 | an image is refused at once exactly if it is shorter than a header, or its magic, machine or type is wrong; on success every segment and the stack are as specified, in frames nobody had: through the page tables every address of a segment leads to the file's byte, or zero behind it, open to ring 3, writable and executable as its header says; `page_count_`, `brk_` and `entry_` are exact; it fails only for its header, without a free frame or for a segment below the user base; whatever happens, every other space keeps every translation and every ring 3 right, and every frame that had been taken keeps its bytes |
| ProcessLoad.SegmentIsFound | kernel/proc/process.cpp:118-174 | what the process sees is what the processor finds: every address of a segment leads through the page tables to its byte, with the rights the header names |
| ProcessLoad.StackIsFound | kernel/proc/process.cpp:179-199 | the same for the sixteen pages of the stack: zero, writable, not executable, open to ring 3 |
| ProcessLoad.LoadBeside | kernel/proc/process.cpp:83-199 | with one memory for all, a program that is loaded stays as it is, byte for byte, while another is loaded, and the two share no frame |
| Ext2.ReadBytes | kernel/block/block.cpp:72-102 | all bytes of the range, or failure exactly when a sector in it cannot be read or no frame is free |
| Ext2.ReadBlock | kernel/fs/ext2.cpp:152-158 | the whole block or nothing |
| Ext2.BlockFor | kernel/fs/ext2.cpp:236-259 | the block of the file: direct, through the single indirect table, or zero |
| Ext2.StretchIs | kernel/fs/ext2.cpp:261-298 | a read is exactly the bytes of the file and stops only at the length, the end, a hole or an error |
| Ext2.FileIsOnDisk | kernel/fs/ext2.cpp:236-298 | byte x of a file is the byte of the disk at offset x modulo the block size in its block: one of the twelve direct ones, or the one whose number is in the four bytes, least significant first, at its place in the indirect block; it is missing exactly behind the end, in a hole, where the disk cannot be read or without a frame |
| Ext2.ReadsConcatenate | kernel/fs/ext2.cpp:261-298 | consecutive reads concatenate to one larger read |
| Ext2.FramesDoNotMatter | kernel/fs/ext2.cpp:236-298 | with two free frames the contents do not depend on memory |
| Ext2.ReadChunk | kernel/fs/ext2.cpp:276-293 | one turn of the loop gives bytes of the file, or none exactly when the first is not there |
| Ext2.Read | kernel/fs/ext2.cpp:261-298 | precisely the stretch of the file from the offset, zero past the end, minus one without a frame |
| Initrd.ParseOctal | kernel/initrd.cpp:39-45 | the value of the leading octal digits |
| Initrd.ParseInvertsPrint | kernel/initrd.cpp:39-45 | parsing inverts printing in octal |
| Initrd.RoundToBlock | kernel/initrd.cpp:47-50 | the next block boundary |
| Initrd.EntryAt | kernel/initrd.cpp:52-63 | an entry is given only if header and data lie inside the archive |
| Initrd.CountFiles | kernel/initrd.cpp:100-108 | the number of regular files; the walk ends on every archive |
| Initrd.DataAt | kernel/initrd.cpp:145-168 | the index-th regular file, null exactly past the last |
| Initrd.BaseName | kernel/initrd.cpp:69-73 | what follows the last slash |
| Initrd.NameMatches | kernel/initrd.cpp:67-81 | true if and only if the base name is the name, or the name and ".ko" |
| Initrd.MatchesIff | kernel/initrd.cpp:67-81 | a stored name matches if and only if it is the name, or the name and ".ko", alone or behind a slash, and the name has no slash itself |
| Initrd.FindFile | kernel/initrd.cpp:126-143 | the first regular file whose stored name matches, null if none does |
| Initrd.WalkInvertsPack | kernel/initrd.cpp:100-168 | walking any packing of files gives back each regular file's exact bytes and stored name, in order, and no others; the stored name is the name, and the mode behind it if the name fills its field |
| Initrd.StoredMatches | kernel/initrd.cpp:67-81 | a stored name matches if and only if the name, shorter than its field, matches, or what is wanted is the base name and the seven digits of the mode |
| Initrd.FoundByNameIff | kernel/initrd.cpp:67-81 | a file is found under its own base name if and only if its name is shorter than 100 bytes |
| Initrd.LongNameExample | kernel/initrd.cpp:67-81 | a file with a name of a hundred letters is not found under it, but under the name and the mode |
| Initrd.PackPacks | kernel/initrd.cpp:52-63 | every list of files with names of 1 to 100 bytes and sizes of eleven octal digits has an archive |
| Initrd.FindInvertsPack | kernel/initrd.cpp:126-143 | in an archive of files the first match is the first regular file packed that answers to the name, and there is none exactly when there is none |
| Initrd.FindPacked | kernel/initrd.cpp:126-143 | a lookup in the archive of any list of files: null exactly when no regular file answers to the name, otherwise the first that does, byte for byte |

## Left out

Not modelled, because it is hardware or would only add easy members:

- assembly, MSR, CR and port accesses, `invlpg`, IPIs and TLB contents; accessed and dirty bits; `context_switch` is one step
- weak memory ordering: every load and store of a lock or of the scheduler is one step, in one order all CPUs agree on
- device drivers, timers, interrupt controllers, ACPI, PCI, the SMP start-up sequence, console and logging
- vfs paths, ramfs, devfs, directories and mounting in ext2, symbol tables, command line, string routines
- `Thread::spawn`'s allocation of a stack, thread names and ids, `switch_to`'s kernel stack and CR3
- `module_init_builtin`, licences and taint, constructors and export registration of images; init is a parameter, exit is not modelled
- what becomes of the frames that a growth or an image load that fails midway keeps
- ring 3 entry, system calls, `Process::owns`
- the decoding of ELF structures from bytes: headers, sections, symbols and relocations are records; image contents are bytes
- 32-bit block numbers and indices in ext2, and blocks behind the double indirect table, which the code treats as holes

Assumptions a contract makes where the code does not check:

- SchedSystem.NextKeepsInv: sleep, wait and exit are called by a thread that is not idle, wake for a thread that is not blocked, and a spawned thread is new (`SchedSystem.Legal`).
- SchedLists.Scheduler.Enqueue: threads are numbers and each field of a thread is a map held by the scheduler, so the shared link is modelled but not the C++ objects themselves.
- SchedPlaced.WakePlaced: for a thread that is not blocked; what wake does to a blocked one is in SchedWake.
- SchedLists.Scheduler.constructor: all CPUs are there at once; the code registers them one after another as they start.
- SchedOrder.AsleepUntilDeadline: the clock is whatever each yield read; nothing is assumed about it.
- SchedLists.Scheduler.Wake: for a blocked thread only the stores are stated; what they do to the queues is in SchedWake.
- PageTables.PageTables.Map: addresses stay below 2^48, a process edits addresses from 2^39 up, and no kernel page in the shared branch is mapped for ring 3 once processes exist.
- PageAlloc.FrameAllocator.Init: the boot data ranges, found by walking multiboot structures and strings, are a parameter.
- PageAlloc.PageAllocInit: the boot data ranges are a parameter here too.
- Vmalloc.VmallocArea.Release: the address lies in the area and on a page boundary, as every address vmalloc_reserve gives does.
- AddressSpaces.RunKeepsGood: in a run the kernel edits addresses below 2^39 and never with the user flag, and a process addresses from 2^39 up.
- AddressSpaces.WriteXorExecuteInEveryRun: no operation of the run asks for Write without NoExecute; the trampoline, which does, is TrampolineWindow.
- PagingInit.PagingInit: the linker symbols are page aligned and in order, and the stack guards lie in the first gigabyte.
- Heap.KernelHeap.Kfree: the pointer is null, the payload of a block of the list, or of one that was merged away and whose header is still what the merge left.
- Heap.KernelHeap.Grow: how many frames the page loop will get is a parameter; KernelPages.GrowHeap runs the loop itself.
- LoaderProtect.ApplyProtections: the image is mapped above the first gigabyte, as LoaderMemory.AllocateImage leaves it, and the placements are those PlaceSections made.
- LoaderMemory.ReleaseImage: the image is one that allocate_image made: its window is reserved, and its frames are its own.
- LoaderMemory.PlaceImage: the copying and relocation of the contents, which changes no table, is in Loader.
- LoaderMemory.PlaceAndRelease: no free page of the area is mapped before.
- Devices.RoundTrip: no free page of the area is mapped before.
- SchedChoice.SectionDoes: the calls are those of `SchedSystem.Legal`; what wake does to a blocked thread is in SchedWake.
- SchedProgress.WaiterGetsIn: the call of the holder is one of `SchedSystem.Legal`; that the CPUs named do go on is not claimed.
- SchedChoice.NobodyPassedOver: bounds the wait in turns of the CPUs; that turns keep coming is up to the timer and the threads.
- Devices.MapDevice: length and offset together stay at most 2^64 - 8192, beyond which the rounding wraps.
- Devices.UnmapDevice: the window is one map_device gave and the length rounds to no more than its pages.
- ModuleTable.Modules.Register: the refusal of a missing descriptor is not modelled; counters are unbounded.
- ModuleTable.Modules.Load: one caller at a time (the code takes no lock here), one descriptor per name, one init result per module and call, and init does not call back into the framework.
- Loader.LoadedImage.ApplyRelocations: relocation sites lie inside the image; that they do not overlap is needed only for what the fields read as afterwards.
- LoaderObject.BuildImage: fields lie inside the image, which ends below 2^64; they are apart only where it says so.
- LoaderProtect.PageHasItsRights: the image is mapped as for ApplyProtections.
- ProcessLoad.LoadProcess: file parts lie in the image and are no longer than the memory they fill, segments end below 2^48 and share no page with each other or the stack.
- Ext2.Read: block sizes are 1024, 2048 or 4096, since a larger block does not fit the scratch frame; `mount` does not check this.
- Initrd.WalkInvertsPack: a mode is seven octal digits and a zero byte; the other fields may hold anything.
- Initrd.FindFile: the stored name of every regular file ends with a zero byte inside the archive, which the code does not check either; in an archive of files it does (Initrd.FindInvertsPack).
