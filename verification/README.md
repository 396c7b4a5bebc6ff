# arc_os verification

A Dafny model of the parts of the arc_os kernel whose correctness spans several functions or a whole run, with
proofs. `dafny verify dfyconfig.toml` checks the project.

- **Pages and address spaces** (`Pmm`, `PageTables`, `CpuWalk`, `Vmm`, `AddressSpaces`, `Teardown`, `ForkCost`, `Fork`,
  `Lifecycle`): the page bitmap, the 4-level tables of section 4.5 of the Intel SDM volume 3A built in frames taken
  from it, fork and teardown. The tree is proved to refine a plain page map, a processor's walk over the raw words to
  agree with it, fork to isolate and to end as the free pages decide, and every frame to come back but those a failed
  fork leaves behind.
- **Kernel heap** (`HeapList`, `HeapHeaders`, `HeapBytes`, `HeapSpec`, `HeapEffects`, `KernelHeap`, `HeapRuns`): first
  fit with split, merge, grow and resize, by writes of header bytes into the same memory that holds the payloads.
- **FAT32** (`FatTable`, `FatData`, `Fat32`, `FatNodes`): chains in the table of the Microsoft FAT32 File System
  Specification 1.03 as a forest, chain I/O as one growable byte array per file, and files with their directory entry.
- **Scheduling** (`Scheduling`, `Interleavings`, `SchedulerRuns`, `StepEffects`, `ThreadQueues`, `SchedulerCode`): run
  queue, wait queues, mutexes, semaphores, stop and continue as a step system on one CPU; theorems over every
  interleaving; and the pointer code with its single shared link field, proved to refine the step system.
- **VirtIO** (`DescriptorLists`, `Counters`, `Virtqueues`, `VirtqueueRuns`, `VirtioBlk`, `BlkRuns`): the split
  virtqueue of section 2.4 of VirtIO 1.0 with 16-bit counters, and the block request path against a device.
- **Pipes and descriptors** (`PipeRefs`, `Files`, `PipeBuffers`): reference counts across all descriptor tables and
  the byte ring.
- **Checksums** (`Checksums`, `Segments`): section 2 of RFC 1071 in both byte orders, the pseudo-header of section
  3.1 of RFC 9293, and what the senders build.
- **Exec arguments** (`Packing`, `ExecArgv`): argv copied out of one address space and rebuilt on a new stack.

Conventions. Machine words are integers with explicit ranges (`Machine`); wrap-around is written out where the code
can reach it. Kernel panics and failed allocations are results. Objects the C code updates in place are classes; a
ghost value describes what they stand for, each method says how it changes, and lemmas are about that value. A stretch
of kernel code between two sleeps is one step, because system calls and interrupt handlers run with interrupts off.
Callers establish what the code relies on: page-aligned physical addresses, one mapping per page, unlock by the holder,
free only of pointers returned by the heap, each chain submitted once. Where a comment and the code differ the model
follows the code: `pmm_init` sizes the bitmap by every entry of the memory map, its comment speaks of usable ones.

## Model

| member | source | states |
|---|---|---|
| `Bits.WithBitBit` | kernel/mm/pmm.c:22-24 | setting bit i of a word changes no other bit |
| `Bits.WithoutBitBit` | kernel/mm/pmm.c:26-28 | clearing bit i of a word changes no other bit |
| `Bitmaps.SetWord` | kernel/mm/pmm.c:22-24 | the 64-bit word after a set: bit i is one, every other bit as before, and still 64 bits wide |
| `Bitmaps.ClearWord` | kernel/mm/pmm.c:26-28 | the 64-bit word after a clear: bit i is zero, every other bit as before |
| `PhysicalPages.Pmm.Take` | kernel/mm/pmm.c:22-24 | taking a free page removes exactly it from the free set, and the counter still equals the number of clear bits |
| `PhysicalPages.Pmm.Release` | kernel/mm/pmm.c:26-28 | releasing a taken page adds exactly it, and the counter still equals the number of clear bits |
| `PhysicalPages.Pmm.IsTaken` | kernel/mm/pmm.c:30-32 | a bit test says exactly whether the page is outside the free set |
| `PhysicalPages.Pmm.FindFirstFree` | kernel/mm/pmm.c:35-50 | the word-skipping scan returns the least free page, or the page count when there is none |
| `PhysicalPages.Pmm.FindContiguous` | kernel/mm/pmm.c:53-67 | the run-length scan returns the least start of a run of free pages of that length, or the page count when no such run exists |
| `PhysicalPages.FindBitmapRegion` | kernel/mm/pmm.c:71-82 | the bitmap goes to the aligned start of the first usable region with room for it, which may be 0; 0 too when none has room |
| `PhysicalPages.HighestAddress` | kernel/mm/pmm.c:87-95 | the highest end of any entry of the memory map, usable or not |
| `PhysicalPages.OneRegionPerPage` | kernel/mm/pmm.c:116-129 | byte-disjoint usable regions never hold the same page, so no page is counted twice |
| `PhysicalPages.Pmm.FreeUsable` | kernel/mm/pmm.c:116-129 | after the third pass exactly the pages inside usable regions are free |
| `PhysicalPages.Pmm.ReserveBitmap` | kernel/mm/pmm.c:131-146 | exactly page 0 and the pages under the bitmap are taken back |
| `PhysicalPages.HomeIsZero` | kernel/mm/pmm.c:71-107 | the search yields 0, and start-up panics, exactly when no usable region fits or the first that fits begins at address 0 |
| `PhysicalPages.PageInside` | kernel/mm/pmm.c:116-129 | the third pass takes a page into a region exactly when every byte of the page lies in it |
| `PhysicalPages.HomeHasRoom` | kernel/mm/pmm.c:71-107 | a bitmap placed at a non-zero address lies page-aligned inside one usable region, in bytes |
| `PhysicalPages.BootPages` | kernel/mm/pmm.c:84-151 | the pages the passes leave free are exactly those whose every byte is usable, page 0 and pages that a byte of the bitmap touches excepted |
| `PhysicalPages.RoomAtZeroIsNotUsed` | kernel/mm/pmm.c:71-107 | witness: one usable region of 256 MiB from address 0 has room for the bitmap and the search still yields 0 |
| `PhysicalPages.Init` | kernel/mm/pmm.c:84-151 | from any byte-disjoint memory map a page is free afterwards exactly when all its bytes are usable memory, it is not page 0 and no byte of the bitmap, one bit per page in whole words, lies in it; the bitmap lies inside a usable region; the panic happens exactly when no region fits or the first fitting one begins at address 0 |
| `PhysicalPages.Pmm.AllocPage` | kernel/mm/pmm.c:153-165 | hands out the least free page and removes exactly it; 0 exactly when nothing is free, so page 0 is never handed out |
| `PhysicalPages.Pmm.FreePage` | kernel/mm/pmm.c:167-177 | adds exactly the page named; page 0, pages out of range and pages already free change nothing |
| `PhysicalPages.Pmm.AllocContiguous` | kernel/mm/pmm.c:179-193 | hands out the least run of that length and removes exactly it; 0 exactly when the count is 0 or no run exists |
| `Pte.MadePteDecodes` | kernel/mm/vmm.c:52-67 | an entry made from a frame and flags reads back as present, that frame, and those flags cut down to writable, user and no-execute |
| `PageTables.PageOfAddress` | kernel/mm/vmm.c:83-95 | four 9-bit indices and the address they came from determine each other in the user half |
| `PageTables.SamePage` | kernel/mm/vmm.c:83-95 | two user addresses walk to the same entry exactly when they differ only in their low 12 bits |
| `PageTables.AddTable` | kernel/mm/vmm.c:71-79 | linking a zeroed free frame as a table keeps the tree well-formed and the page map unchanged |
| `PageTables.WriteLeaf` | kernel/mm/vmm.c:213-227 | writing a leaf entry keeps the tree well-formed and changes the page map at that page only |
| `CpuWalk.EntryBits` | kernel/mm/vmm.c:52-67 | bit by bit, an entry made from a frame and flags is present, holds the frame in bits 12 to 51, and has writable, user and no-execute as asked |
| `CpuWalk.Level` | kernel/mm/vmm.c:71-79 | every entry above a leaf names the next table or is absent, and takes away neither write, user nor execute permission |
| `CpuWalk.WalkAgrees` | kernel/mm/vmm.c:83-95 | a processor that follows raw bits of raw words through four levels, combining the rights of every level, reaches at every user address exactly what the page map says, rights included |
| `VirtualMemory.Vmm.EnsureTable` | kernel/mm/vmm.c:71-79 | the next-level table exists afterwards; only this space grew, by at most one free frame; failure means the allocator is empty. The tree stays well-formed, which fixes the bits of every table entry (`CpuWalk.Level`) |
| `VirtualMemory.EnoughPages` | kernel/mm/vmm.c:71-79 | adding tables one free page each succeeds exactly when the missing ones are no more than the free pages |
| `VirtualMemory.Vmm.WalkToPt` | kernel/mm/vmm.c:83-95 | finds the page table exactly when every level above it exists |
| `VirtualMemory.Vmm.MapPageIn` | kernel/mm/vmm.c:213-220 | afterwards the processor's walk over raw bits reaches that physical byte with the write, user and execute rights asked for; the page map changes at this address's page only; other spaces keep their memory; the panic happens exactly when more tables are missing on the way than pages are free, and leaves none free |
| `VirtualMemory.Vmm.UnmapPageIn` | kernel/mm/vmm.c:222-227 | afterwards the processor's walk faults at this address; the page map loses this page only |
| `VirtualMemory.Vmm.GetPhysIn` | kernel/mm/vmm.c:229-233 | answers what the processor's walk and the plain page map give at every user address, offset included; 0 when unmapped |
| `VirtualMemory.Vmm.CreateUserPml4` | kernel/mm/vmm.c:181-193 | a new space with all 256 user entries empty and the 256 upper ones the kernel's, out of one free frame |
| `VirtualMemory.Vmm.KernelEverywhere` | kernel/mm/vmm.c:181-193 | in every reachable state the upper half of every space is, entry by entry, the kernel's |
| `VirtualMemory.HitMapped` | kernel/mm/vmm.c:213-220 | a page in the page map is found by the processor's walk at every one of its addresses, with its rights |
| `VirtualMemory.OtherPagesKeepTranslation` | kernel/mm/vmm.c:213-233 | through any sequence of map and unmap calls, an address on no page they name keeps its translation |
| `VirtualMemory.RunCalls` | kernel/mm/vmm.c:213-233 | the tree refines the plain page map over every sequence of map and unmap calls; it fails exactly when the missing tables of all its map calls outnumber the free pages, and then memory is used up and the page map is that of a prefix |
| `Ownership.OwnsAfterGrow` | kernel/mm/vmm.c:71-79 | every page stays in exactly one place (free, held, table or leaf) when a space gains tables |
| `Ownership.OwnsAfterMap` | kernel/mm/vmm.c:213-220 | mapping a held page moves it from the caller to the space, every other page stays where it was |
| `Ownership.OwnsAfterUnmap` | kernel/mm/vmm.c:222-227 | unmapping moves the frame back to the caller, every other page stays where it was |
| `AddressSpaces.AllReturned` | kernel/mm/vmm.c:312-326 | when no space is left, exactly the pages not held are free |
| `AddressSpaces.MapHeld` | kernel/mm/vmm.c:213-220 | mapping a page the caller holds keeps every page accounted for; it fails exactly when the missing tables outnumber the free pages |
| `AddressSpaces.UnmapHeld` | kernel/mm/vmm.c:222-227 | unmapping keeps every page accounted for; the frame goes to the caller |
| `AddressSpaces.CreateSpace` | kernel/mm/vmm.c:181-193 | creating a space keeps every page accounted for |
| `Teardown.PassTable` | kernel/mm/vmm.c:303-326 | the walk frees each table frame once: it was not free before and is after |
| `Teardown.PassLeaf` | kernel/mm/vmm.c:292-300 | the walk frees each leaf frame once |
| `Teardown.FreePtAndLeaves` | kernel/mm/vmm.c:292-300 | the leaves and the table of one page table become free, nothing else |
| `Teardown.FreePdAndChildren` | kernel/mm/vmm.c:303-310 | everything below one directory, and it, becomes free, nothing else |
| `Teardown.FreePdEntries` | kernel/mm/vmm.c:98-103 | the page tables below one directory, and it, become free; leaves stay |
| `Teardown.FreeTree` | kernel/mm/vmm.c:312-326 | the whole walk frees exactly the tables of the space, and its leaves when asked to |
| `Teardown.FreeUserPages` | kernel/mm/vmm.c:312-326 | the space disappears and exactly its tables and leaves join the free set, each once |
| `Teardown.DestroyUserPml4` | kernel/mm/vmm.c:195-211 | the space disappears and exactly its tables join the free set; its leaf frames stay taken |
| `Fork.CopyStep` | kernel/mm/vmm.c:239-249 | copying one page advances the invariant of the fork walk: exactly the parent's pages before this point have been copied |
| `Fork.ForkCopyPage` | kernel/mm/vmm.c:239-249 | one page copied to a free frame with equal bytes and flags; otherwise nothing is free and memory ran out on that page or on a table above it |
| `Fork.CopyPt` | kernel/mm/vmm.c:251-289 | the innermost loop copies exactly the pages of one page table, or stops at a page of the parent with nothing free |
| `Fork.CopySpace` | kernel/mm/vmm.c:251-289 | the four nested loops copy exactly the user pages of the parent, or stop at one of them with nothing free |
| `ForkCost.Count` | kernel/mm/vmm.c:181-326 | free pages, held pages, tables and leaves of a well-formed state add up to all pages there are |
| `ForkCost.CostOfOne` | kernel/mm/vmm.c:239-249 | copying one more page costs one frame and one for each table missing above it |
| `ForkCost.SameCost` | kernel/mm/vmm.c:251-289 | a copy costs the same wherever its root lies |
| `ForkCost.EndOnATable` | kernel/mm/vmm.c:71-79 | memory that runs out among the tables above one page can run out on no page, and the copy does not fit |
| `Fork.Spent` | kernel/mm/vmm.c:251-289 | when the walk has come to a point, the pages taken are one for each page before it and one for each table above such a page |
| `Fork.RanOut` | kernel/mm/vmm.c:239-249 | a panic on a table means the free pages lay strictly between the cost before the page and the cost with it |
| `Fork.ForkAddressSpace` | kernel/mm/vmm.c:251-289 | on success the processor's walk gives at every user address of the child what it gives in the parent, fault or rights and byte, in another frame; the child maps exactly the parent's pages, each in a frame that was free, with equal bytes and flags, the kernel half equal, and the parent's mapping and contents untouched. Success happens exactly when pages and the tables above them fit in the free pages; out of memory exactly when they run out just as a page is to be copied, and then every space is as it was and exactly the copies made stay taken; a panic otherwise, with nothing free |
| `Fork.ForkedView` | kernel/mm/vmm.c:251-289 | when the page maps are copies, the walk over raw bits in the child faults where the parent's did and elsewhere has equal rights, a frame of its own and equal memory |
| `Lifecycle.ForkStep` | kernel/mm/vmm.c:251-289 | a fork ends as the pages alive and the number of free pages decide, and loses exactly the copies of a failed one |
| `Lifecycle.Step` | kernel/mm/vmm.c:181-326 | one create, take, map, unmap, fork, free or release takes the state where the step relation says, with the outcome decided by the state before; every page stays accounted for and only a failed fork loses any |
| `Lifecycle.GiveBack` | kernel/mm/vmm.c:312-326 | tearing down what is left returns every frame but those lost before |
| `Lifecycle.Run` | kernel/mm/vmm.c:181-326 | over any script, with the trace of its states and outcomes: a panic comes only with nothing free; otherwise giving everything back leaves the allocator short of exactly the copies that failed forks left behind, one for one, and of nothing when no fork failed |
| `HeapList.TightSum` | kernel/mm/kmalloc.c:60-165 | headers plus sizes sum to the mapped size |
| `HeapList.AllFreeIsOneBlock` | kernel/mm/kmalloc.c:192-217 | with the head rule, a heap with no allocated block is a single free block over the whole mapped range |
| `HeapList.Coalesce` | kernel/mm/kmalloc.c:112-123 | the block keeps its address and swallows every free block after it |
| `HeapList.CoalesceLayout` | kernel/mm/kmalloc.c:112-123 | merging keeps blocks ordered, aligned, disjoint and without gaps |
| `HeapList.AllocateKeeps` | kernel/mm/kmalloc.c:82-109 | allocating from a free block keeps layout, gaplessness and head rule and adds exactly one allocated block |
| `HeapList.FreeKeeps` | kernel/mm/kmalloc.c:192-217 | freeing keeps layout, gaplessness and head rule and removes exactly its block from the allocated ones |
| `HeapList.ShrinkKeeps` | kernel/mm/kmalloc.c:219-256 | shrinking in place keeps layout and the other allocated blocks |
| `HeapList.WidenKeeps` | kernel/mm/kmalloc.c:219-256 | growing in place keeps layout and the other allocated blocks |
| `HeapList.ExtendKeeps` | kernel/mm/kmalloc.c:126-165 | growing the heap keeps layout and every allocated block |
| `HeapHeaders.SplitRepr` | kernel/mm/kmalloc.c:82-98 | the header writes of a split spell the split list, next and prev inverse |
| `HeapHeaders.AbsorbRepr` | kernel/mm/kmalloc.c:112-123 | the header writes of a merge spell the merged list, next and prev inverse |
| `HeapBytes.DecodeKept` | kernel/mm/kmalloc.c:24-30 | a header decoded from its bytes is unchanged by writes elsewhere |
| `HeapBytes.PayloadsKept` | kernel/mm/kmalloc.c:82-165 | in a laid-out heap, writes confined to headers change no byte of any block's payload |
| `HeapBytes.HeadersKept` | kernel/mm/kmalloc.c:167-217 | a write inside one block's payload changes no header |
| `HeapSpec.MallocKeeps` | kernel/mm/kmalloc.c:167-190 | an allocation keeps the layout, adds one new block at the pointer, large enough; it answers 0 exactly for size 0 or when nothing fits and the pages needed are not to be had |
| `HeapSpec.ReallocKeeps` | kernel/mm/kmalloc.c:219-256 | every branch of a resize keeps the layout, and gaplessness unless its request was refused |
| `HeapSpec.OthersStay` | kernel/mm/kmalloc.c:167-256 | a call leaves every allocation it does not name allocated, same address, same size |
| `HeapSpec.EveryRun` | kernel/mm/kmalloc.c:167-256 | every run of calls keeps the layout; if no request in it was refused the heap has no gaps, and once nothing is allocated it is one free block over the whole mapped range |
| `HeapEffects.MallocDid` | kernel/mm/kmalloc.c:167-190 | an allocation adds one pair of address and size to the allocated ones and takes none away; it lies in the lowest free block that holds it, and grows the heap only when there is none, by the whole pages the request and a spare header need; a refusal changes no allocation and means no block fits and pages have run out |
| `HeapEffects.FreeDid` | kernel/mm/kmalloc.c:192-217 | a free takes exactly the pair it names from the allocated ones |
| `HeapEffects.StaysWhen` | kernel/mm/kmalloc.c:219-256 | a resize stays put exactly when the block, or the block and the one free block after it, holds the request |
| `HeapEffects.ReallocDid` | kernel/mm/kmalloc.c:219-256 | a resize replaces exactly its pair by one at the address returned, of a size that holds the request; the address is the old one exactly when the place suffices; a refusal changes no allocation |
| `HeapEffects.EveryCallDid` | kernel/mm/kmalloc.c:167-256 | every call, in every well-formed heap, does to the set of allocated blocks what is said above, with no reference to how lists are split, merged or grown |
| `KernelHeap.Heap.constructor` | kernel/mm/kmalloc.c:60-79 | four pages become one free block, its header written in memory |
| `KernelHeap.Heap.WriteHeader` | kernel/mm/kmalloc.c:82-98 | the bytes written decode to the header meant, and no byte outside the header changes |
| `KernelHeap.Heap.Load` | kernel/mm/kmalloc.c:167-190 | the five fields read from memory are the header the list stands for |
| `KernelHeap.Heap.SplitBlock` | kernel/mm/kmalloc.c:82-98 | memory decodes to the split list, and only header bytes were written |
| `KernelHeap.Heap.AbsorbBlock` | kernel/mm/kmalloc.c:112-123 | memory decodes to the merged list, only header bytes were written, and the header merged away is poisoned |
| `KernelHeap.Heap.CoalesceForward` | kernel/mm/kmalloc.c:112-123 | the loop merges exactly the free run after the block; only header bytes were written, so every payload is as before |
| `KernelHeap.Heap.Grow` | kernel/mm/kmalloc.c:38-53 | maps all pages asked for, or on failure all there is room for |
| `KernelHeap.Heap.GrowFor` | kernel/mm/kmalloc.c:126-165 | ends with a free last block that is the first fit, only header bytes written, or 0 exactly when the pages run out, memory as it was |
| `KernelHeap.Heap.Search` | kernel/mm/kmalloc.c:167-190 | the first block that fits, 0 exactly when none does |
| `KernelHeap.Heap.BlockAllocate` | kernel/mm/kmalloc.c:101-109 | block allocated, split when large enough, zeroed when asked; the new header and the zeroes touch no other allocation's bytes |
| `KernelHeap.Heap.Kmalloc` | kernel/mm/kmalloc.c:167-190 | adds exactly one allocated block, at the pointer returned and large enough, from the lowest fit, growing only when nothing fits; header writes and zeroing leave every other allocation's bytes alone; zeroed when asked |
| `KernelHeap.Heap.Kfree` | kernel/mm/kmalloc.c:192-217 | the block leaves the allocated ones and no other does; its payload is all poison; null and already free blocks write nothing; poison and merges leave every remaining allocation's bytes alone |
| `KernelHeap.Heap.ReallocInPlace` | kernel/mm/kmalloc.c:219-256 | stays in place exactly when the block is large enough or the one block after it is free and makes it so; the first min(old, new) bytes and every other allocation's bytes are kept |
| `KernelHeap.Heap.Krealloc` | kernel/mm/kmalloc.c:219-256 | the block is replaced by one that holds the request, at the same address exactly when that place suffices, and no other allocation changes; null acts as allocate, size 0 as free, failure changes no payload; the first min(old, new) bytes and every other allocation's bytes are kept |
| `HeapRuns.Step` | kernel/mm/kmalloc.c:167-256 | one call, null arguments included, ends in the specified state with the specified answer; allocations it does not name keep their bytes |
| `HeapRuns.Run` | kernel/mm/kmalloc.c:167-256 | any run of calls ends in the specified state; allocations no call names keep their bytes throughout; with no refused request, once nothing is allocated the heap is one free block over the whole mapped range |
| `FatTable.FreeIsUnowned` | kernel/fs/fat32.c:97-106 | a free entry belongs to no chain |
| `FatTable.TakenForest` | kernel/fs/fat32.c:97-106 | a newly taken cluster is a one-cluster chain and all other chains stay |
| `FatTable.ExtendedForest` | kernel/fs/fat32.c:117-125 | appending a cluster keeps all chains acyclic, disjoint and end-marked |
| `FatTable.FreedFrom` | kernel/fs/fat32.c:108-115 | freeing terminates on any table, cyclic ones included, keeps the reserved high bits and only ever turns entries free |
| `FatTable.FreedChain` | kernel/fs/fat32.c:108-115 | on a chain it frees exactly that chain's entries |
| `FatTable.FreedForest` | kernel/fs/fat32.c:108-115 | freeing one file's chain leaves every other chain and adds exactly its clusters to the free ones |
| `FatTable.CutForest` | kernel/fs/fat32.c:677-705 | cutting after keep clusters leaves exactly that prefix and frees exactly the rest |
| `FatTable.OneChainChanged` | kernel/fs/fat32.c:97-125 | the lengths of all chains change in total by the change of the one rewritten |
| `FatTable.Conserved` | kernel/fs/fat32.c:97-125 | free entries plus the lengths of all chains stay constant when clusters move between the free ones and one chain |
| `FatData.Apart` | kernel/fs/fat32.c:65-67 | different clusters occupy separate stretches of the device |
| `FatData.Tiling` | kernel/fs/fat32.c:65-67 | the clusters tile the data region: number 2 begins at its first sector, each ends where the next begins, the last ends with the region |
| `FatData.FileByte` | kernel/fs/fat32.c:254-297 | byte i of a file is the device's byte at place i mod b of cluster number i / b of its chain, for b bytes per cluster, counted in sectors from the start of the data region |
| `FatData.PutGet` | kernel/fs/fat32.c:85-93 | a written cluster reads back and no other cluster changes |
| `FatData.BytesPatched` | kernel/fs/fat32.c:306-384 | rewriting part of one cluster patches the file's byte array at that place and nowhere else |
| `Fat32.Volume.AllocCluster` | kernel/fs/fat32.c:97-106 | the lowest free cluster, end-marked; 0 exactly when none is free |
| `Fat32.Volume.ExtendChain` | kernel/fs/fat32.c:117-125 | the file's chain gains one cluster at its end; every other chain stays; free entries plus the lengths of all chains are conserved |
| `Fat32.Volume.FreeChain` | kernel/fs/fat32.c:108-115 | always ends and does to the table what the specification says, whatever the table holds |
| `Fat32.Volume.Truncate` | kernel/fs/fat32.c:677-705 | size 0 frees the chain; a shrink leaves exactly the first ceil(size/bpc) clusters of a chain that long; otherwise nothing changes; free entries plus the lengths of all chains are conserved |
| `Fat32.Volume.ReadChain` | kernel/fs/fat32.c:254-297 | returns the file's bytes from the offset, as many as exist up to the size asked; each is the device's byte at its place in its cluster, found by sector arithmetic |
| `Fat32.ExactRoom` | kernel/fs/fat32.c:306-384 | clusters spent and bytes reached decide that a write found room exactly when the clusters it needs are no more than the file's and the free ones |
| `Fat32.Volume.WriteChain` | kernel/fs/fat32.c:306-384 | the file's byte array is the old one, zero-extended, with the data written at the offset, every byte of it at its place on the device; no cluster of another file changes. It is refused exactly when the clusters needed exceed the file's and the free ones together; then all of those are used and the data written reaches to the end of them. Free entries plus the lengths of all chains are conserved |
| `Fat32.OthersKept` | kernel/fs/fat32.c:306-384 | every other file has the same clusters and the same contents after a write |
| `Fat32.WriteThenRead` | kernel/fs/fat32.c:254-384 | a successful write, which is one with room enough, followed by any read sees the file's contents: the written range as given, earlier bytes elsewhere unchanged, newly covered bytes zero |
| `FatNodes.RecordReadsBack` | kernel/fs/fat32.c:76-83 | size and first cluster put in a directory entry are read back from it, and its other fields stay |
| `FatNodes.RecordedInFields` | kernel/fs/fat32.h:62-75 | byte by byte, the entry changes only in the two halves of the first cluster and the size, at the places the field widths give, low byte first |
| `FatNodes.FileNode.UpdateEntry` | kernel/fs/fat32.c:387-400 | the entry in the directory's bytes is replaced, no cluster is allocated, and no other byte of any file changes; only a failed temporary allocation leaves it alone |
| `FatNodes.FileNode.Read` | kernel/fs/fat32.c:494-502 | the file's bytes from the offset, up to the size asked and the file's end |
| `FatNodes.FileNode.Write` | kernel/fs/fat32.c:504-527 | the size reaches to the end of the data, the contents are the old ones zero-extended and patched, the entry records size and first cluster, every other file's contents stay; refused exactly for want of clusters, with size and entry as before |
| `FatNodes.FileNode.Truncate` | kernel/fs/fat32.c:677-715 | the file becomes its first bytes up to the new size and is never extended, the entry records it, every other file's contents stay |
| `FatNodes.GapReadsZero` | kernel/fs/fat32.c:306-384 | after a write past the end the file is the old one extended with zeroes and patched, exactly when the gap held no earlier bytes |
| `FatNodes.StaysClean` | kernel/fs/fat32.c:306-384 | a successful write keeps the bytes after the file's end zero |
| `FatNodes.RecordedAfter` | kernel/fs/fat32.c:504-527 | entry and node agree after a call exactly when the entry was updated or neither size nor first cluster changed |
| `FatNodes.RefusedWrite` | kernel/fs/fat32.c:504-509 | a refused write leaves the entry out of date exactly when the file was empty and a cluster was free |
| `FatNodes.WriteThenReadFile` | kernel/fs/fat32.c:494-527 | after a successful write any read sees the file as it then is, the entry records it, and the gap condition above decides whether it is the old file extended with zeroes |
| `Scheduling.AddKeeps` | kernel/proc/sched.c:41-44 | a new or continued thread joins the run queue and every thread is still in the one place its state says |
| `Scheduling.SleepKeeps` | kernel/proc/waitqueue.c:10-34 | going to sleep keeps every thread in the one place its state says |
| `Scheduling.WakeKeeps` | kernel/proc/waitqueue.c:36-55 | waking, also of a thread that has not yielded yet, keeps every thread in the one place its state says |
| `Scheduling.ScheduleKeeps` | kernel/proc/sched.c:72-114 | a scheduling step keeps every thread in the one place its state says, and idle in none |
| `Scheduling.SleepEffect` | kernel/proc/waitqueue.c:10-34 | only this queue gains a waiter; woken threads of other queues stay woken |
| `Scheduling.WakeEffect` | kernel/proc/waitqueue.c:36-55 | the oldest waiter becomes a woken contender; other queues see nothing |
| `Interleavings.HaltedKeeps` | kernel/proc/signal.c:84-95 | a stopping process leaves all queues, its parent may be woken, placement is kept |
| `Interleavings.SleepSync` | kernel/proc/mutex.c:10-22 | sleeping on an owned mutex or an empty semaphore loses no wake-up |
| `Interleavings.AcquireSync` | kernel/proc/mutex.c:10-41 | taking a free mutex makes one holder |
| `Interleavings.UnlockSync` | kernel/proc/mutex.c:24-30 | an unlock with waiters leaves a woken contender |
| `Interleavings.TakeUnitSync` | kernel/proc/semaphore.c:10-39 | a completed wait keeps count = initial + posts - waits and a contender per remaining unit |
| `Interleavings.PostSync` | kernel/proc/semaphore.c:23-28 | a post with waiters adds a woken contender for the new unit |
| `Interleavings.WakeAllOtherInv` | kernel/proc/waitqueue.c:57-74 | waking everyone keeps the invariant |
| `Interleavings.StopInv` | kernel/proc/signal.c:84-95 | stopping keeps the invariant |
| `Interleavings.ContinueInv` | kernel/proc/signal.c:98-103 | continuing a stopped process keeps the invariant |
| `Interleavings.ExitInv` | kernel/arch/x86_64/syscall.c:100-114 | exiting, or being terminated by a signal, keeps the invariant |
| `Interleavings.InvStep` | kernel/proc/sched.c:41-114 | every step of every thread and every interrupt keeps the whole invariant |
| `SchedulerRuns.RunInv` | kernel/proc/sched.c:41-114 | the invariant holds after every legal sequence of steps |
| `SchedulerRuns.QueuesExclusive` | kernel/proc/waitqueue.c:10-74 | no thread is in two queues; idle and stopped threads are in none |
| `SchedulerRuns.WokenRunnable` | kernel/proc/waitqueue.c:36-74 | a woken contender is ready or running: nobody has to wake it again |
| `SchedulerRuns.EveryInterleaving` | kernel/proc/mutex.c:10-41 | after every interleaving from boot: at most one queue per thread, at most one holder per mutex, a free mutex with waiters has a runnable contender, and semaphore counts balance with at least count contenders while threads wait |
| `SchedulerRuns.SemHistory` | kernel/proc/semaphore.c:10-39 | the count after any run is the count before plus the posts made minus the waits completed |
| `SchedulerRuns.Advances` | kernel/proc/sched.c:72-114 | a step that reschedules moves a ready thread up by one or dispatches it; no other step moves it |
| `SchedulerRuns.Dispatched` | kernel/proc/sched.c:72-114 | a thread at position k of the run queue is dispatched at the (k+1)-th scheduling call of any run |
| `StepEffects.WakeAllDoes` | kernel/proc/waitqueue.c:57-74 | waking everyone appends the whole queue to the run queue in its order, makes each of them ready, empties that queue and no other |
| `StepEffects.TickDoes` | kernel/proc/sched.c:72-114 | a scheduling step dispatches the head of the run queue, the idle thread when it is empty, and puts a thread that still runs at its end |
| `StepEffects.EveryStepDoes` | kernel/proc/sched.c:41-114 | for every operation, in terms of queues and states alone: who joins the run queue and in what order, who leaves which wait queue, whose state becomes what, what the mutexes and counts are, and that nothing else changes |
| `StepEffects.ParentIsUp` | kernel/proc/signal.c:84-95 | a parent waiting for its child is out of every wait queue and ready or running once the child stops or ends, and those behind it still wait in order |
| `ThreadQueues.ChainFrame` | kernel/proc/sched.c:16-35 | a list is untouched by link changes of threads outside it |
| `ThreadQueues.ThreadQueue.Push` | kernel/proc/sched.c:16-24 | the list of threads linked from head gains one at its end; no thread outside is touched |
| `ThreadQueues.ThreadQueue.Pop` | kernel/proc/sched.c:26-35 | the first thread comes off and the rest stay linked in order; null exactly when empty |
| `ThreadQueues.ThreadQueue.PopHead` | kernel/proc/waitqueue.c:62-70 | the turn of the wake-all loop that leaves the tail stale still links the rest in order |
| `ThreadQueues.ThreadQueue.Remove` | kernel/proc/sched.c:46-66 | the list loses its first occurrence of the thread, wherever it is, and stays linked with the right tail |
| `ThreadQueues.SetWaitMatch` | kernel/proc/waitqueue.c:10-74 | changing one wait queue through the shared link field leaves the run queue and all other wait queues linked as they were |
| `SchedulerCode.System.constructor` | kernel/proc/sched.c:122-125 | the objects start out standing for the boot state |
| `SchedulerCode.System.StandsFor` | kernel/proc/sched.c:16-114 | what it means that objects stand for an abstract state, field by field: each thread's state, each list as met by following links from its head to its tail, each owner, each count |
| `SchedulerCode.System.AddThread` | kernel/proc/sched.c:41-44 | thread state and links stand for the abstract run queue with the thread appended |
| `SchedulerCode.System.Schedule` | kernel/proc/sched.c:72-114 | the in-place code refines the abstract scheduling step on every branch |
| `SchedulerCode.System.SleepOn` | kernel/proc/waitqueue.c:10-34 | the in-place code refines the abstract sleep |
| `SchedulerCode.System.WakeOne` | kernel/proc/waitqueue.c:36-55 | the in-place code refines the abstract wake and reports whether someone was woken |
| `SchedulerCode.System.WakeEveryone` | kernel/proc/waitqueue.c:57-74 | the loop refines the abstract wake-all and counts the threads woken |
| `SchedulerCode.System.LockTurn` | kernel/proc/mutex.c:10-22 | one turn of the lock loop refines the abstract lock step |
| `SchedulerCode.System.TryLock` | kernel/proc/mutex.c:32-41 | takes the mutex exactly when it is free, -1 otherwise |
| `SchedulerCode.System.Unlock` | kernel/proc/mutex.c:24-30 | refines the abstract unlock |
| `SchedulerCode.System.SemWaitTurn` | kernel/proc/semaphore.c:10-21 | one turn of the wait loop refines the abstract step |
| `SchedulerCode.System.SemTryWait` | kernel/proc/semaphore.c:30-39 | takes a unit exactly when one is available, -1 otherwise |
| `SchedulerCode.System.SemPost` | kernel/proc/semaphore.c:23-28 | refines the abstract post |
| `SchedulerCode.System.Stop` | kernel/proc/signal.c:84-95 | the process is marked stopped and its thread is in no queue; the oldest thread waiting on the parent's queue, if there is one, is ready and out of it, those behind keep their order, no other queue changes, and the head of the run queue is dispatched |
| `SchedulerCode.System.Continue` | kernel/proc/signal.c:98-103 | refines the abstract continue; a process that is not stopped is left alone |
| `SchedulerCode.System.Exit` | kernel/arch/x86_64/syscall.c:100-114 | the thread is dead and in no queue; the oldest thread waiting on the parent's queue, if there is one, is ready and out of it, those behind keep their order, no other queue changes, and the head of the run queue is dispatched |
| `SchedulerCode.System.Step` | kernel/proc/sched.c:41-114 | the code of any operation does to the objects what the abstract step does to the abstract state, and that is the effect on queues, states, owners and counts said in `StepEffects` |
| `SchedulerCode.System.Run` | kernel/proc/sched.c:41-114 | running any legal sequence of operations on the objects ends in the abstract run's final state |
| `DescriptorLists.Descriptors.constructor` | kernel/drivers/virtio.c:123-129 | all descriptors on the free list, in order, and counted |
| `DescriptorLists.Descriptors.AllocDesc` | kernel/drivers/virtio.c:149-157 | the head of the free list becomes a chain of one; the sentinel exactly when the list is empty |
| `DescriptorLists.Descriptors.FreeChain` | kernel/drivers/virtio.c:159-174 | the chain's descriptors go to the front of the free list in reverse order, every other chain stays, and the count is the list length |
| `DescriptorLists.Partition` | kernel/drivers/virtio.c:124-174 | every descriptor is on the free list or in exactly one chain |
| `Counters.WrapMod` | kernel/drivers/virtio.c:181-182 | a counter that wraps at a multiple of the ring size addresses the same slot as one that does not |
| `Counters.RingPush` | kernel/drivers/virtio.c:176-193 | adding an entry overwrites no pending slot, across counter wrap |
| `Counters.RingPop` | kernel/drivers/virtio.c:195-208 | the wrapping counters differ exactly when something is pending, and then the reader's slot holds the oldest entry |
| `VirtqueueRuns.GiveHead` | kernel/drivers/virtio.c:176-193 | a chain handed to the available ring always finds room there |
| `VirtqueueRuns.ReturnHead` | kernel/drivers/virtio.c:200-208 | a chain handed to the used ring always finds room there |
| `VirtqueueRuns.MovesOut` | kernel/drivers/virtio.c:176-193 | a submit moves the chain from the driver to the available ring and no other chain |
| `VirtqueueRuns.MovesToDevice` | kernel/drivers/virtio.c:176-193 | the device takes the oldest offered chain and no other chain moves |
| `VirtqueueRuns.MovesBack` | kernel/drivers/virtio.c:200-208 | a chain returned goes from the device to the used ring and no other moves |
| `VirtqueueRuns.MovesHome` | kernel/drivers/virtio.c:195-208 | a pop brings the oldest answered chain to the driver and no other moves |
| `VirtqueueRuns.FreeMoves` | kernel/drivers/virtio.c:159-174 | a freed chain is in no hand, all its descriptors and no others have become free, other chains stay |
| `VirtqueueRuns.LinkMoves` | kernel/drivers/virtio_blk.c:89-99 | linking appends the second chain to the first; no descriptor is lost and no other chain moves |
| `VirtqueueRuns.Channel.SubmitChain` | kernel/drivers/virtio.c:176-193 | a submitted chain leaves the driver's hands and joins the history at its end |
| `VirtqueueRuns.Channel.PopChain` | kernel/drivers/virtio.c:195-208 | the driver gets back exactly the oldest returned head, none exactly when all are popped |
| `VirtqueueRuns.Channel.FreeIdle` | kernel/drivers/virtio.c:159-174 | a chain in the driver's hands is freed and no ring entry refers to it |
| `VirtqueueRuns.Channel.LinkChains` | kernel/drivers/virtio_blk.c:89-99 | two chains the driver holds become one, header first, with the descriptor written as given; nothing else moves |
| `VirtqueueRuns.Channel.FillTail` | kernel/drivers/virtio_blk.c:101-105 | the last descriptor of a chain the driver holds is written as given and still ends the chain |
| `VirtqueueRuns.Channel.Run` | kernel/drivers/virtio.c:124-208 | any interleaving of driver and device, with chains of any length and over any number of wraps, ends in the state its steps describe and keeps the partition, the rings and the hand-over discipline |
| `VirtqueueRuns.Channel.EachOnce` | kernel/drivers/virtio.c:176-208 | every submitted head has been popped once, or is in exactly one hand still |
| `VirtioBlk.BuildChain` | kernel/drivers/virtio_blk.c:75-108 | header, data and status descriptors linked in that order with the given addresses, lengths and flags; with fewer than three free it fails and gives back what it took |
| `VirtioBlk.FreeContiguous` | kernel/drivers/virtio_blk.c:24-27 | returns exactly the run that was allocated |
| `VirtioBlk.Poll` | kernel/drivers/virtio_blk.c:167-170 | the timeout reaches zero exactly when no poll saw the device's counter move |
| `VirtioBlk.Exchange` | kernel/drivers/virtio_blk.c:153-196 | after submit, poll, timeout or completion the free descriptors are those of entry; the chain offered is header, data, status, the device writing the status always and the data exactly for a read; offered once and a used entry consumed exactly when seen |
| `VirtioBlk.CoversExactly` | kernel/drivers/virtio_blk.c:119 | the 32-bit byte count of a request is the sectors times 512 exactly below 2^23 sectors |
| `VirtioBlk.PastEndExactly` | kernel/drivers/virtio_blk.c:114 | where the 64-bit sum does not wrap, the range test refuses exactly the requests whose last sector is at or beyond the capacity |
| `VirtioBlk.PagesHold` | kernel/drivers/virtio_blk.c:128-129 | the pages allocated hold the data descriptor's bytes and one page fewer would not, or there are none and the request is refused |
| `VirtioBlk.WrappedRequest` | kernel/drivers/virtio_blk.c:114-129 | witness: a request for 2^23 + 1 sectors of a large enough disk passes the range test and offers 512 bytes |
| `VirtioBlk.Transfer` | kernel/drivers/virtio_blk.c:111-202 | on every exit the free pages and the free descriptors are those of entry; success happens exactly when pages, descriptors, an answer in time and an OK status were there, or the count was 0; by the flag bits of the chain offered the device writes the data exactly for a read; the data lies in as few free pages as hold it, covers the request exactly below 2^23 sectors, and a request past the capacity is refused |
| `BlkRuns.FreeExactly` | kernel/drivers/virtio.c:159-174 | freeing a chain keeps every chain in one hand exactly when the chain is in the driver's hand |
| `BlkRuns.StepsTell` | kernel/drivers/virtio_blk.c:164-170 | where the one chain is can be read off the device's steps: offered until a take, then with the device, answered once returned after that |
| `BlkRuns.KeptExactly` | kernel/drivers/virtio_blk.c:164-186 | a request leaves the queue quiet exactly when the device's steps before the timeout contain a take and later a return of its head, and the answer it popped was then its own |
| `BlkRuns.LateAnswer` | kernel/drivers/virtio_blk.c:167-186 | after a timeout, the next request can be completed by the answer to the one that timed out |
| `BlkRuns.Request` | kernel/drivers/virtio_blk.c:153-186 | the queue code of one request against any device steps: the discipline holds afterwards exactly when an answer was seen |
| `BlkRuns.Requests` | kernel/drivers/virtio_blk.c:111-202 | any number of requests in turn: all answered exactly when the queue ends valid, and then it is quiet with the descriptors it had |
| `BlkRuns.EveryRequestRun` | kernel/drivers/virtio_blk.c:111-202 | over any number of requests, going on after timeouts: the descriptors come back every time, as many heads stay unpopped as there were timeouts, and the queue is in order exactly when there was none |
| `PipeRefs.SetNum` | kernel/proc/fd.c:10-24 | rewriting one descriptor entry changes the number of references to an end by at most one, as the entry says |
| `PipeRefs.CloseKeeps` | kernel/fs/pipe.c:115-127 | closing an entry keeps counts equal to entries, never underflows, and frees the pipe exactly with its last entry |
| `PipeRefs.OpenKeeps` | kernel/fs/pipe.c:129-136 | a new reference keeps counts equal to entries |
| `PipeRefs.CreateKeeps` | kernel/fs/pipe.c:93-113 | a new pipe with two descriptors keeps counts equal to entries |
| `PipeRefs.NoDangling` | kernel/fs/pipe.c:115-127 | an entry in use names a pipe that exists |
| `PipeRefs.LivesWhileNamed` | kernel/fs/pipe.c:115-127 | a pipe exists exactly while some entry names one of its ends |
| `PipeRefs.NoOverflow` | kernel/fs/pipe.c:129-136 | the 32-bit counts cannot overflow with fewer than 2^26 tables |
| `Files.FileTables.PipeClose` | kernel/fs/pipe.c:115-127 | one reference less at that end; the pipe goes exactly when both counts are zero |
| `Files.FileTables.PipeAddRef` | kernel/fs/pipe.c:129-136 | one reference more at that end |
| `Files.FileTables.FdAlloc` | kernel/proc/fd.c:10-18 | the lowest entry not in use, -1 exactly when all are in use |
| `Files.FileTables.Close` | kernel/arch/x86_64/syscall.c:210-225 | clears exactly that entry and keeps counts equal to entries; the error codes on the 32-bit cast of the argument |
| `Files.FileTables.Dup` | kernel/arch/x86_64/syscall.c:731-751 | copies the entry to the lowest free one and keeps counts equal to entries; the error codes |
| `Files.FileTables.Dup2` | kernel/arch/x86_64/syscall.c:584-614 | replaces the target entry, closing what it named, and keeps counts equal to entries; same descriptor and bad descriptors change nothing |
| `Files.FileTables.MakePipe` | kernel/arch/x86_64/syscall.c:625-662 | two lowest free entries name the two ends of a new pipe; every failure leaves tables and pipes as they were |
| `Files.FileTables.ForkTable` | kernel/proc/fd.c:33-48 | the child's table is the parent's and every pipe end gained the references it carries |
| `Files.FileTables.Exit` | kernel/arch/x86_64/syscall.c:87-98 | all entries of the process are released, no other table changes, counts equal entries |
| `Files.PipesOf` | kernel/fs/pipe.c:115-136 | the descriptor tables alone determine which pipes exist and with what counts |
| `Files.AllClosed` | kernel/fs/pipe.c:115-127 | once every entry is closed no pipe is left |
| `Files.FileTables.Run` | kernel/arch/x86_64/syscall.c:584-662 | after any run of pipe, dup, dup2, fork, close and exit, the tables are those the calls describe, the counts equal the entries naming each end, and a pipe exists exactly while named |
| `PipeBuffers.PipeBuffer.ReadStretch` | kernel/fs/pipe.c:27-54 | delivers the oldest bytes, as many as there are up to the size; sleeps exactly when empty with writers; an empty result for a non-empty read exactly when empty with no writer |
| `PipeBuffers.PipeBuffer.WriteStretch` | kernel/fs/pipe.c:56-81 | accepts bytes in order up to the room left; sleeps exactly when the rest does not fit and readers exist; EPIPE or a short count exactly when no reader exists |
| `PipeBuffers.FirstInFirstOut` | kernel/fs/pipe.c:27-81 | over every interleaving, whole stretches or single bytes, what was waiting followed by what writers put is what readers were handed followed by what is waiting, at most 4096 bytes of it |
| `PipeBuffers.ByteSteps` | kernel/fs/pipe.c:27-81 | a waiting byte is handed out oldest first, and a byte is taken exactly while fewer than 4096 wait |
| `PipeBuffers.PipeBuffer.Run` | kernel/fs/pipe.c:27-81 | the ring with its wrapping 32-bit positions does what the stream does over every interleaving of stretches and single bytes, and hands readers the same bytes |
| `Checksums.FoldCanon` | kernel/net/net_util.c:17-19 | folding the carries gives the residue mod 65535, 65535 for nonzero multiples, 0 only for 0 |
| `Checksums.OrdersAgree` | kernel/net/tcp.c:30-45 | the little-endian word sum is 256 times the big-endian one mod 65535, for every byte string, odd lengths included |
| `Checksums.SumsSwap` | kernel/net/tcp.c:30-51 | the two folded sums are byte swaps of each other |
| `Checksums.StoreSum` | kernel/net/tcp.c:97-98 | a 16-bit field at an even offset adds its value to the sum |
| `Checksums.Completes` | kernel/net/net_util.c:17-21 | a sum completed with its own checksum verifies to 0 |
| `Checksums.NetChecksum` | kernel/net/net_util.c:3-22 | the loop with its 32-bit accumulator computes the checksum, exactly up to 131072 bytes and modulo 2^32 beyond |
| `Checksums.Rfc1071Example` | kernel/net/net_util.c:3-22 | the worked example in section 3 of RFC 1071 comes out as printed there |
| `Checksums.AddWords` | kernel/net/tcp.c:36-45 | the word loop adds the little-endian sum modulo 2^32 |
| `Segments.Equivalent` | kernel/net/tcp.c:19-52 | the TCP checksum is the byte swap of the Internet checksum over pseudo-header and segment |
| `Segments.PseudoBytes` | kernel/net/tcp.c:19-34 | byte by byte: both addresses as stored, a zero, protocol 6 and the length, high byte first |
| `Segments.TcpChecksum` | kernel/net/tcp.c:19-52 | the code computes that checksum for every segment up to the IPv4 limit |
| `Segments.StoredVerifies` | kernel/net/tcp.c:97-98 | storing the TCP checksum in its zeroed field makes verification yield 0 |
| `Segments.NetStoredVerifies` | kernel/net/ipv4.c:73-74 | storing the header checksum in its zeroed field makes verification yield 0 |
| `Segments.TcpRx` | kernel/net/tcp.c:54-65 | delivers exactly segments with a sane header length and a verifying checksum |
| `Segments.TcpSend` | kernel/net/tcp.c:73-98 | for payloads up to 1460 bytes, builds a segment with every header field at its place in the byte order of section 3.1 of RFC 9293, which the receiver accepts for the same address pair; larger ones are refused |
| `Segments.Ipv4Send` | kernel/net/ipv4.c:54-78 | builds a packet with every header field at its place in network byte order, whose header verifies and which carries the payload; larger than the MTU is refused |
| `Segments.AddressSum` | kernel/net/tcp.c:19-34 | an address adds to the checksum what it is modulo 65535 |
| `Segments.OtherSource` | kernel/net/tcp.c:54-65 | a segment summed for one source address verifies for another exactly when the two agree modulo 65535 |
| `Segments.UnboundAnswerFails` | kernel/net/socket.c:434-453 | witness: what a socket bound to address 0 sends over the interface 10.0.2.15 does not verify at the receiver |
| `Segments.Transmit` | kernel/net/tcp.c:73-102 | from payload to wire: the packet carries the interface's address and its header verifies; the segment, summed for the socket's address and tested for the packet's, is accepted exactly when the two agree modulo 65535 |
| `Packing.StrungAt` | kernel/arch/x86_64/syscall.c:463-471 | each string packed with its terminator is found again at the total size of those before it |
| `Packing.WordRoundTrip` | kernel/arch/x86_64/syscall.c:503-511 | a 64-bit word stored byte by byte reads back |
| `Packing.LittleEndian` | kernel/arch/x86_64/syscall.c:503-511 | byte k of a stored word is the word divided by 256 to the k, modulo 256 |
| `ExecArgv.ExecArgs.CopyString` | kernel/arch/x86_64/syscall.c:465-471 | copies one string with its terminator; fails exactly when none comes before the buffer is full |
| `ExecArgv.UserRange` | kernel/include/user_access.h:11-17 | below the wrap a range is valid exactly when it is not empty, does not begin at null and ends at or below the user limit |
| `ExecArgv.ExecArgs.CopyArgv` | kernel/arch/x86_64/syscall.c:446-483 | accepts exactly the argument arrays of at most 32 strings and 4096 bytes and copies them; EINVAL and E2BIG only for a bad pointer or too much data |
| `ExecArgv.PushStrings` | kernel/arch/x86_64/syscall.c:491-498 | the strings fill the top of the stack in order, nothing below changes |
| `ExecArgv.PushPointers` | kernel/arch/x86_64/syscall.c:503-511 | the pointer array and its null word lie directly below, nothing else changes |
| `ExecArgv.SetupStack` | kernel/arch/x86_64/syscall.c:487-517 | every write is inside the 16 KB stack, strings and pointer array are disjoint, the stack pointer is 16-aligned at or below the array, and argv[i] reads back as the i-th argument with a null after the last |
| `ExecArgv.CarryArgv` | kernel/arch/x86_64/syscall.c:520-581 | what the old program passed is what the new program finds, for every argument array that fits |

## Left out

- Hardware, boot and assembly: interrupt controllers, SMP start-up, PCI and ACPI probing, context switch, TLB flushes and memory fences have no state in the model.
- Console, terminal, shell and user programs are not part of this model.
- Kernel-half mappings and 2 MB pages (`vmm_map_page`, `map_range_2mb`): only the user half and the copied kernel half are modelled.
- Lifecycle.Run: after a kernel panic only the trace so far and the empty free set are stated; the kernel does not go on.
- Teardown.FreeTree: the outer loops of `vmm_free_user_pages` and `vmm_destroy_user_pml4` are one method with a flag for freeing leaves.
- KernelHeap.Heap.Grow: a number of pages still to be had stands for the page allocator and the kernel mapping; that `vmm_map_page` may itself take a page for a table, or panic, is not modelled, so the exact conditions of failure are about that number.
- KernelHeap.Heap.Kmalloc: requests so large that the size computation would wrap are excluded by a bound; padding bytes inside a header are not given a meaning.
- FAT32 lookup, creation and removal of names, the node cache, mount and sync, and device errors: `haveBuffer` and its kin stand for the success of the temporary allocations, the device does not fail.
- Fat32.Volume.Truncate: the chain part only; `FatNodes.FileNode.Truncate` adds the directory entry. Bytes cut off in the last cluster kept are not cleared, which is why the gap condition of `FatNodes.GapReadsZero` is needed.
- `sched_lock` as a lock, condition variables and signal delivery to handlers: queue operations are atomic steps.
- Address-space and stack switching in `sched_schedule`, and the created-but-not-started thread state.
- SchedulerCode.System.SemPost: the count is an integer; runs in which it would pass 2^31 - 1 are not legal runs.
- SchedulerCode.System.LockTurn: one turn of the loop; the caller's loop around it is the sequence of steps of a run.
- Progress of pipes and of blocked writers: only safety is stated.
- DMA contents and request header bytes of the block driver.
- BlkRuns.Requests: the queue code is followed to the first timeout; what comes after one is stated on the abstract queue by `BlkRuns.EveryRequestRun`, without the ring slots a device that takes nothing would let the driver overwrite.
- VirtioBlk.Transfer: the device is a function from poll number to its counter plus a status byte; the buffers copied to and from the caller are not modelled.
- VirtqueueRuns.Channel.Run: the ring size divides 2^16, as VirtIO requires of queue sizes.
- Signal termination does not close descriptors in the source, so runs of `Files.FileTables.Run` end processes through exit only.
- Files.FileTables.ForkTable: the copy succeeds; the path on which the copy of the table cannot be allocated is left out.
- PipeRefs.NoOverflow: at most 2^26 - 1 descriptor tables, far more than memory holds.
- Segments.TcpSend: the payload length is such that the 32-bit total does not wrap; the segment is a byte sequence rather than a stack buffer.
- The rest of the network stack: TCP states, ARP, UDP, sockets, and the receive path of IPv4 after its checksum test.
- Page faults while reading a caller's argv: its memory is a total function from address to byte.
- ExecArgv.SetupStack: addresses are kept as offsets from the bottom of the stack area; the mapping of the stack pages is not part of it.
- Path normalisation, user-space malloc, string and printf helpers, devfs and procfs are not part of this model.
