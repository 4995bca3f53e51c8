# A model of the q2os kernel

q2os is a small x86_64 kernel in C. This project models the parts of it that keep
data structures and protocols in step, and proves what they promise.

* **Memory** (`Words`, `Pages`, `MemoryInit`, `Geometry`, `SlabModel`, `Slabs`, `SlabInit`, `Boot`, `PageTables`, `Brk`,
  `SmallMachine`).
  The 2 MB page bitmap with its zones, the sixteen size classes of `kmalloc` on top of it, which call
  each other for their own metadata, the way both are set up from the memory map, and the three-level
  page tables that `do_brk` builds from both; and a machine with 36 MB that runs into the ends of them.
* **FAT32** (`Sectors`, `Chains`, `Volumes`, `Fat`, `FatWrite`, `FatFiles`, `LongName`).
  Mirrored tables, cluster chains, reading, writing, the directory entry of a file and long names,
  down to the bytes of the sectors.
* **Scheduling** (`Cfs`, `Queueing`, `RunQueue`, `Kernel`, `Processor`, `KernelLists`, `ManyQueues`). One processor as a
  state machine of ticks, scheduling, sleeping, waking, semaphores, fork, exit and disk waits, with invariants over all
  runs; the same routines on the intrusive circular lists of run queue, wait queues and disk requests, each shown to
  have the effect of its event; and that what is done to one wait queue leaves the others as they are.
* **Spin lock** (`Spinlock`). Any number of processors, one machine instruction a step.
* **Disk queue** (`DiskQueue`, `IdeDriver`). The interrupt-driven request queue against the sequence of
  transfers it amounts to.

Code that changes state is written as methods on classes or arrays; each is proved to have the effect
that a function on values describes, and the properties are lemmas about those functions. A machine
word of a bitmap is modelled as the list of its 64 bits. In `SlabModel` and `Kernel` an invariant names
every redundant representation; `Valid` and `Whole` are those invariants. `Common` holds what all share.

## What the proofs found

Where the code does not do what one would expect of it, the model follows the code, and the exact
condition is proved.

* A run of more than one page can leave the zone it was asked of (`Pages.FoundInside`, `Pages.RunLeavesZone`), and
  the page array, if the last page is free and the bit behind it clear (`Pages.FenceHolds`, `Pages.RunLeavesPages`).
* `kmalloc` stores through a NULL if its class has no free block and zone 0 has pages, but fewer than a new slab
  with its metadata takes (`SlabModel.DrawExactly`, `Slabs.KernelHeap.Kmalloc`); a run from the memory map leads there
  (`SmallMachine.Faults`).
* A second `kfree` of a block breaks the counters of its slab (`SlabModel.ToggleKeepsCountIff`).
* `do_brk` misses the last page of a range whose offsets carry (`Brk.VisitsCoverRange`); its only caller never asks
  for one, because the end of the heap starts on a page boundary and stays there (`Brk.AddressSpace.SysBrk`).
* A `sys_brk` that runs out of memory stores the error value as the end of the heap, and every later request is
  answered 0 (`Brk.GrowthFails`, `Brk.AddressSpace.SysBrkAgain`); a run from the memory map leads there
  (`SmallMachine.RunsOutOfMemory`).
* `FAT32_write` loses what lies beyond the first cluster, and all data of a first write, although the
  cluster chain comes out right (`FatWrite.StoresIffOneCluster`, `FatWrite.FirstWriteStoresNothing`). The first
  pieces of a file overwrite the sectors from 0 on, the tables too where a cluster reaches them
  (`FatWrite.FirstWriteSparesTableIff`, `FatWrite.FirstWriteWipesTable`).
* A write that runs out of space leaves the position at the end of the chain, beyond the size if that was less
  (`FatWrite.OutOfSpaceIff`, `FatWrite.PositionPassesSize`).
* An append to a file of whole clusters is lost although its length is returned and the size grows, because the
  position has no cluster and the code allocates one only for the next piece (`FatWrite.AppendStoresNothing`,
  `FatWrite.AppendIsLost`).
* Reads and writes of 2^31 bytes or more do not fit the `int` their loops count in: they move fewer bytes than they
  return, or copy a negative number of them (`FatFiles.CountFitsIff`, `FatFiles.Volume.Read`, `FatFiles.Volume.Write`).
* The search for a free cluster may return an entry behind the last cluster (`Chains.FindsFreeCluster`).
* `FAT32_readdir` cuts names of more than 65 characters to 52, because the fifth of six or more entries bears
  number 5, the mark it skips (`LongName.ReadsBackIffShort`).
* `FAT32_lookup` takes a name of 13, 26, ... characters for any longer name that starts with it
  (`LongName.LookupSucceedsIff`).
* A time slice that goes below zero is never given out again (`Kernel.NegativeSliceStays`), and three tasks of
  priority 2 are enough to take it there (`Kernel.SliceIsLost`).

## Model

| member | source | states |
|---|---|---|
| Words.WindowIsRun | memory.c:320-330 | The two-word window test of `alloc_pages` at an index holds exactly when the `number` bits from that index on are clear, across the word boundary too. |
| Words.SetBit | memory.c:338 | Or-ing a mask into a bitmap word sets one bit of the flat bitmap and no other. |
| Words.ClearBit | memory.c:382 | The `&= ~` on a bitmap word clears one bit of the flat bitmap and no other. |
| Words.FlipBit | memory.c:581 | The `^=` on a map word inverts one bit of the flat map and no other. |
| Pages.ScanZone | memory.c:318-346 | The search of one zone stops at the lowest index from which the run is clear, and fails only if no index from the start of the zone to the end of its last word has one. |
| Pages.ScanWord | memory.c:328-345 | The search of one word finds the lowest start in it, with the window running on into the next word. |
| Pages.PageAllocator.AllocPages | memory.c:263-355 | NULL exactly for a number outside 1 to 63, a request that is not 1, 2 or 4, or when every zone that may serve it is passed over: for 1 those up to the DMA zone, for 2 from there to the normal zone, for 4 those from the unmapped zone on. Otherwise the first zone that is not is charged, its lowest run is marked as mapped unless 4 was asked for, and the whole new state is given. A run of more than one page is asked for behind a fence (`Pages.FenceHolds`). |
| Pages.PageAllocator.MarkRun | memory.c:334-342 | Marking a run sets its bits, moves the two counters of the zone by its length and writes the attributes, nothing else. |
| Pages.PageAllocator.FreePages | memory.c:364-387 | A null page or an invalid number changes nothing; otherwise the run's bits are cleared and each page is credited to its own zone. |
| Pages.PageAllocator.TakePage | memory.c:472-480 | One page for a slab: NULL exactly if zone 0 has no free page; otherwise a page that was free in zone 0, now marked, referenced once, and flagged as mapped and the kernel's; the invariant is kept. |
| Pages.PageAllocator.GivePage | memory.c:603-604 | `page_clean` and `free_pages` put the page back: bit clear, one free page more, all other pages as before, invariant kept. |
| Pages.PageAllocator.Claim | memory.c:991-994 | Claiming a free page for the kernel keeps bitmap, counters and references in step, and adds the flags to those the page has. |
| Pages.SkippedHasNone | memory.c:304-350 | With consistent counters NULL means that no searched zone contains a clear run of that length. |
| Pages.FoundInside | memory.c:311-349 | A run found for a zone lies inside it if and only if the zone contains a clear run of that length at all. |
| Pages.FenceHolds | memory.c:115-117 | All clear runs that start in the page array stay inside it if and only if its last page is taken or the bit behind it, which may lie behind the bitmap, is set. |
| Pages.LastOutsideFences | memory.c:139-186 | A memory map whose last page is in no zone fences the array for good, whatever the word behind the bitmap holds. |
| Pages.RunLeavesPages | memory.c:320-343 | A concrete layout of 64 pages before a word that starts with a clear bit: two pages asked for are the last page and one behind the array. |
| Pages.RunLeavesZone | memory.c:320-343 | A concrete layout where two pages asked of one zone include a page of the next zone, whose free count is then wrong. |
| Pages.OnePageInside | memory.c:311-343 | With consistent counters a single page always lies in the zone that is charged for it. |
| Pages.GuardedInside | memory.c:320-343 | A longer run stays inside its zone when the bits after the zone are set. |
| Pages.AllocKeepsAccounts | memory.c:334-342 | Handing out a clear run inside one zone keeps free = clear bits and using + free = pages of the zone. |
| Pages.FreeKeepsAccounts | memory.c:380-386 | Taking back a marked run inside one zone keeps the same two equations. |
| Pages.FreeUndoesAlloc | memory.c:334-342 | `free_pages` restores bitmap and counters exactly as they were before `alloc_pages` (memory.c:380-386). |
| Pages.TakeKeepsSound | memory.c:472-480 | Allocating and initialising a page keeps the page invariant and touches no other page. |
| Pages.PageAllocator.GrantPage | memory.c:1116-1119 | One page for a process: NULL exactly if zone 0 has no free page; otherwise a page that was free in zone 0, now marked, with the invariant kept. |
| Pages.GiveKeepsSound | memory.c:603-604 | Cleaning and freeing a page keeps the page invariant and touches no other page. |
| Pages.LinksMove | memory.c:7-32 | `total_pages_link` of every zone is the sum of the references to its pages, and stays so when one page gains or loses a reference. |
| Pages.InitCounts | memory.c:7-18 | `page_init` adds a reference to a page that has one already if and only if the page is shared. |
| Pages.CleanStrips | memory.c:21-32 | `page_clean` leaves the flags alone until the last reference is gone; then at most the flag of being mapped is left. |
| MemoryInit.InitMemory | memory.c:107-196 | On disjoint E820 ranges, the highest last: a page number is below the number of pages with its bit clear if and only if one usable range contains all 2 MB of that page. The page array ends within 2 MB of the end of the map; the zones have counters that agree with the bitmap, the page structures name their zone, page 0 is the kernel's, and the unmapped zone is the first behind zone 0 that starts at 4 GB or above. The page array is fenced if and only if the last page of the map is no usable memory or the word behind the bitmap starts with a set bit. |
| MemoryInit.CoveredIsRam | memory.c:144-170 | A page lies in a zone if and only if some range of kind 1 contains every byte of it: the zones lose no whole page and take in no part of one. |
| MemoryInit.AddZone | memory.c:173-185 | The page loop of one zone describes its pages and toggles exactly their bits. |
| MemoryInit.ZonesApart | memory.c:147-170 | Zones of disjoint ranges, in whatever order, are non-empty and have no page in common. |
| MemoryInit.TablesApart | memory.c:111-135 | Bitmap, page structures of 40 bytes and zone structures of 80 lie behind the image one after the other on 4 KB boundaries, each as long as the number of pages and zones asks for; where they end is memory.c:200-223. |
| MemoryInit.Described | memory.c:139-196 | The layout the loops leave satisfies the allocator's invariant, with all counters right. |
| MemoryInit.ClaimKernel | memory.c:227-236 | The last loop claims pages 1 to the end of the tables, each referenced once and flagged as the kernel's, and keeps the accounts. |
| Geometry.BlockFits | memory.c:492-506 | Every block of a slab ends before the in-page header and map, and header and map end within the 2 MB page. |
| Geometry.SlabFillsPage | memory.c:492-506 | A slab has as many blocks as fit: up to 512 bytes the 2 MB less 72 bytes of structure and one bit for every block size of the page, and no block more would fit; from 1024 bytes on, and for boot slabs, the blocks fill the page exactly. |
| Geometry.SizesDouble | memory.h:265-283 | The sizes go from 32 bytes to 1 MB, each twice the one before, and those up to 512 have their structure in the page. |
| Geometry.BlockAligned | memory.c:452 | Every block address is a multiple of the size of its class. |
| Geometry.IndexRecovered | memory.c:577-579 | `kfree` recovers page and index of a block from its address by masking and dividing. |
| Geometry.AddressUnique | memory.c:577-579 | Page, class and index determine the address and are determined by it. |
| SlabModel.SlotKeepsValid | memory.c:443-452 | Taking or releasing a block keeps all representations in step: bits, slab counts, class totals, rings and guard bits. |
| SlabModel.LinkKeepsValid | memory.c:428-432 | Linking a new slab keeps all representations in step. |
| SlabModel.UnlinkKeepsValid | memory.c:608-615 | Unlinking an empty slab that is not the boot slab keeps all representations in step and frees its metadata blocks for their owner to return. |
| SlabModel.BlockInside | memory.c:492-501 | A block in use lies within the 2 MB page of its slab, outside any in-page slab header and bitmap. |
| SlabModel.BlocksDisjoint | memory.c:435-454 | Two blocks in use never share a byte, whatever their classes. |
| SlabModel.BlocksAligned | memory.c:452 | Every block in use is aligned to its class size. |
| SlabModel.CurrentFromStack | task.h:161-166 | Masking any stack pointer strictly inside a 32 KB task block gives the base of the block. |
| SlabModel.SomeFree | memory.c:408-417 | A class whose total of free blocks is not zero has a slab with a free block on its ring, so the walk of `kmalloc` ends. |
| SlabModel.TakenLowest | memory.c:408-454 | The lowest clear bit of the first slab on the ring that has one is the first block of its class: all before it, on the ring and in the slab, are in use. |
| SlabModel.DepthOfClass | memory.c:530-538 | The requests that ask for metadata are those of classes from 1024 on; the structure and map they ask for are requests of classes up to 512, which ask for none. |
| SlabModel.MadeLarge | memory.c:530-546 | Page, structure block and map block together make a slab that nothing else uses; the structure block has the 72 bytes of the structure and the map block the words of the map. |
| SlabModel.ReclaimLarge | memory.c:608-615 | Freeing map, page and structure in that order keeps everything else in place. |
| SlabModel.LiveBlock | memory.c:572-581 | A block in use has a slab on its page, and the index `kfree` computes is its own. |
| SlabModel.SurplusIff | memory.c:583-589 | The counters say that a slab is to spare if and only if the block taken back was its last one, it is not the boot slab, and the other slabs on its ring have half its number of blocks free. |
| SlabModel.Settles | memory.c:581-621 | Taking the block back, with or without reclaiming its slab, leaves the class as `Slabs.KernelHeap.Kfree` states. |
| SlabModel.DrawExactly | memory.c:394-433 | What a request does to the free blocks of each class and the free pages: NULL if and only if its class has no free block and there is no page; the store through NULL if and only if the class has no free block and there are pages, but fewer than the new slab and its metadata take; the pages left in each case. |
| SlabModel.DrawMetadataExactly | memory.c:530-546 | The metadata of a slab from 1024 on fail to come if and only if the free pages are fewer than the structure and the map need, where one new slab may serve both; then no page is left. |
| SlabModel.ToggleKeepsCountIff | memory.c:579-587 | Counters and map of a slab agree after `kfree` has inverted a bit if and only if the block was in use: freeing it twice breaks them. |
| Slabs.Slab.FindClear | memory.c:435-454 | The search that jumps over full words returns the lowest clear bit, and it lies below the block count; it exists when the slab has a free block. |
| Slabs.BlankWords | memory.c:505-509 | The new map has exactly the bits of the blocks clear and every bit behind them set. |
| Slabs.KernelHeap.Kmalloc | memory.c:394-458 | Too large a size gives NULL. Otherwise the class is the smallest that fits; NULL if and only if class and zone 0 have nothing free, and then nothing has changed; `Fault` if and only if the class has nothing free and zone 0 has pages, but fewer than the price of a new slab. The free blocks of every class and the free pages afterwards are given. A block returned was not in use, all blocks of the class before it, on the ring and in its slab, are, and every other block, page and slab is kept, new slabs standing behind the old ones, with the invariant of all representations. |
| Slabs.KernelHeap.KmallocCreate | memory.c:464-559 | A new slab on a page of its own, with its metadata, which no block or slab in use overlaps. |
| Slabs.KernelHeap.FindOrGrow | memory.c:406-433 | The first slab on the ring with a free block if the total says there is one, otherwise a new one, made and linked last; no block changes hands. |
| Slabs.KernelHeap.Kfree | memory.c:565-633 | A block in use is taken back and nothing else changes hands. Its slab is gone if and only if the block was its last one, it is not the boot slab, and the other slabs on the ring together have at least half its number of blocks free; these are what the class has free then, and otherwise one more than before. The other slabs keep their order, the other classes their counts but for the metadata given back. An address on no slab page gives 0 and changes nothing. |
| Slabs.KernelHeap.FindOwner | memory.c:572-628 | The two loops find a slab exactly if one starts at the page of the address. |
| Slabs.KernelHeap.Reclaim | memory.c:589-619 | Reclaiming an empty slab keeps the invariant, never takes the boot slab, and gives back its page and its metadata blocks. |
| Slabs.KernelHeap.GrantUserPage | memory.c:1116-1119 | A page for a process, with all slabs and blocks left alone; it is no slab's. |
| SlabInit.BootHeap | memory.c:946-1020 | `slab_init` behind the tables of `init_memory` establishes the invariant of heap and pages together, with one empty boot slab per class on a page of its own and no block in use; structures and maps lie where `SlabInit.BootLayout` says, and the pages used up are counted. |
| SlabInit.BootSlabs | memory.c:954-982 | The sixteen boot slabs are distinct, with all blocks free and guard bits set, and structure and map of each at the addresses computed. |
| SlabInit.BootLayout | memory.c:956-972 | Structures and maps of the boot slabs lie one behind the other, each ending before the next, from the end of the image on. |
| SlabInit.BootPages | memory.c:986-1001 | The structures end below the blocks of the first boot slab, on the page before it, and no earlier than the page behind the image. |
| SlabInit.NeverOnBoundary | memory.c:200-223 | Neither the end that `init_memory` computes for 1 to 32 zones, nor that to which `slab_init` moves it 20128 bytes on (memory.c:952-972), lies on a page boundary. |
| SlabInit.NoPageClaimedTwice | memory.c:986-1008 | For every image, number of pages and number of zones: the claims of `init_memory` (memory.c:227-236) and those of the two loops of `slab_init`, one after the other, are the pages from 1 to that of the last boot slab, each once. |
| SlabInit.BootValid | memory.c:954-1012 | The caches as `slab_init` leaves them satisfy all representation invariants. |
| Boot.BootMemory | main.c:419-424 | `init_memory` and `slab_init` one after the other, from the memory map and the end of the image: a heap that satisfies its invariant, with nothing handed out, slabs where `slab_init` puts them behind the tables of that map, and as free pages the first zone less image, structures and boot slabs. |
| Boot.Serve | memory.c:394-633 | Any sequence of `kmalloc` and `kfree` requests to such a heap: unless a request faults all are answered, no block is handed out while it is held, the blocks held are those handed out and not taken back, and they are aligned and disjoint. Whether a run of allocations faults, at which request, and what it leaves, can be told from free blocks and pages beforehand. |
| Boot.StartedStock | memory.c:946-1020 | The free blocks and pages of the heap `Boot.BootMemory` returns: all blocks of the sixteen boot slabs, and the pages behind them. |
| Boot.BootRunFaults | memory.c:530-538 | From such free blocks and one page: 8192 requests of 256 bytes and 2048 of 1024 are answered, and one of 1024 more leads to the store through NULL. |
| SmallMachine.Faults | memory.c:530-538 | The whole run on a machine with 36 MB: from its memory map through `init_memory`, `slab_init` and 10240 answered requests to the fault. |
| PageTables.SplitUnique | memory.c:1097-1113 | The 9/9/9-bit split of a user page number is injective and stays in the user half of the top table. |
| PageTables.AddKeepsTree | memory.c:1098-1111 | Hanging an empty, 4 KB aligned table on an empty entry keeps the tables a tree. |
| PageTables.AddTranslatesSame | memory.c:1098-1111 | It changes no translation. |
| PageTables.LeafTranslates | memory.c:1113-1120 | Setting the leaf of a page changes the translation of that page and of no other. |
| PageTables.UserWriteIs | memory.h:62-89 | A user-mode write, followed through the three tables by the bits present, writable, user and page size of every entry, reaches the byte of the frame that the tables stand for, and faults where they stand for none. |
| PageTables.AddKeepsMarked | memory.c:1100-1111 | Hanging up a table keeps the entries marked: each is empty or leads on for user-mode writes and asks the processor for nothing else, to a table or, in the last level, to a 2 MB page. |
| PageTables.LeafKeepsMarked | memory.c:1113-1120 | So does setting a leaf. |
| PageTables.PlainIsWritten | memory.c:1095-1120 | So user-mode writes to the whole user half go exactly where the plain map from pages to frames says. |
| PageTables.Descent | memory.c:1097-1113 | Going down two levels, with a new table wherever one is missing, changes no translation, leads to the level 2 table of the page, and adds the tables of that walk and no others. |
| PageTables.LackingIsMissing | memory.c:1095-1111 | The tables a page of a run lacks when its turn comes can be counted before the run: those it lacks then, less those it shares with pages before it. |
| Brk.FramesApart | memory.c:1116-1119 | No page mapped for a process overlaps a block that `kmalloc` has handed out, page tables among them. |
| Brk.BackedKept | memory.c:1100-1119 | What `kmalloc` and `alloc_pages` do for one process leaves the tables and frames of any other as they are. |
| Brk.BlockIsTable | memory.c:1100-1102 | The block `kmalloc(4096)` hands out is a table in no process and 4 KB aligned, so that its address and its attribute bits do not mix. |
| Brk.GrantIsFrame | memory.c:1116-1119 | The page `alloc_pages` hands out is mapped for no process and used for no slab. |
| Brk.AddressSpace.MapPage | memory.c:1097-1120 | One iteration on the real heap: the page map changes at most at its own page, only if that page was not mapped, and then to a frame that was free; the blocks and pages used up decide between success, -ENOMEM and the store through NULL. |
| Brk.AddressSpace.DoBrk | memory.c:1088-1128 | On `kmalloc` and `alloc_pages` as proved: on success every page of the range is mapped, and user-mode writes reach its frame and fault elsewhere as the map says. The pages are mapped in order, those not mapped before to frames that were free; different pages stay mapped to different frames and tables apart from frames; every earlier mapping stays; which of the three outcomes it is, is given for every supply of blocks and pages; `end_brk` moves exactly on success. A run that goes beyond 2^47 from the end of the heap fails below it. |
| Brk.RunOutIff | memory.c:1114-1120 | With a block at hand for every table the run lacks there is no fault, -ENOMEM comes if and only if more of its pages are unmapped than pages are free, and otherwise one block a table and one page a page are used up. |
| Brk.RunFaultsIff | memory.c:1098-1111 | The first page for whose tables the blocks at hand do not do brings the store through NULL if and only if fewer pages are left by then than a slab of tables with its metadata takes. |
| Brk.VisitsCoverRange | memory.c:1095 | The pages visited cover the byte range if and only if the offsets of its first and last byte do not carry; always, if it starts on a page boundary. |
| Brk.CrossingIsMissed | memory.c:1095 | Two bytes across a page boundary: the second is not covered. |
| Brk.AddressSpace.SysBrk | sys.c:346-361 | For every request: the end stays on a page boundary until a call fails, so that the range is always covered. A request that aligns to 0 or lies below the end changes nothing; otherwise, on success, the pages mapped are those mapped before and exactly those up to the aligned request, and user-mode writes reach them and no others. With tables at hand memory runs out if and only if more pages are unmapped than free, and the error value becomes the end. |
| Brk.PageAlign | memory.h:28 | The request rounded up to a multiple of 2 MB, and to 0 beyond 2^64 less 2 MB, where the sum wraps around. |
| Brk.MappedAtMost | memory.c:1116-1119 | A process has at most as many pages mapped as there are pages of memory, less the sixteen boot slabs. |
| Brk.SomeUnmapped | sys.c:352-357 | So, with at most 2^26 pages of memory, no heap is mapped throughout from its start to 2^47: a request beyond runs out of memory first. |
| Brk.GrowthFails | sys.c:357 | The same condition read off the tables, the request and the allocators before the call. |
| Brk.OnePageMore | sys.c:346-361 | A heap that grows by a page and has tables at hand gets it if and only if one is free; if none is, the error value becomes its end. |
| SmallMachine.RunsOutOfMemory | sys.c:346-361 | On the machine with 36 MB, from its memory map on: a process is given its first page of heap, the next byte fails with -ENOMEM, and then a request for the first byte is answered 0. |
| Brk.AddressSpace.SysBrkAgain | sys.c:352-359 | After that every later request is answered 0, whatever memory there is, except those that align to 0. |
| Sectors.LoadStored | fat32.c:190-195 | What is written to a run of sectors is what is read from it. |
| Sectors.WordPut | fat32.c:30 | A 32-bit little-endian store reads back and leaves the other bytes. |
| Chains.MergeLinks | fat32.c:30 | The merged entry has the new low 28 bits and the old top four. |
| Chains.WalkChain | fat32.c:65-66 | Following links from the head visits the chain in order and then meets the end mark. |
| Chains.HeadDetermines | fat32.c:65-66 | Two chains with the same head are the same: chains are acyclic and end. |
| Chains.EndIsLast | fat32.c:207 | Exactly the last cluster of a chain has a link at or past 0x0ffffff8. |
| Chains.AppendsCluster | fat32.c:216-217 | The two entry writes append a free cluster to one chain; every other chain stays, and all stay disjoint and acyclic. |
| Chains.StartsChain | fat32.c:160-165 | A free cluster with an end mark is a chain of its own, disjoint from all others. |
| Chains.FindsFreeCluster | fat32.c:106-127 | The search finds a cluster of the data area if and only if one is free; 0 means that no entry of the table is free. |
| Chains.TailIsFound | fat32.c:106-127 | On a full volume the search may return an entry that has no cluster. |
| Volumes.SetEntrySets | fat32.c:23-35 | Writing an entry through all copies changes exactly that entry of the table and nothing outside the tables. |
| Volumes.SetEntryKeepsCopies | fat32.c:32-33 | All table copies are equal afterwards if they were before. |
| Volumes.BaseApart | fat32.c:78 | The cluster-to-sector map is injective: different clusters share no sector. |
| Volumes.BaseBounds | fat32.c:78 | Clusters lie above the tables and on the disk. |
| Volumes.BaseFollows | fat32.c:78 | Cluster 2 begins where the data area does, and every other cluster where the one before it ends. |
| Volumes.OneOwner | fat32.c:78 | Every sector of the data area belongs to exactly one cluster. |
| Volumes.FileSlice | fat32.c:78-91 | Byte o of the k-th cluster of a chain is byte k * cluster size + o of the file. |
| Volumes.FileByte | fat32.c:78-91 | Byte by byte on the medium: byte o of the k-th cluster c of a file is byte o mod 512 of the sector that lies o / 512 behind the clusters 2 to c - 1 of the data area. |
| Volumes.ClusterStored | fat32.c:190 | Storing a cluster changes its content to the buffer, and no other cluster and no table. |
| Fat.InodeReadsBack | fat32.c:733-736 | First cluster and size written to a directory entry are what FAT32_lookup decodes (fat32.c:628-639); the top nibble of the high half and all other bytes stay. |
| Fat.RunTouches | fat32.c:169-222 | Whatever its length, the write loop writes no sector but those of one cluster and the tables. |
| Fat.RunExtends | fat32.c:202-220 | The loop appends to its chain clusters that were free, one after the other, keeps every other chain, the top nibbles and the equality of the copies, and stops for want of space only when no entry is free. |
| FatWrite.WriteExtendsChain | fat32.c:130-234 | The same for the whole of FAT32_write on a file that has a chain. |
| FatWrite.WriteStartsChain | fat32.c:145-165 | The first write to an empty file gives it a new chain and keeps all others, where a cluster fits below the tables; the other volumes are those of `FatWrite.FirstWriteSparesTableIff`. |
| FatWrite.FirstWriteNamed | fat32.c:145-232 | A first write names its first cluster in the directory entry, also when it runs out of space; the size there is the file's, which grows only if the write does not run out. |
| FatWrite.FirstWriteSparesTableIff | fat32.c:169-195 | The first pieces of a file go to the sectors from 0 on: the table survives every first write of n bytes, but for the clusters it gives the file, if and only if a cluster fits below the tables. |
| FatWrite.FirstWriteWipesTable | fat32.c:169-195 | A concrete volume with a cluster longer than the space below its tables: the first write of any number of zero bytes leaves every table entry 0, that of the file and the two reserved ones among them. |
| FatWrite.FirstWritePaints | fat32.c:169-195 | The first write of one byte over and over leaves that byte throughout the sectors from 0 up to a cluster's length, the tables among them where they lie there. |
| FatWrite.FirstWriteStoresNothing | fat32.c:169-195 | That write stores none of its data in the data area. |
| FatWrite.WriteAllocates | fat32.c:202-220 | A write from the last cluster that finds its space makes the chain just long enough; one from an earlier cluster never lengthens it and never runs out of space. |
| FatWrite.OutOfSpaceIff | fat32.c:202-230 | A write runs out of space if and only if it starts in the last cluster and its end lies beyond that cluster and all free entries. All of them are then in the chain, the position is at the end of the chain, the size is as it was, and the position is beyond the size if and only if the size was less than that. |
| FatWrite.PositionPassesSize | fat32.c:202-230 | A concrete full volume: a file of 100 bytes asked to take 600 is left with size 100 and position 512. |
| FatWrite.WriteInPlace | fat32.c:169-228 | A write that fits one allocated cluster replaces exactly its byte range of the file; tables, other clusters and all other directory bytes stay; position and size move as promised. |
| FatWrite.AppendStoresNothing | fat32.c:151-230 | A write of up to a cluster from behind the last cluster of a file allocates nothing and stores nothing, but returns its length and lets the size grow past the bytes the file has. |
| FatWrite.AppendIsLost | fat32.c:151-230 | A concrete volume and a file of exactly one cluster on it: an append of up to a cluster returns its length, the size grows by it, and no sector changes. |
| FatWrite.WriteLeavesOthers | fat32.c:169-228 | A write of any length changes the content of no cluster but the one it starts in and that of its directory entry. |
| FatWrite.StoresIffOneCluster | fat32.c:171-220 | FAT32_write stores every run of n bytes it may be given if and only if the run fits the cluster it starts in. |
| FatWrite.CrossingLoses | fat32.c:171-220 | Of two runs that differ in the first byte beyond the cluster, one is not stored. |
| FatFiles.Volume.ReadFatEntry | fat32.c:14-21 | The low 28 bits of the entry, from the first copy. |
| FatFiles.Volume.WriteFatEntry | fat32.c:23-35 | The disk after writing the merged entry to every copy. |
| FatFiles.Volume.FindAvailableCluster | fat32.c:106-127 | The number of the first free entry of the table, 0 if there is none. |
| FatFiles.Volume.Read | fat32.c:50-103 | For n = min(count, size - position), as the `int index` has it: exactly that slice of the file is in the buffer, each byte from the sector of the medium where it lies, and nothing else of the buffer changed; the position moves by as much, and n is returned. A copy of a negative length is reached if and only if the `int` is negative, with nothing changed before it. -EFAULT for a file without cluster; nothing at the end of the file, on a cluster boundary too. |
| FatFiles.Volume.Write | fat32.c:130-234 | For the bytes that the `int index` counts, the disk, the file object and the value returned are those of the write whose properties are proved in FatWrite, from a position in the chain of the file and from one behind its last cluster, but for the count returned, which is the whole; a copy of a negative length is reached if and only if the `int` is negative and the file has or gets a cluster. |
| FatFiles.CountFitsIff | fat32.c:55-83 | The `int` that the loops count in is the count of n bytes if and only if these are fewer than 2^31; otherwise the first length is negative or the bytes moved (`FatFiles.Volume.Read`, `FatFiles.Volume.Write`) fall short by a multiple of 2^32. |
| FatFiles.Volume.WriteLoop | fat32.c:169-222 | The loop, step by step, has the effect of the write run. |
| FatFiles.Volume.UpdateInode | fat32.c:713-740 | The directory cluster with the three fields replaced; nothing for the root. |
| LongName.ReadsBackIffShort | fat32.c:325-355 | FAT32_readdir reassembles a name, each character cut to eight bits, if and only if it has at most 65 characters; of a longer one it gives the first 52. |
| LongName.CountsEntries | fat32.c:329-335 | The loop counts all entries of a name of at most five; a sixth makes the fifth bear number 5, where it stops. |
| LongName.LongNameIsCut | fat32.c:325-355 | A name of 66 letters comes back as 52. |
| LongName.RoundTripIff | fat32.c:325-355 | Decoding the standard encoding of an eight-bit name gives the name back, for at most 65 characters. |
| LongName.EncodeSpells | fat32.h:87-97 | The encoder lays names out as the standard describes. |
| LongName.LookupSucceedsIff | fat32.c:462-492 | For ASCII names behind a slot that is no long entry, or a deleted one, or at the start, the comparison succeeds if and only if the names are equal, or the one looked for has a length that is a multiple of 13 and is a prefix of the other; otherwise exactly on equality. It runs out of entries without a verdict if and only if the name in the directory has such a length and the one looked for goes on after it. |
| LongName.DeletedCuts | fat32.c:325-335 | A name one of whose first five entries is marked as deleted or free is read as far as that entry. |
| LongName.PrefixIsMistaken | fat32.c:486-489 | Thirteen letters are taken for a name of fourteen. |
| LongName.ReadLongName | fat32.c:322-355 | The counting and copying loops compute the name the lemmas speak of. |
| LongName.CompareLongName | fat32.c:459-492 | The comparison loops compute the verdict the lemmas speak of. |
| Cfs.InsertSorts | schedule.c:45-51 | Insertion keeps the run queue sorted. |
| Cfs.InsertAdds | schedule.c:45-51 | Insertion adds one task and loses none. |
| Cfs.ScheduleKeeps | schedule.c:55-116 | After `schedule` the current task has run no longer than any queued one, the queue is sorted, without duplicates and counted, and no task is lost or duplicated. |
| Cfs.ScheduleByTime | schedule.c:77-100 | Who runs after `schedule`: a task that is to run stays if and only if it has run less long than every queued one, and then the queue is as it was; otherwise the front of the queue is current, or the idle task, which has run no longer, and the queue holds the others, with the one that gave way if that is to run. |
| Cfs.SliceByShare | schedule.c:82-93 | A slice of zero becomes 4 divided by the number of running tasks, three times that if the front of the queue has a priority above 1, whichever task runs then; any other slice stays. |
| Cfs.SameChoice | schedule.c:55-116 | The choice depends on run time, priority and state of the tasks and on nothing else. |
| Cfs.PutNamed | schedule.c:33-53 | Insertion does not depend on what the tasks are called: under any one-to-one renaming the queue is the renamed one. |
| Cfs.ScheduleNamed | schedule.c:55-116 | Neither does the choice of `schedule`. |
| Cfs.RefilledIff | schedule.c:82-93 | A slice is given out if and only if the old one is exactly zero and at most four tasks share. |
| RunQueue.ListAddToBefore | lib.h:190-196 | The ring with the node before the entry; next and prev stay inverse to each other. |
| RunQueue.ListAddToBehind | lib.h:182-188 | The ring with the node behind the entry. |
| RunQueue.ListDel | lib.h:198-202 | The ring without the entry. |
| RunQueue.EmptyIff | lib.h:204-210 | `list_is_empty` is true of the entries of rings of one and of no others. |
| RunQueue.Scheduler.GetNextTask | schedule.c:16-31 | The front of the sorted queue is taken off the intrusive ring, or the idle task is returned; the count follows. |
| RunQueue.Scheduler.FindSpot | schedule.c:40-49 | The scan ends at the first task that has run as long, or at the sentinel. |
| RunQueue.Scheduler.InsertTaskQueue | schedule.c:33-53 | The ring now holds the sorted insertion, and the count is one more; nothing for the idle task. |
| RunQueue.Scheduler.Schedule | schedule.c:55-116 | On the intrusive ring, current task, queue, count and slice become those of the abstract choice: the current task stays only if it has run less long than all queued ones, otherwise the front of the old queue, or the idle task, takes its place; and `schedule` can be called again. |
| RunQueue.Scheduler.constructor | schedule.c:118-131 | The state `schedule_init` leaves. |
| Kernel.StepKeeps | semaphore.h:32-116 | Every event keeps the invariant of run queue, wait lists, semaphores and disk queue. |
| Kernel.RunExtends | schedule.c:55-116 | Every event that can happen after a run extends the run. |
| Kernel.BootIsWhole | schedule.c:118-131 | The start state satisfies the invariant. |
| Kernel.OnePlaceEach | schedule.c:16-116 | After any run every task is in exactly one place: current, queued, on one wait list, on one semaphore, with the disk, zombie, or the idle task waiting; and the run queue, every wait list, every semaphore and the disk list hold no task twice. |
| Kernel.TasksStay | task.c:622-716 | No event loses a task, and only fork makes one. |
| Kernel.CountsAgree | semaphore.h:76-116 | After any run: initial count + ups = counter + granted downs, the counter is not negative, a positive one means no waiters, downs are granted in the order they were asked for; requests complete in order of submission, each once, and an idle device means an empty queue; the running count is queue length + 1. |
| Kernel.EventsCounted | semaphore.h:76-116 | What semaphores and request list remember is what has happened: over any run the ups, the downs, the requests submitted and those completed grow by as many as there are such events. |
| Kernel.UnitsLeft | semaphore.h:76-116 | So a semaphore of n units has after any run from the start n + ups - downs units left, or as many waiters as that falls below zero, and the requests open are those submitted less those completed. |
| Kernel.SleepIsDeep | semaphore.h:32-40 | A task that goes to sleep by `sleep_on` is last in the list, and a wakeup of interruptible sleepers leaves it there, if it is alone. |
| Kernel.InterruptibleWakes | semaphore.h:42-50 | One that sleeps by `interruptible_sleep_on`, alone, is queued to run after such a wakeup. |
| Kernel.ExitWakesParent | task.c:689-712 | After `do_exit` the task is a zombie that neither runs nor is queued; a parent that waits for it is ready if and only if it waits interruptibly; no other list of waiters changes. |
| Kernel.ForkCopies | task.c:637-670 | The new task is queued as the child of the current one, with its run time and priority 2, and no one waits for a child of it. |
| Kernel.RescheduledKeeps | schedule.c:55-116 | `schedule` from any state of the invariant leaves a task current that is to run, with the lag bound. |
| Kernel.RescheduledByTime | schedule.c:77-100 | The task is the one of `Cfs.ScheduleByTime`. |
| Kernel.TickKeeps | HPET.c:54-68 | A tick keeps the invariant with its lag bound: current is ahead of no queued task by more than 12 minus the remaining slice. |
| Kernel.TickLag | HPET.c:54-68 | A tick alone leaves current at most 13 ahead. |
| Kernel.NegativeSliceStays | schedule.c:82-93 | A slice below zero is never given out again, in any run. |
| Kernel.SliceIsLost | HPET.c:54-68 | From the start, three forks, two ticks, a `schedule` that gives out a slice of 3, and two ticks more take the slice to -1; whatever happens then, it stays below zero. |
| Kernel.StepSlice | schedule.c:82-93 | Only an exactly exhausted slice is ever raised. |
| Queueing.UpKeepsCount | semaphore.h:92-98 | An up keeps the laws of a semaphore: what it started with and what was added is what is left and what was granted; a positive counter means no waiters; downs are granted in the order they were asked for. |
| Queueing.DownKeepsCount | semaphore.h:110-116 | So does a down. |
| Queueing.AddKeepsOrder | disk.c:201-207 | A submission keeps the laws of the request list: the count is the length, an idle device means an empty list, and what was submitted is what has completed, what is in use and what waits, in order. |
| Queueing.EndKeepsOrder | disk.c:18-33 | So does the end of a request. |
| Processor.HpetTick | HPET.c:54-68 | What the current task gains in run time the slice loses; the run queue on its ring stays in order, and the task is asked to give way whenever the slice is used up. |
| Processor.WaitQueue.Append | semaphore.h:34-37 | On the ring of wait nodes, with next and prev inverse to each other, the node stands last and its task waits last. |
| Processor.WaitQueue.TakeFirst | semaphore.h:66-70 | The node taken off the ring is the first, and all others keep their order; the task behind it is the one that has waited longest. |
| Processor.WakeupProcess | semaphore.h:52-57 | On the two rings: the task is linked into the run queue at its sorted place, the queue stays in order, without duplicates and counted, and holds that task more and no other. |
| Processor.SleepOn | semaphore.h:32-50 | The current task stands last on the ring of waiters and in no place of the run queue; the next task is the one the abstract choice gives among the others; all tasks known but the sleeper are still known; both rings stay apart and sound, so that every waiter can be queued again. |
| Processor.Wakeup | semaphore.h:59-73 | Exactly the first waiter leaves the ring and joins the run queue at its sorted place, if it sleeps in the way asked for; otherwise nothing changes. Both rings stay apart and sound. |
| Processor.CountingSemaphore.Up | semaphore.h:82-98 | On the rings: the laws of the semaphore hold again, and the one that has waited longest, if any, is granted its down, off the ring and in the run queue. |
| Processor.CountingSemaphore.Down | semaphore.h:100-116 | On the rings: the laws hold again; without a unit the current task waits last, and another task runs. |
| Processor.ForkTask | task.c:637-670 | The new task, a copy with priority 2, is linked into the run queue at its sorted place; everyone else stays in it; the count is one more; the current task is asked to give way. |
| Processor.DoExit | task.c:689-712 | The exiting task is a zombie in no queue; its parent, if it waits for it, is off the ring of waiters, ready, and known to the scheduler; no other task is lost or gained; both rings stay apart and sound. |
| Processor.RequestList.Transfer | disk.c:201-213 | Submitting and waiting: the laws of the request list hold again; the submitter stands last in it or is with the device, sleeps, and is in no place of the run queue. |
| Processor.RequestList.EndRequest | disk.c:18-33 | The task of the request in use is woken, once, into its place in the run queue; the next request goes to the device exactly if one waits; the laws hold again. |
| Processor.RequestList.CmdOut | disk.c:41-46 | The first request leaves the ring and becomes the one in use; the others keep their order. |
| KernelLists.Tick | HPET.c:54-68 | The handler is the event Tick: if tasks and scheduler in memory are, under a naming of the tasks, a state of the machine of `Kernel`, they are afterwards the state after the event. |
| KernelLists.Reschedule | schedule.c:55-116 | `schedule` is the event Reschedule, in the same sense. |
| KernelLists.Sleep | semaphore.h:32-50 | `sleep_on` and `interruptible_sleep_on` are the events of that name, and the ring of waiters is the list of that channel again. |
| KernelLists.Wake | semaphore.h:59-73 | `wakeup` is the event Wakeup, whether it wakes a task or not, and the ring is the list of that channel again. |
| KernelLists.Up | semaphore.h:82-98 | `semaphore_up` is the event Up; counter, waiters, and what was asked and granted are those of the semaphore of the new state. |
| KernelLists.Down | semaphore.h:100-116 | `semaphore_down` is the event Down, with a unit at hand or without. |
| KernelLists.Fork | task.c:637-670 | The part of `do_fork` that concerns the scheduler is the event Fork, under the naming with one task more. |
| KernelLists.Exit | task.c:689-712 | `do_exit` is the event Exit, whether the parent waits or not. |
| KernelLists.Submit | disk.c:201-213 | Submitting a request and waiting for it is the event Submit, and the ring is the request list of the new state. |
| KernelLists.DiskDone | disk.c:18-33 | `end_request` is the event DiskDone, with or without a next request. |
| ManyQueues.StaysBeside | semaphore.h:32-116 | A second wait queue, with no node and no task in common with the one something is done to, is in order as before, and still has nothing in common with it. |
| ManyQueues.SleepBeside | semaphore.h:32-50 | `sleep_on` leaves any other wait queue, its waiters and their states as they were, in order and apart. |
| ManyQueues.WakeupBeside | semaphore.h:59-73 | So does `wakeup`. |
| ManyQueues.UpBeside | semaphore.h:82-98 | So does `semaphore_up`. |
| ManyQueues.DownBeside | semaphore.h:100-116 | So does `semaphore_down`. |
| Spinlock.MutualExclusion | task.h:254-284 | For n processors and any interleaving: the word is 1 minus the decrements since the last unlock and at least 1 - n, at most one processor holds the lock, one does exactly when the word is at most 0, and none of them is preemptible in between. |
| Spinlock.RefinesAtomicLock | task.h:254-284 | Each instruction is a step of an atomic lock or no step. |
| Spinlock.FreeLockIsTaken | task.h:257-265 | With nobody holding the lock, a waiting processor left to itself has it within two instructions. |
| Spinlock.StepKeeps | task.h:254-284 | Every instruction of every processor keeps the invariant. |
| DiskQueue.AddressArrives | disk.c:57-67 | The device gets the address meant if and only if it has 48 bits, and the number of sectors meant if and only if it is 1 to 65536, where a count register of 0 stands for 65536. |
| DiskQueue.SentInHalves | disk.c:57-67 | The upper 24 bits of the address are sent before the lower 24, each with its lowest byte first, and the count with its upper byte first. |
| DiskQueue.SubmitKeeps | disk.c:201-207 | Submitting keeps the invariant and puts the request last. |
| DiskQueue.InterruptKeeps | disk.c:120-157 | Every interrupt keeps the invariant, neither loses nor reorders a request, and brings the end one interrupt nearer. |
| DiskQueue.EndKeeps | disk.c:18-33 | A request ends with disk and buffer as if it had been performed at once. |
| DiskQueue.SeenSteps | disk.c:18-46 | With the data left aside, a submission and the end of a request are exactly the steps of the request list in which `Kernel` and `Processor` let tasks wait. |
| DiskQueue.SeenInterrupt | disk.c:120-157 | Of the interrupts of a request only the last shows there, as its end. |
| DiskQueue.AllIsDone | disk.c:18-157 | The device is idle after exactly as many interrupts as there are sectors left; then all requests have ended in order, and disk and buffers are those of performing them one after the other. |
| DiskQueue.OneRequest | disk.c:120-157 | An n-sector request ends after exactly n interrupts, with sector LBA + k matched to bytes 512k to 512k + 511 of the buffer. |
| IdeDriver.Driver.Submit | disk.c:201-207 | Step by step, the submit of the queue model. |
| IdeDriver.Driver.CmdOut | disk.c:41-97 | The registers carry address and count so that the device moves exactly the sectors of the request, and a write sends its first sector. |
| IdeDriver.Driver.ReadHandler | disk.c:120-137 | The interrupt of a read against the device: the sector its data port stands at is the one the queue model reads, it goes to its place in the buffer, and the device has as many sectors still to move as the request has left. |
| IdeDriver.Driver.WriteHandler | disk.c:139-157 | The interrupt of a write: the sector sent is one ahead of the interrupts, so that the device gets exactly as many as its command said. |
| IdeDriver.Driver.EndRequest | disk.c:18-33 | Step by step, the end of a request. |

## Left out

- Pages.PageAllocator.AllocPages: longer runs are asked for behind a fence only; what the code does with a run that leaves the page array (`Pages.RunLeavesPages`) is not modelled.
- Slabs.KernelHeap.Kmalloc: `Fault` stands for the write through the NULL that `kmalloc_create` does not check for; what the machine does then is not modelled, and nothing is said of the state but the blocks and pages left.
- Slabs.KernelHeap.Kfree: asked only of blocks in use and of addresses on no slab page; of a block freed twice only the damage to its slab is stated (`SlabModel.ToggleKeepsCountIff`).
- Slabs.KernelHeap.FindOrGrow: the ring of slabs is a sequence in ring order, not an intrusive list; the operations on intrusive lists are proved in `RunQueue`, where run queue and wait queues use them.
- MemoryInit.InitMemory: the E820 ranges are taken to be disjoint with the highest one last, as the firmware gives them, only the first zone may hold page 0, and one range has a whole page of usable memory.
- SlabInit.BootHeap: the pages behind the image are taken to be free pages of zone 0.
- Boot.BootMemory: the first zone starts at page 1 and has room for image, tables and boot slabs, as the kernel is linked and loaded.
- Brk.AddressSpace.DoBrk: the kernel half of the tables is not covered, nor a run that starts elsewhere than at the end of a heap and goes beyond 2^47; clearing a table does not store through the NULL of a failed `kmalloc` in the model but ends it in `Fault`.
- Brk.AddressSpace.SysBrk: the pages a failing call has mapped stay mapped, as in the code; giving them back when the process ends is not modelled.
- FatFiles.Volume.Read: what a copy of a negative length (`stray`) does is not modelled; the position is at most the size, as `FAT32_lseek` keeps it. At the end of a file on a cluster boundary the sector the code asks for does not exist; the device is taken to give nothing for it.
- FatFiles.Volume.Write: from a position behind the last cluster only what fits one cluster, with a medium that ends before the sectors the end mark stands for; a longer one would read a table entry behind the table. What a copy of a negative length (`stray`) does, device errors, which the driver never reports, and a failing `kmalloc` are not modelled.
- FatWrite.WriteStartsChain: asked only when a cluster fits below the tables; otherwise the stores to sector 0 and on reach the tables themselves (`FatWrite.FirstWriteSparesTableIff`, `FatWrite.FirstWritePaints`).
- LongName.ReadLongName: a name's entries lie in one cluster; at the start of the buffer the C code would read before it, the model stops.
- Processor.SleepOn: one processor; each system call and handler is one step, since interrupts are off in them. Kernel threads that run with interrupts on are not covered. The mask of `wakeup` is a set of states.
- Processor.ForkTask: memory, files and registers of the new task, the paths on which they cannot be had, and the reclaiming of zombies by `sys_wait4`, are left out; `vrun_time` does not overflow.
- Processor.RequestList.EndRequest: the request is known by its wait node; the memory it lies in is given back in `Slabs`, not here.
- Kernel.StepKeeps: the idle task is taken never to block or exit; tasks, wait lists and semaphores are numbered. `KernelLists` ties the lists in memory to them, one wait queue, semaphore or request list at a time, and `ManyQueues` says that another one is not touched.
- Spinlock.MutualExclusion: `spin_trylock`, which takes a contended word for success, is left out, and so is nesting of several locks.
- IdeDriver.Driver.ReadHandler: the device is an array of sectors with one interrupt a sector and no errors; the buffer of a request belongs to it until it ends.
- IdeDriver.Driver.CmdOut: the IDENTIFY command, which falls through into the error branch, and a request for no sectors, which no caller makes, are left out.
- Short 8.3 names: reading and comparing them treat digits and case flags differently.
- `slab_create` and its group have no caller; `add_timer` keeps no order; `keyboard_read` keeps no order at the wrap-around.
- Boot code before `init_memory`, descriptor tables, interrupt controllers, traps, the context switch itself, run queues of several processors, text output, and the shell.
