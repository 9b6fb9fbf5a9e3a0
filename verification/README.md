# LuoOS in Dafny

A model of the parts of the LuoOS kernel where correctness is hard to see by reading one function, with proofs of what
those parts promise together: the Sv39 page-table editor, the buddy page allocator, the TLSF heap, FAT32 cluster chains,
files and long names, address spaces with copy-on-fork memory objects, the pipe with its condition variables, the
scheduler, and the virtio block driver.

Code that updates things in place is modelled by classes whose methods follow the source statement by statement; each
method is proved against a function or an invariant on values, and the lemmas are about those values.  A panic or a
failing assertion of the kernel is either proved unreachable or modelled as an explicit outcome (`None`, `ok == false`).

| files | modules |
|---|---|
| `Basics`, `Powers` | types and arithmetic shared by the others |
| `PageTree`, `PageLeaves`, `PageEdit`, `PageMemory`, `PageCovered`, `Physical`, `PageCreate`, `PageRemove`, `PageTable`, `Sv39` | the page table as a tree of values, its encoding in physical frames, the nodes a request covers, creating and removing mappings, the class that edits the frames, the hardware's walk |
| `BuddyTree`, `BuddyArray`, `Buddy` | the buddy tree as a value, its encoding in the byte array, the page manager |
| `TlsfBits`, `TlsfClass`, `TlsfLists`, `TlsfHeap`, `TlsfLive`, `TlsfBytes`, `TlsfLost`, `Tlsf` | bit scans, size classes, segregated free lists, blocks in memory, the client's view, the bytes written and copied, what an oversized realloc does, the allocator |
| `FatDisk`, `FatVolume`, `FatChain`, `FatFile`, `FatName`, `FatScan`, `FatDir` | sectors, the super block's operations, cluster chains, files, names in directory records, what a search makes of a directory's bytes, directories |
| `Vmo`, `Vmar` | pagers and memory objects, address spaces |
| `Pipe`, `PipeRuns`, `Sched`, `SchedRuns` | the pipe and the scheduler, and their runs |
| `Virtio`, `VirtioDisk` | the driver and device as one machine, the driver |

Conventions.  Page and cluster numbers, addresses and sizes are unbounded integers with the source's bounds stated where
they matter (32-bit sums in file offsets, 16-bit ring indices, 28-bit FAT entries, page numbers below the Sv39 limits).
Page-table permissions are the eight low bits of an entry.  The disk is a flat array of 512-byte sectors on device 0.
All page tables and memory objects share one physical memory, whose frames are free, page-table nodes, or hold data.
The kernel is not preempted between waits, so the part of a pipe operation between two waits, and a sleep with the
scheduling that follows it, are single steps.

Where the code does not keep a promise, the model follows the code, a lemma shows the failure, and the exact condition is
proved:

- Mapping a range changes other translations exactly when one superpage holds both the page before and the page after the
  range (`Paging.FunctionalUpdateIff`, `Sv39.LostPages`).
- Mapping a range loses page-table nodes exactly when a node below the root lies wholly in it: the leaf is stored over
  the pointer to the node, whose frame then belongs to no table and is not free.  The frames lost are exactly those of
  such nodes (`Paging.NoNodeLostIff`, `PageCovered.CoveredIff`, `Paging.LostNode`).
- A mapping request on a table that hardware and kernel translate alike keeps it so exactly if it is for nothing, or is
  not write-only and has its page and frame congruent modulo the size of each leaf it makes (`Sv39.MapAgreesIff`).  After
  unmapping a range they agree exactly if they agreed outside it (`Sv39.UnmapAgreesIff`).
- The buddy allocator loses every page exactly when it is given a power of two of them, because the root is never marked
  free.  Then, too, the assertion that a freed node is marked taken reads the root's byte, which nothing has written
  yet: it holds exactly if that byte happens to be 0 (`Buddy.PageMgr.constructor`).
- A TLSF request is looked up in a class inside the table exactly if its rounded size is at most 2^30 - 2^27
  (`TlsfClass.MappingSearch`).
- `tlsf_realloc` keeps the heap of its pools exactly if it is not asked to make a block of 32 bytes or more 2^30 bytes or
  larger; otherwise the block becomes the end of its pool, which falls in two, and is lost (`Tlsf.Tlsf.Realloc`,
  `TlsfLost.NoHeap`).
- The cluster handed out is a data cluster exactly if one is free and the first two FAT slots are marked; otherwise it can
  be a slot past the data area (`FatVolume.LowestIsDataIff`).
- Long names are read back inside the 256-byte name buffer exactly if they have at most 247 characters
  (`FatName.NameRoundTrip`).
- Unmapping part of a mapping keeps only the part above the region (`Vmar.AddressSpace.Unmap`).
- A clone whose pages are not loaded at once shows later writes to the original (`Vmo.LazyCloneLeaks`).
- A pipe can lose a wakeup in three ways.  A task woken from elsewhere, as by the end of a child, stays on its waiting
  list, and a later notification is spent on that entry (`PipeRuns.LostWakeup`); a task killed while it waits
  stays there too (`PipeRuns.LostToDead`); and a task killed after it was woken does not pass the wakeup on (`PipeRuns.LostToWoken`).
  A run loses none exactly if whenever notifications are made a sleeper is at the head of the list where one is needed,
  and whenever tasks die others are on the way for those they were to wake (`PipeRuns.NoLostWakeupIff`).
- A killed task stays dead exactly as long as it does not go to sleep itself (`SchedRuns.ZombieStays`,
  `SchedRuns.ZombieRevived`).

## Model

| member | source | states |
|---|---|---|
| Paging.PageTable.constructor | kernel/vm/pagetable.cc:153-160 | a new table is one zeroed frame and maps nothing |
| Paging.PageTable.Trans | kernel/vm/pagetable.cc:8-18 | the walk returns the frame of the leaf covering the page, at any level, and fails exactly where nothing is mapped |
| Paging.PageTable.Map | include/vm.hh:180-182 | after mapping, every page of the range translates to its frame and every other page as before, if and only if no superpage lies across the whole range; tables with other nodes are untouched; every frame is still free or a node, the nodes outside the table being those that were and the ones the request covers; more than ten free frames make it succeed, and it takes at most ten |
| Paging.PageTable.Unmap | include/vm.hh:184-186 | succeeds if and only if no superpage lies across an end of the range; then exactly the range is unmapped and every node left empty is freed |
| Paging.PageTable.MapAndUnmap | kernel/vm/vm.cc:17-27 | mapping a range where nothing was and unmapping it ends with the old tree, the old node frames, the old free frames and all other nodes as they were |
| Paging.PageTable.CreateMapping | kernel/vm/pagetable.cc:23-86 | the recursive editor carries out the request in the frames below a node: translation, tidiness, frames conserved, other frames untouched |
| Paging.PageTable.Descend | kernel/vm/pagetable.cc:29-50 | the unaligned head or the rest of a request is carried out in the node below one entry |
| Paging.PageTable.Enter | kernel/vm/pagetable.cc:65-84 | the node below an entry is the old one, a blank one, or a broken-up superpage that still maps the pages outside the request on one side |
| Paging.PageTable.CreatePTNode | kernel/vm/pagetable.cc:153-160 | takes one free frame and zeroes it; fails exactly if there is none |
| Paging.PageTable.FreePTNode | kernel/vm/pagetable.cc:161-173 | frees the node if and only if it has no valid entry |
| Paging.PageTable.RemoveMapping | kernel/vm/pagetable.cc:87-137 | its assertions hold if and only if no superpage is cut; the frames then encode the tree with the range pruned, and exactly the dropped nodes are free again |
| Paging.PageTable.RemoveSlot | kernel/vm/pagetable.cc:107-123 | a whole entry is removed and the assertion that its node is then empty cannot fail |
| Paging.PageTable.RemovePart | kernel/vm/pagetable.cc:93-105 | removal inside one entry frees its node exactly if nothing is left in it |
| Paging.FunctionalUpdateIff | kernel/vm/pagetable.cc:23-86 | a creation is a functional update of the translation if and only if no superpage straddles it |
| Paging.NoNodeLostIff | kernel/vm/pagetable.cc:51-64 | every node of the table is still in it after a mapping if and only if no node below the root lies wholly in the range; the others stay in memory, as nodes of no table |
| Paging.LostNode | kernel/vm/pagetable.cc:51-64 | mapping the first 512 pages over a table in which the first page is mapped loses the lowest node |
| Paging.CarriedFrames | kernel/vm/pagetable.cc:23-86 | apart from the table's own nodes memory holds the nodes it held before and those the request covers, no more and no fewer |
| PageCovered.CoveredIff | kernel/vm/pagetable.cc:51-64 | the frames covered, as the recursion of the editor finds them, are those of the nodes below the root that lie wholly in the range |
| Paging.CreatedIsClean | kernel/vm/pagetable.cc:23-137 | a range created where nothing was mapped can always be removed |
| Paging.RoundTrip | kernel/vm/pagetable.cc:23-173 | creating a mapping where nothing was and removing it restores the tree, the nodes' frames and the free frames |
| Paging.FineUncut | kernel/vm/pagetable.cc:23-137 | in a table without superpages every removal succeeds and every creation is a functional update |
| PageEdit.Compose | kernel/vm/pagetable.cc:49-64 | two requests that meet at an entry boundary are one request |
| PageEdit.PartSlot | kernel/vm/pagetable.cc:29-50 | passing a request to the node below an entry, after a pushdown if need be, carries it out; requests below 512 pages create no superpage |
| PageEdit.WholeSlot | kernel/vm/pagetable.cc:51-64 | storing a leaf carries out a request for a whole entry |
| PageLeaves.ComposePlaced | kernel/vm/pagetable.cc:23-86 | two requests that meet at an entry boundary make leaves of the sizes the whole request would |
| PageTree.PrunedLookup | kernel/vm/pagetable.cc:87-137 | pruning a range whose ends cut no superpage unmaps the range and nothing else |
| PageTree.PrunedFind | kernel/vm/pagetable.cc:87-137 | the leaves left by such a pruning are the old ones, each as large as it was |
| PageTree.PrunedShape | kernel/vm/pagetable.cc:87-137 | pruning keeps the tree well formed, adds no node, and keeps that no node below the root is empty |
| Sv39.HardwareWalk | kernel/vm/pagetable.cc:8-86 | the Sv39 translation process yields what the kernel's table means, except that it faults at misaligned superpages and write-only leaves |
| Sv39.HardwareAgreesIff | kernel/vm/pagetable.cc:8-86 | hardware and kernel agree on a page if and only if its leaf is aligned and not write-only |
| Sv39.RequestAccepted | kernel/vm/pagetable.cc:23-86 | the hardware accepts all leaves of a request if and only if it is not write-only and page and frame are congruent modulo each leaf size |
| Sv39.OtherLeaf | kernel/vm/pagetable.cc:29-84 | breaking up a superpage leaves leaves the hardware accepts if it accepted the superpage |
| Sv39.MapAgreesIff | kernel/vm/pagetable.cc:8-86 | a mapping request on a table on which hardware and kernel agree keeps them in agreement on every page if and only if a condition on the request alone holds |
| Sv39.UnmapAgreesIff | kernel/vm/pagetable.cc:87-137 | after unmapping a range hardware and kernel agree on every page if and only if they agreed on the pages outside it; so unmapping keeps agreement, and can restore it |
| Sv39.LostPages | kernel/vm/pagetable.cc:36-49 | remapping one page inside a gigabyte page loses the page after it |
| Buddy.Log2Up | include/klib.hh:40-44 | the least r with n <= 2^r |
| Buddy.PageMgr.constructor | kernel/alloc.cc:79-94 | all managed pages are free afterwards if and only if their number is not a power of two; the assertions on the way hold if and only if it is not, or the byte of the root was 0 to begin with |
| Buddy.PageMgr.FreeUnaligned | kernel/alloc.cc:95-102 | frees exactly the managed pages, in the blocks of the number's binary digits; its assertions fail exactly if the number is a power of two and the byte of the root, not written yet, is not 0 |
| Buddy.PageMgr.Pos2Node | include/alloc.hh:28-36 | the node of the block of that order holding the position |
| Buddy.PageMgr.FindFree | kernel/alloc.cc:114-130 | once the root byte is large enough the descent ends at a free node of exactly the wanted order, whatever the stale bytes below, always in the half with less to spare of those that have room |
| Buddy.PageMgr.Refresh | kernel/alloc.cc:132-134 | recomputing the bytes up to the root restores the encoding |
| Buddy.PageMgr.Alloc | kernel/alloc.cc:105-141 | succeeds if and only if an aligned free run of the rounded size exists; the block handed out was free, is aligned, lies inside the managed pages, and free and live pages still add up; at each divided node the block is looked for in the half that has room and no more to spare than the other, if both have |
| Buddy.PageMgr.Put | kernel/alloc.cc:142-153 | marking a node free and joining halves on the way up adds exactly its pages to the free ones |
| Buddy.PageMgr.Free | kernel/alloc.cc:142-153 | a live block's pages become free again, and the other live blocks stay as they are |
| Buddy.RootByte | kernel/alloc.cc:105-111 | the root byte exceeds j if and only if an aligned run of 2^j pages is entirely free |
| Buddy.NodeToPpn | kernel/alloc.cc:136-136 | the closed form for a node's first page inverts the index arithmetic |
| Buddy.BlockPosition | include/alloc.hh:28-36 | a block's first page leads back to its node |
| BuddyArray.Moves | include/alloc.hh:25-27 | the index formulas move between a node, its halves and its parent |
| BuddyTree.ValBoundsRuns | kernel/alloc.cc:105-153 | no free aligned run is larger than a node's byte says |
| BuddyTree.ValHasRun | kernel/alloc.cc:105-153 | a free aligned run as large as a node's byte says exists below it |
| TlsfBits.FlsGeneric | include/thirdparty/tlsfbits.h:131-143 | one more than the highest set bit, 0 for a word of zeros |
| TlsfBits.Ffs | include/thirdparty/tlsfbits.h:146-149 | the lowest set bit, isolated by and-ing with the two's complement; -1 for a word of zeros |
| TlsfBits.FlsSizet | include/thirdparty/tlsfbits.h:160-174 | the binary logarithm of any 64-bit size |
| TlsfClass.MappingInsert | thirdparty/tlsf.cc:301-318 | the one class whose range holds the size |
| TlsfClass.MappingSearch | thirdparty/tlsf.cc:321-329 | the first class all of whose sizes are large enough; it is in the table if and only if the request is at most 2^30 - 2^27 |
| TlsfClass.FitsOnce | thirdparty/tlsf.cc:301-318 | a size has one class |
| TlsfClass.InTable | thirdparty/tlsf.cc:301-318 | a size's class is in the table if and only if the size is below 2^30 |
| TlsfClass.ClassStep | thirdparty/tlsf.cc:321-329 | rounding a request up to a class boundary adds at most a quarter |
| TlsfLists.Control.constructor | thirdparty/tlsf.cc:574-589 | all lists and bitmaps are empty |
| TlsfLists.Control.SearchSuitableBlock | thirdparty/tlsf.cc:331-361 | the two bitmap scans find the head of the first list that is not empty from the class on, and null if and only if all are empty |
| TlsfLists.Control.RemoveFreeBlock | thirdparty/tlsf.cc:364-390 | the block leaves its doubly linked list, the others keep theirs, and every bitmap bit still says whether its list is empty |
| TlsfLists.Control.InsertFreeBlock | thirdparty/tlsf.cc:393-411 | the block becomes the head of its list, the others keep theirs, and the bitmaps agree |
| TlsfHeap.Tiled | thirdparty/tlsf.cc:218-258 | every address of a pool lies in exactly one block, and that block lies in the pool |
| TlsfHeap.Marked | thirdparty/tlsf.cc:246-259 | marking a block free or used keeps the blocks, flags and back links of the heap consistent |
| TlsfHeap.Splits | thirdparty/tlsf.cc:435-454 | splitting a block keeps the tiling and the flags, whatever was in the memory of the new block |
| TlsfHeap.Absorbs | thirdparty/tlsf.cc:457-464 | merging a block with the next keeps the tiling and the flags |
| TlsfLive.PoolAdded | thirdparty/tlsf.cc:634-679 | a new pool outside the heap adds one free block and a sentinel, and keeps every other pool tiled |
| TlsfLive.DataApart | thirdparty/tlsf.cc:705-710 | the data of two blocks in use never overlap |
| TlsfLive.ClientHeap | thirdparty/tlsf.cc:86-95 | clients may overwrite all memory but the size fields of blocks and the back links after free blocks |
| TlsfBytes.OwnSafe | thirdparty/tlsf.cc:86-95 | a store into a block's own memory, from its size up to the next block's, touches the data of no other block in use |
| TlsfBytes.HeaderLayout | thirdparty/tlsf.cc:86-121 | back link and size are eight bytes each, right before the data, whose first sixteen bytes are the links of a free block |
| TlsfBytes.DataKept | thirdparty/tlsf.cc:246-259 | over stores that are all safe for a block its bytes do not change |
| TlsfBytes.ReallocKeeps | thirdparty/tlsf.cc:792-847 | after a realloc every byte of every other block is the same, and the first bytes of the block, as many as the smaller of the two sizes, are found at the address returned, whether the block moved or not |
| TlsfLost.Cuts | thirdparty/tlsf.cc:435-454 | a block cut down to nothing ends its pool: the memory is a heap again, of the two parts the pool falls in |
| TlsfLost.NoHeap | thirdparty/tlsf.cc:511-523 | no choice of blocks makes the memory a heap of the old pools, or the block one in use |
| TlsfLost.SamePool | thirdparty/tlsf.cc:218-258 | pools that share a block are the same |
| Tlsf.AdjustRequest | thirdparty/tlsf.cc:285-294 | 0 exactly for requests of 0 or of 2^30 and more; otherwise the least multiple of 4 that is at least the request and at least 24 |
| Tlsf.Adjusted | thirdparty/tlsf.cc:285-294 | comparing with the adjusted request is comparing with every size that suits the request |
| Tlsf.NoRoomBound | thirdparty/tlsf.cc:705-710 | good fit: a request fails only if every free block is smaller than five quarters of any size that suits it |
| Tlsf.Tlsf.BlockLocateFree | thirdparty/tlsf.cc:541-559 | the block found is at least as large as the request; none is found if and only if no free block reaches the next class boundary |
| Tlsf.Tlsf.BlockSplit | thirdparty/tlsf.cc:435-454 | the memory after a split, for any former contents, and the stores made |
| Tlsf.Tlsf.BlockTrimFree | thirdparty/tlsf.cc:498-508 | the block keeps less than 32 bytes more than the request, and the rest is a free block in its list; no store touches data in use |
| Tlsf.Tlsf.BlockPrepareUsed | thirdparty/tlsf.cc:561-571 | the located block is the one more block in use |
| Tlsf.Tlsf.BlockMergePrev | thirdparty/tlsf.cc:467-479 | afterwards no free block lies before; nothing in use changes |
| Tlsf.Tlsf.BlockMergeNext | thirdparty/tlsf.cc:482-495 | afterwards no free block lies behind; nothing in use changes |
| Tlsf.Tlsf.BlockTrimUsed | thirdparty/tlsf.cc:511-523 | a used block is cut down exactly if the rest can be a block, which is merged with a free one behind it; cut down to nothing it is lost, and the heap of the old pools with it |
| Tlsf.Tlsf.BlockExtend | thirdparty/tlsf.cc:834-838 | a used block grows over the free block behind it |
| Tlsf.Tlsf.AddPool | thirdparty/tlsf.cc:634-679 | accepts exactly aligned memory of a legal size, keeps the whole invariant, every block in use and its data |
| Tlsf.Tlsf.Malloc | thirdparty/tlsf.cc:705-710 | keeps the whole heap invariant; null if and only if the request is 0 or 2^30 and more, or no free block reaches the class boundary above the least size that suits it; otherwise one new block in use, at least that large and less than 32 bytes larger, and all others as they were, with their data |
| Tlsf.Tlsf.Free | thirdparty/tlsf.cc:765-776 | keeps the whole heap invariant and takes exactly that block out of use; no store touches the data of the others |
| Tlsf.Tlsf.Realloc | thirdparty/tlsf.cc:792-847 | free, malloc, in-place growth, trimming or a move: the block stays where it is if and only if it, or it and a free one behind it, is large enough, and otherwise the result is null if and only if nothing fits, which leaves everything in use; the other blocks stay with their data, the block keeps its first bytes where it was or where they were copied; the heap of the pools survives if and only if the request is below 2^30 or the block below 32 bytes |
| Tlsf.Tlsf.ClientWrites | thirdparty/tlsf.cc:86-95 | writes by clients between operations keep the invariant |
| FatDisk.SetWord | include/bio.hh:73-78 | storing a little-endian word and reading it back is the identity, and other bytes stay |
| FatDisk.FatAddress | include/fat.hh:79-80 | entry c of the FAT is the four bytes at 4 * c behind the reserved sectors, low byte first |
| FatDisk.DataAddress | include/fat.hh:77-77 | byte k of cluster c lies k bytes behind c - 2 clusters behind the reserved sectors and all FATs |
| FatDisk.FatWritten | include/fat.hh:79-80 | writing at an entry's sector and offset changes that entry of the FAT only, and no cluster |
| FatDisk.DataWritten | include/fat.hh:77-77 | writing into a sector of a cluster changes that stretch of that cluster only, and no FAT entry |
| FatVolume.Volume.FatRead | kernel/fs/fat.cc:659-667 | the successor of a cluster; end marks stay, numbers past the data area give 0 |
| FatVolume.Volume.FatWrite | kernel/fs/fat.cc:676-683 | changes one FAT entry, and refuses exactly numbers past the data area |
| FatVolume.Volume.ClearClus | kernel/fs/fat.cc:668-675 | one cluster becomes zeros, nothing else changes |
| FatVolume.Volume.AllocClus | kernel/fs/fat.cc:334-352 | takes the lowest free slot, and if that is a data cluster's marks exactly the entry fatRead reads and clears the cluster; fails if and only if no slot is free |
| FatVolume.LowestIsDataIff | kernel/fs/fat.cc:334-352 | the slot taken is a data cluster's if and only if a data cluster is free and the first two slots are marked |
| FatVolume.Volume.WriteClus | kernel/fs/fat.cc:640-658 | stores the bytes at the offset across sector boundaries, all of them, and nothing else |
| FatVolume.Volume.ReadClus | kernel/fs/fat.cc:640-658 | fetches exactly that stretch of the cluster |
| FatChain.ChainUnique | kernel/fs/fat.cc:305-333 | a first cluster determines its chain |
| FatChain.ChainAcyclic | kernel/fs/fat.cc:305-352 | a chain that ends visits no cluster twice |
| FatChain.OtherChain | kernel/fs/fat.cc:305-352 | growing a file leaves any chain disjoint from it a chain with the same bytes, still disjoint |
| FatChain.FilesGrown | kernel/fs/fat.cc:305-352 | a file system of pairwise disjoint chains stays one when a file grows, and no other file's bytes change |
| FatChain.FilesFreed | kernel/fs/fat.cc:392-403 | truncation frees exactly the file's clusters and leaves the other files and their bytes |
| FatChain.WalkFollows | kernel/fs/fat.cc:392-403 | on any FAT, cyclic ones included, truncation visits exactly the clusters the first one leads to |
| FatChain.WalkChain | kernel/fs/fat.cc:392-403 | on an intact chain truncation visits the chain, in order |
| FatChain.UsedDrops | kernel/fs/fat.cc:392-403 | each step of a truncation over a used entry lowers the number of used entries, which bounds it |
| FatChain.BytesWritten | kernel/fs/fat.cc:640-658 | storing into link k of a chain is storing into the chain's bytes at that link's position |
| FatChain.BytesRead | kernel/fs/fat.cc:640-658 | a stretch of link k is that stretch of the chain's bytes |
| FatFile.DirEnt.constructor | kernel/fs/fat.cc:171-180 | a file opened at its first cluster has its cursor on link 0 |
| FatFile.DirEnt.Lengthen | kernel/fs/fat.cc:309-313 | hangs one cleared cluster on to the chain; refuses only if none is free |
| FatFile.DirEnt.Rewind | kernel/fs/fat.cc:323-331 | walks to the link from the start; the panic is unreachable |
| FatFile.DirEnt.RelocClus | kernel/fs/fat.cc:305-333 | the cached cursor lands on link off / BPC and the result is off % BPC, as a walk from the start would; missing links are appended as zeros or reported |
| FatFile.DirEnt.EntRead | kernel/fs/fat.cc:501-518 | returns the bytes of the file from the offset on, as many as there are, and changes no disk |
| FatFile.DirEnt.EntWrite | kernel/fs/fat.cc:519-546 | the file becomes the old bytes with the new ones over them, its size the larger of the two, other files untouched; refused exactly past the end, past 32 bits or if read-only |
| FatFile.DirEnt.EntTrunc | kernel/fs/fat.cc:392-403 | terminates on every FAT; frees exactly the walk from the first cluster, which is the chain if it is intact |
| FatName.PackPiece | kernel/fs/fat.cc:463-485 | the 13 characters, the terminator and the padding land in the three text fields of the record |
| FatName.Snstr | utils/klibc.cc:231-238 | characters up to the first zero are narrowed, the rest cleared except the last place |
| FatName.OrderBits | kernel/fs/fat.cc:286-290 | the order byte of a record is its piece number and, in the bit of value 0x40, whether it is the last piece |
| FatName.ReadEntName | kernel/fs/fat.cc:110-119 | the three groups of a record narrowed into the name buffer |
| FatName.ReadShortName | kernel/fs/fat.cc:120-130 | the name buffer then holds the characters before the padding, a dot and the extension if there is one, and zeros |
| FatName.ShortRoundTrip | kernel/fs/fat.cc:120-130 | a name and extension padded with spaces are read back with a dot between them, or none without an extension |
| FatName.PieceCopied | kernel/fs/fat.cc:110-119 | unpacking a packed piece puts its characters back and leaves the end of the name zero |
| FatName.NameRoundTrip | kernel/fs/fat.cc:252-304 | scanning at the place an entry was written finds its name, attribute, first cluster, size and record count, whatever else the directory holds, for names of up to 247 characters; longer ones overrun the buffer |
| FatScan.ScanIs | kernel/fs/fat.cc:252-304 | a search passes long-name records, then deleted ones, and what it finds is what the record it ends at says: nothing at the end, the number of deleted records, or that record's attribute, first cluster and size |
| FatScan.Parts | kernel/fs/fat.cc:265-302 | from every offset every directory has that shape |
| FatScan.DeletedIs | kernel/fs/fat.cc:277-284 | n deleted records before a live one give the count n |
| FatScan.PlainIs | kernel/fs/fat.cc:294-300 | a live short record alone gives its name, attribute, first cluster and size from the bytes where the format has them |
| FatScan.EndIff | kernel/fs/fat.cc:267-302 | nothing is found if and only if a zero record or the last cluster ends the search |
| FatScan.ShortRead | kernel/fs/fat.cc:488-497 | a short record written on its own is read back |
| FatScan.SneLayout | include/fat.hh:133-147 | where name, attribute, first cluster and size lie in a short record, and that the rest is zero |
| FatScan.DotsRead | kernel/fs/fat.cc:453-462 | the records of a directory itself and its parent are read back as "." and ".." with their first clusters |
| FatDir.PutRecord | kernel/fs/fat.cc:487-488 | one record is stored at an aligned directory offset, in whichever cluster it lies |
| FatDir.PutDots | kernel/fs/fat.cc:453-462 | at the first two offsets the record of the directory itself or of its parent is stored, and found there |
| FatDir.PutName | kernel/fs/fat.cc:463-498 | the records of a long name, last piece first, and the short record are stored and found there |
| FatDir.EntCreateOnDisk | kernel/fs/fat.cc:448-499 | the records go one after the other into the directory's clusters, grown if need be, and the next entry at that offset is the one written; at the first two offsets it is "." or ".." |
| FatDir.ReadRecord | kernel/fs/fat.cc:268-270 | the record at a directory offset, read from the cluster it lies in; none exactly past the last cluster |
| FatDir.EntNext | kernel/fs/fat.cc:252-304 | looking for the next entry computes the scan of the directory's bytes, across clusters, so it finds what the record says at which the scan ends |
| Vmo.Objects.TakeFrame | kernel/vm/vm.cc:9-11 | a page buffer gets a frame that was free and was neither a page-table node nor held data; fails exactly if none is free |
| Vmo.Objects.LoadVnode | include/vm/pager.hh:15-28 | a file page is read once and changes no contents; one free frame is enough |
| Vmo.Objects.LoadTo | include/vm/pager.hh:59-80 | the frame gets what the page holds through any depth of pagers, trimmed to the backing region; nothing else changes |
| Vmo.Objects.Load | include/vm/pager.hh:50-58 | a page is entered in its pager with the contents it had before it was loaded; two free frames are enough, through any depth of pagers, and no more are taken |
| Vmo.Objects.Req | include/vm/vmo.hh:15-23 | the object's page is its pager's page; no contents change; two free frames are enough |
| Vmo.Objects.Attach | kernel/syscall/mm.cc:38-49 | a shared file mapping is a new object on the file's pager; no contents change |
| Vmo.Objects.Shadow | kernel/syscall/mm.cc:46-49 | a private mapping is a new object whose pager no other object has; each of its bytes is the backing pager's at that address if the address lies in the region, and 0 otherwise |
| Vmo.ShadowWindow | include/vm/pager.hh:59-80 | an object over bytes [l, r) of a pager shows exactly those bytes, in place, and zeros around them, on the first and the last page too |
| Vmo.FileWindow | kernel/ld.cc:65-67 | over a file not loaded there, each byte is the file's at that address inside the region, and 0 past the region or the file |
| Vmo.Objects.Clone | include/vm/vmo.hh:31-35 | the clone holds what the original holds and shares its pager with no other object |
| Vmo.Objects.Write | include/vm/vmo.hh:15-23 | a client's write goes to the frame of that page |
| Vmo.WroteContents | include/vm/pager.hh:50-80 | a write shows in that page of every object on the same pager that has it loaded, and in no other loaded page |
| Vmo.WroteOlder | include/vm/pager.hh:50-80 | a write changes no page, loaded or not, of an object with an older pager |
| Vmo.History | include/vm/pager.hh:50-80 | over any run of loads, clones, new mappings and writes a loaded page holds its starting contents or the last write through an object on its pager |
| Vmo.Isolated | include/vm/pager.hh:50-80 | over any such run a loaded page of a private object holds its starting contents or its own last write |
| Vmo.OlderUnaffected | include/vm/pager.hh:50-80 | at no step of any run does a write through an object change a page of an object with an older pager |
| Vmo.LazyCloneLeaks | include/vm/vmo.hh:31-35 | without loading at once, the clone shows the original's later writes |
| Vmar.AddressSpace.constructor | include/vm.hh:209-209 | an empty address space is consistent |
| Vmar.AddressSpace.Populate | kernel/vm/vm.cc:35-41 | every page of the mapping is loaded and shown with its permission; other translations stay; more than 12 free frames for each page make it succeed, and it takes no more |
| Vmar.AddressSpace.Map | kernel/vm/vm.cc:29-44 | a mapping disjoint from the others joins them in order, and every translation is still that of the one mapping it lies in; on demand it always succeeds and takes no frame, otherwise more than 12 free frames a page make it |
| Vmar.AddressSpace.FindMapping | include/vm.hh:200-206 | on a set that is not empty the search by order finds a mapping if and only if one contains the page |
| Vmar.AddressSpace.Contains | include/vm.hh:277-282 | the linear scan answers the same question |
| Vmar.AddressSpace.PageFault | include/vm.hh:218-226 | shows the faulting page of the mapping it lies in, and changes no other translation; more than 12 free frames make it succeed |
| Vmar.AddressSpace.Unmap | include/vm.hh:231-257 | no page of the region is mapped or translated; a page is mapped afterwards if and only if it was in a mapping that has no page of the region, or above the region, and then shows the same page of the same object with the same permission; translations change exactly at the pages of mappings that have a page of the region, whose pages outside it have all been loaded; more than 12 free frames for each page of those mappings make it succeed |
| Vmar.CutRemains | include/vm.hh:238-255 | the mappings left, page by page, for any ordered set of mappings and any region |
| Vmar.PieceStays | include/vm.hh:240-249 | what is left of one mapping are its pages above the region, or all if it has no page of it |
| Vmar.AddressSpace.TakeOut | include/vm.hh:239-254 | the overlapped mapping's pages are translated no more, although its slices were shown again first, which has loaded their pages; more than 12 free frames a page make it succeed |
| Vmar.AddressSpace.MapPage | include/vm.hh:180-182 | in a table without superpages mapping one page changes that translation only and loses no node |
| Vmar.AddressSpace.Reset | kernel/vm/vm.cc:72-84 | exactly the system's mappings and their translations stay |
| Vmar.AddressSpace.CopyMapping | include/vm.hh:136-141 | a shared mapping is copied with its object, a private one with a loaded private clone holding the same bytes; more than 12 free frames a page make it succeed |
| Vmar.AddressSpace.CopyFrom | include/vm.hh:210-212 | a copied address space is consistent and mirrors every mapping; the original's page table, in the same physical memory, and its contents stay; every frame is still free, a node or data, and apart from the copy's the nodes are the same; more than 12 free frames for each page mapped make it succeed |
| Vmar.ForkIsolated | include/vm.hh:210-212 | whatever both sides do later, a private page of the copy holds the original's bytes at the copy or its own last write |
| Vmar.OriginalIsolated | include/vm.hh:210-212 | whatever both sides do later, a page the original had loaded holds its bytes at the copy or the last write through an object on its pager, which the copy's is not |
| Vmar.CopyInvisible | include/vm.hh:136-141 | at no step of any run does a write through the copy change a page of the original's object, loaded or not |
| Vmar.ShowsData | include/vm.hh:218-226 | every page a consistent address space shows is a frame that holds data, never a page-table node or a free frame |
| Vmar.SameFrame | include/vm.hh:218-226 | pages that show the same frame, in one address space or two, are the same page of the same pager |
| Pipe.Pipe.Write | include/ipc.hh:36-54 | a write up to its next wait or return appends what fits, wakes and waits as the step function on the abstract pipe says |
| Pipe.Pipe.Read | include/ipc.hh:55-73 | a read up to its next wait or return delivers the oldest bytes, wakes and waits as the step function says |
| Pipe.Pipe.Append | include/ipc.hh:39-50 | a copy into the ring array extends the queue's contents at the end |
| Pipe.Pipe.Take | include/ipc.hh:59-69 | a copy out of the ring array removes the queue's first bytes |
| Pipe.Pipe.TryWakeup | include/ipc.hh:32-35 | wakes one reader if there is data and one writer if there is room |
| Pipe.Pipe.DecReader | include/ipc.hh:25-25 | the last reader leaving wakes all writers |
| Pipe.Pipe.DecWriter | include/ipc.hh:27-27 | the last writer leaving wakes all readers |
| Pipe.Pipe.Wakeup | kernel/sched.cc:75-81 | only a task that is asleep is made ready |
| Pipe.Pipe.NotifyAllW | kernel/lock.cc:36-41 | everybody on the list who is asleep is woken, and the list emptied |
| PipeRuns.NextKeeps | include/ipc.hh:24-73 | every step, wakeups from elsewhere and deaths included, keeps that sleepers are on their lists and have the other side, and the byte order; a read or write leaves nobody who could go on uncovered if and only if the heads of the lists serve |
| PipeRuns.DiedExact | kernel/syscall/proc.cc:180-187 | when tasks die together, nobody who could go on is left uncovered if and only if, for each kind of which a woken one dies while another who could go on sleeps, a woken one lives |
| PipeRuns.DiedFresh | kernel/sched.cc:82-86 | a death leaves the lists without stale entries if and only if none of the dead was asleep at the pipe |
| PipeRuns.NoLostWakeupIff | include/ipc.hh:32-73 | a run of reads, writes, wakeups from elsewhere and deaths never leaves a sleeper who could go on without a woken colleague if and only if, whenever notifications are made, a sleeper of the kind that needs one is at the head of a notified list, and, whenever a woken task dies, another of its kind is on the way if one is needed |
| PipeRuns.NoLostWakeup | include/ipc.hh:24-73 | if whenever a read or write runs no task is on a list twice or while it is not asleep there, and deaths leave somebody on the way where one is needed, then with nobody left to run sleeping readers mean an empty buffer and a writer, sleeping writers a full buffer and a reader, and never both |
| PipeRuns.NoLostWakeupInside | include/ipc.hh:24-73 | that is so in every state of every run on which no task waiting or woken at the pipe is woken from elsewhere or killed |
| PipeRuns.LostWakeup | kernel/lock.cc:27-45 | a run on which a child's end wakes a reader and later a byte lies in the buffer while another reader sleeps |
| PipeRuns.LostToWoken | kernel/syscall/proc.cc:180-187 | a run without stale entries on which a woken reader is killed and a byte lies in the buffer while another reader sleeps |
| PipeRuns.LostToDead | kernel/sched.cc:82-86 | a run on which a waiting reader is killed and the notification for a byte is spent on its entry while another reader sleeps |
| PipeRuns.FirstInFirstOut | include/ipc.hh:28-73 | in every state of every run, deaths included, the bytes accepted are the bytes delivered followed by the buffer's |
| PipeRuns.CountsUpTo | include/ipc.hh:24-27 | in every state of every run the counts are the readers and writers that have come less those that have gone |
| PipeRuns.AllGone | include/ipc.hh:24-27 | once every reader has gone no writer sleeps, and once every writer has gone no reader does |
| PipeRuns.WriteGoesOn | include/ipc.hh:36-54 | a write that waits goes on where it stopped: what was accepted is the stretch of its bytes it has got past |
| PipeRuns.ShortReturns | include/ipc.hh:42-66 | a read returns nothing exactly at the end of the pipe, a write returns short exactly without readers |
| PipeRuns.Greedy | include/ipc.hh:36-73 | a read takes all it wants or empties the buffer, a write leaves nothing over or fills it; a read waits exactly at an empty buffer with writers, a write exactly if its bytes do not fit and there are readers |
| PipeRuns.ReadInTurn | include/ipc.hh:55-73 | a reader that waits is last on its list; a notification goes to whoever has been on the list longest, and wakes them |
| PipeRuns.WriteInTurn | include/ipc.hh:36-54 | the same for writers |
| Sched.Scheduler.Next | kernel/sched.cc:37-47 | the previous task, if any, is queued again unless it sleeps or is dead, and the head of the first list that is not empty is taken |
| Sched.Scheduler.Add | kernel/sched.cc:52-64 | a task that may run joins the end of its priority's list |
| Sched.Scheduler.Sleep | kernel/sched.cc:66-74 | the task leaves its list and is set aside |
| Sched.Scheduler.Wakeup | kernel/sched.cc:75-81 | only a sleeping task is queued again |
| Sched.Scheduler.Remove | kernel/sched.cc:82-86 | the task leaves its list and is set aside |
| SchedRuns.StepKeeps | kernel/sched.cc:37-86 | every step keeps the lists free of duplicates, dead, sleeping and running tasks, idle excepted, and idle always available |
| SchedRuns.QueuedOnce | kernel/sched.cc:37-86 | in every reachable state a task other than idle is queued at most once, and not at all while it runs or sleeps; the task the scheduler has just picked is neither dead nor asleep |
| SchedRuns.NoTaskLost | kernel/sched.cc:37-86 | in every reachable state a task that neither sleeps nor is dead runs or is queued |
| SchedRuns.PickIs | kernel/sched.cc:37-47 | the task picked is the first of the more urgent list, or of the other if that is empty, after the running one has been queued last unless it sleeps or is dead; the others keep their order |
| SchedRuns.JoinsLast | kernel/sched.cc:52-81 | a new task and one that is woken are queued last in the list of their priority |
| SchedRuns.ZombieStays | kernel/sched.cc:52-86 | a killed task stays dead if and only if it does not go to sleep itself, and no call of the scheduler picks it while it is |
| SchedRuns.ZombieRevived | kernel/sched.cc:66-81 | a running task that is killed, goes to sleep and is woken is queued again |
| SchedRuns.Served | kernel/sched.cc:37-47 | a task at place k of the first list runs after at most k + 1 calls of the scheduler, unless it is killed |
| Virtio.Conservation | kernel/virtio_disk.cc:124-178 | the eight descriptors are the free ones and three per request, so at most two requests are under way |
| Virtio.RingsShort | kernel/virtio_disk.cc:295-306 | neither ring holds more than two, and the used indices are equal modulo 8 if and only if nothing is to be reported |
| Virtio.PostKeeps | kernel/virtio_disk.cc:231-261 | posting a request keeps the invariant; no available slot is overwritten before the device has read it; the device may write the data exactly if the disk is read, always the status, and never the header |
| Virtio.FetchKeeps | kernel/virtio_disk.cc:255-261 | the device finds the requests in the order they were posted |
| Virtio.ReportKeeps | kernel/virtio_disk.cc:295-306 | a completion sets the flag of its own request, which was not set, and no other |
| Virtio.ReleaseKeeps | kernel/virtio_disk.cc:153-163 | freeing a finished request's chain keeps every other chain intact |
| Virtio.RunKeeps | kernel/virtio_disk.cc:190-311 | after any run of driver and device steps descriptors are conserved, the rings are short and a flag is set exactly if its completion was reported |
| VirtioDisk.Driver.AllocDesc | kernel/virtio_disk.cc:124-134 | takes the lowest free descriptor, or reports that there is none |
| VirtioDisk.Driver.Alloc3Desc | kernel/virtio_disk.cc:165-178 | three distinct free descriptors, or, if and only if there are fewer, none and nothing changed |
| VirtioDisk.Driver.Submit | kernel/virtio_disk.cc:204-261 | a request is posted if and only if three descriptors are free |
| VirtioDisk.Driver.DeviceFetch | kernel/virtio_disk.cc:255-261 | what the device reads at its own index is the oldest posted request |
| VirtioDisk.Driver.Intr | kernel/virtio_disk.cc:289-306 | terminates, and sets exactly the flags of the requests completed since the last interrupt |
| VirtioDisk.Driver.FreeChain | kernel/virtio_disk.cc:153-163 | terminates, frees exactly the three descriptors of the request, and its panics are unreachable |

## Left out

- Trap entry and exit, context switches, control registers, devices other than the virtqueue, system calls, the user library, ELF loading, procfs, devfs and ramfs.
- Accessed and dirty bits of page-table entries, and the check that a superpage's frame is aligned, which `createMapping` does not make: the hardware's walk says what follows.
- Exhausted physical memory is a panic in the kernel; here the operation reports failure, and what it leaves of a page table is left open.  The numbers of free frames that rule it out are bounds, not the least ones.
- Buddy.PageMgr.constructor: excludes fewer than two pages, for which the source reads past its array.
- Buddy.PageMgr.FreeUnaligned: only the constructor's call, for all managed pages; the other call, from the destructor of a contiguous memory object, frees fewer pages than its rounded-up allocation took.
- Buddy.PageMgr.Free: page frees that match no allocation.
- TlsfClass.MappingSearch: excludes requests below 16 bytes, for which the source shifts by a negative number; rounding up to the minimum size never makes one.
- Tlsf.Tlsf.BlockLocateFree: excludes the requests `Tlsf.Tlsf.Malloc` excludes.
- Tlsf.Tlsf.Malloc: requests above 2^30 - 2^27 and below 2^30 are excluded by its precondition, because the source then reads a bitmap past its table (`TlsfClass.MappingSearch`).
- Tlsf.Tlsf.Realloc: excludes the same requests.
- Tlsf.Tlsf.AddPool: a pool of exactly 2^30 bytes is excluded by its precondition, because the source accepts it and then indexes past its tables.
- `tlsf_memalign`, the packing of the two flags into the low bits of the size field, and the debugging walk.
- Hard links (`ATTR_LINK`), short-name generation, timestamps, the directory-entry cache, case-insensitive search, and the write-back of sizes into the parent directory.
- FatVolume.Volume.AllocClus: leaves open which sectors are overwritten when the slot is no data cluster's.
- FatFile.DirEnt.EntWrite: for FATs whose slots that stand for no data cluster are all marked (`FatVolume.LowestIsDataIff` says what happens otherwise).
- The block cache: dirty flags and write-back, including that the allocator's mark in the FAT does not set the dirty flag.
- FatName.NameRoundTrip: says only that names of 248 to 255 characters leave the name buffer, not what the memory behind it then holds.
- Contiguous memory objects, `VMAR::protect`, `copyin` and `copyout`, and freeing the frames of memory objects.
- Vmar.AddressSpace.Map: excludes mappings of contiguous memory objects.
- Vmar.AddressSpace.FindMapping: excludes an empty set of mappings, on which the source reads past its end.
- Vmar.AddressSpace.Unmap: the part of a mapping below the region is lost, as in the source, where the slice has the key of the mapping that is erased.
- Timed waits on a pipe, and what a notification meant for an old entry of the pipe's lists does to a task that now sleeps elsewhere.
- The immediate-reschedule bit set by `add`, a second hart, and signals.
- The virtio retry counter: runs are those in which each wait ends by completion; device negotiation, the request's contents and the list of tasks waiting for descriptors.
