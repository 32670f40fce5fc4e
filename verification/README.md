# Allocators, FAT32 files and the 6502 stack of the kernel

This project models four stateful parts of the kernel under `kernel/src` and
proves what they keep over every run.

**liballoc** (`kernel/src/liballoc.c`). `Words`, `Headers` and `Liballoc` model
the code over a byte memory: the eight-word boundary tags live in the same bytes
as the payloads, at arbitrary offsets, and every assignment of the C code is a
32-bit little-endian store. The ghost fields of `Liballoc.Allocator` hold the
decoded tags and an abstract heap (`HeapModel.Heap`): page regions, the blocks
that tile them, the bucketed free lists, the counters of whole free regions and
the requests in use. `HeapLinks.Linked` says that the two pointer structures in
memory, the split chain and the free lists, are those of that heap. Every method
of the class is proved to perform one step on the heap, whatever it does to the
pointers. `HeapOps`, `HeapRuns` and `HeapTheorems` then prove, about the steps and
about runs of them, the tiling of regions, the disjointness and survival of
payloads, the exactness of lists, size classes and counters, the bound on waste,
the balance of the page calls, and that `free` undoes `malloc`. `HeapService` says
when a request is served and from which block, how that block is cut, and where
`free` puts it, in terms of sizes, list places and addresses.

**The page allocator** (`kernel/src/pmm.c`), module `Pmm`. The code is modelled as
written, which differs from the coalescing free list it sets out to be. Its two
search loops never advance, so the model gives the exact condition under which
each call returns, proves disjointness and the usage counter over every run of
returning calls, and says exactly when freed pages can be handed out again.
`KernelHeap` puts liballoc on top of it, as `kernel/src/malloc.c` does, and shows
that the answers of one meet the needs of the other.

**FAT32 and open files** (`kernel/src/fat32.c`, `kernel/src/vfs.c`), modules
`Fat32`, `FatFiles` and `Vfs`. Cluster chains are lists determined by their root;
the directory scan is compared with the list of all entries; reads are compared
with the file's buffer under any interleaving of descriptors. The structures are
those of the Microsoft FAT32 File System Specification 1.03, sections "FAT Data
Structure", "FAT Directory Structure" and "FAT Long Directory Entries". The block
device is a function from sector numbers to 512 bytes.

**The 6502** (`kernel/src/nes6502.c`, `kernel/src/nesbus.c`), modules `NesStack`,
`NesCpu` and `NesClock`. The stack instructions over mirrored RAM refine a machine
whose stack holds frames; well-nested programs come back exactly. The layout
lemmas of `NesStack` spell out the bytes, addresses and status bits of each
instruction. The cycle counter follows the 256-entry instruction table, whose
entries obey the laws of `NesClock.TableIsTimed` and `NesClock.OpcodesSpell`.

Where the code and its comments disagree, the model follows the code:

- `allocPage` and `freePage` are meant to walk a list of chunks. Neither walks
  (`Pmm.AllocReturnsIff`, `Pmm.FreeReturnsIff`), and a range freed while a root
  chunk exists is never handed out again, nor any page of it (`Pmm.FreedIsLost`,
  `Pmm.ReclaimedIff`).
- `fat_fopen` stops at the first call of `fat_readdir` that reports nothing, which
  is not the end of the directory. It finds what is there exactly when every record
  in front of the file is an entry or a long-name record in front of one
  (`FatFiles.StoppingFindsIff`); a volume label suffices to hide a file
  (`FatFiles.LabelHidesFile`).
- `vfsfopen` answers 0, not -1, to a mode other than "r", and follows a NULL link for
  the empty path (`Vfs.RootWalkFaultsIff`).
- `nes_setflag` does not clear a flag: it keeps that flag only. The status a
  program sees after `PHP`, `BRK` or an interrupt entry is what this leaves
  (`NesStack.ByteLayout`, `NesStack.EntryLayout`, `NesStack.BrkLayout`); in
  particular `BRK` ends with the I flag lost, so the next request interrupts its
  handler (`NesStack.RequestsAreMasked`).
- `init_pmm` starts its usage counter at the memory size in megabytes less the
  free bytes. The theorems are about how far the counter moves from there.
- The instruction table is filled with 256 entries although 255 are allocated. The
  model's table has 256.

## Model

| member | source | states |
|---|---|---|
| `Words.LoadStoreSame` | kernel/src/liballoc.c:79-102 | a stored 32-bit word loads back unchanged at any byte offset |
| `Words.StoreLoadCopies` | kernel/src/liballoc.c:85-89 | copying a word copies exactly its four bytes |
| `Headers.StoreFieldDecodes` | kernel/src/liballoc.c:213-225 | storing one header field changes that field of the decoded tag and no other |
| `Headers.StoreKeepsCoupling` | kernel/src/liballoc.c:213-225 | storing into one of several separate headers leaves all others, and every byte outside it, as they were |
| `HeapOps.Log2Bounds` | kernel/src/liballoc.c:38-42 | the exponent e of a size satisfies 2^e <= size < 2^(e+1) |
| `HeapOps.Log2Unique` | kernel/src/liballoc.c:38-42 | no other exponent does |
| `Liballoc.Allocator.GetExp` | kernel/src/liballoc.c:43-67 | the shifting loop finds that exponent for every 32-bit size of at least 256, and -1 below |
| `HeapTheorems.ClassOfRoom` | kernel/src/liballoc.c:146-147 | the bucket for a block is the one whose powers of two enclose its room, and bucket 8 below 512 bytes |
| `HeapModel.WithoutAt` | kernel/src/liballoc.c:163-173 | removal takes exactly one element out of a list without repeats, in place |
| `HeapModel.UnlistKeepsCore` | kernel/src/liballoc.c:163-173 | taking a block off its list keeps tiling, exact lists and live blocks |
| `HeapModel.EnlistKeepsCore` | kernel/src/liballoc.c:140-161 | filing an unlisted block keeps tiling, exact lists and live blocks |
| `HeapModel.MergeKeepsCore` | kernel/src/liballoc.c:176-202 | a block swallowing its right neighbour keeps them: the two tiles become one without gap or overlap |
| `HeapModel.SplitKeepsCore` | kernel/src/liballoc.c:204-228 | cutting a block behind its payload keeps them, and the new header's address was no header before |
| `HeapModel.AddRegionKeepsCore` | kernel/src/liballoc.c:236-258 | a fresh page range adds one tiled region and keeps the others apart from it |
| `HeapModel.DropRegionKeepsCore` | kernel/src/liballoc.c:446-457 | giving a whole region back keeps the rest, since no other block lies in that region |
| `HeapLinks.SplitLinksInvert` | kernel/src/liballoc.c:176-228 | split_left and split_right of neighbours point at each other, and a tag's address plus real_size is the next tag's address |
| `HeapLinks.FreeListsAreExact` | kernel/src/liballoc.c:140-173 | each l_freePages[i], walked by next from its head, ends, is back-linked by prev and visits exactly the tags with index i, each once; live tags have index -1 and null links |
| `HeapLinks.ChainedFollows` | kernel/src/liballoc.c:311-330 | walking next from any element visits the rest of the list in order |
| `HeapLinks.InsertKeepsLinks` | kernel/src/liballoc.c:140-161 | the pointer writes of insert_tag represent the heap with the block in front of list i, although next is not cleared on an empty list |
| `HeapLinks.RemoveKeepsLinks` | kernel/src/liballoc.c:163-173 | the pointer writes of remove_tag represent the heap with the block unlisted, whether it was at the head, inside or last |
| `HeapLinks.MergeKeepsLinks` | kernel/src/liballoc.c:176-202 | the pointer writes of a merge keep both structures, while the surviving tag is still listed |
| `HeapLinks.CutFromKeepsLinks` | kernel/src/liballoc.c:204-224 | the writes of split_tag keep both structures, whatever the bytes at the new header were |
| `HeapLinks.RegionTagKeepsLinks` | kernel/src/liballoc.c:251-259 | the writes of allocate_new_tag add a region of one block |
| `HeapLinks.WholeLinks` | kernel/src/liballoc.c:338 | a tag has two null split links exactly when it is a whole region |
| `HeapLinks.FreeLeftIs` | kernel/src/liballoc.c:420 | the test of the left merge loop is true exactly when a free block ends where this one starts, and false means no free left neighbour |
| `HeapLinks.FreeRightIs` | kernel/src/liballoc.c:432 | the test of the right merge loop is true exactly when a free block starts where this one ends, and false means no free right neighbour |
| `HeapOps.PagesForIsLeast` | kernel/src/liballoc.c:243-247 | the pages asked for are the fewest, from 16 up, that hold the request and its header |
| `HeapOps.TakeLoosens` | kernel/src/liballoc.c:334-340 | taking a free block leaves no free neighbour of it and the counters exact |
| `HeapOps.PlaceCompletes` | kernel/src/liballoc.c:346-376 | after recording the request and splitting, the whole invariant holds: the remainder needs no merging and less than 320 bytes are wasted |
| `HeapOps.JoinLeftIsLoose` | kernel/src/liballoc.c:420-428 | after one left merge there is no free left neighbour any more, and the counters are still exact |
| `HeapOps.JoinRightIsLoose` | kernel/src/liballoc.c:432-438 | after one right merge there is no free right neighbour any more, the counters are exact, and what the left merge reached still holds |
| `HeapOps.NeighboursAreNotWhole` | kernel/src/liballoc.c:176-202 | a merge never involves a block that a counter counts |
| `HeapOps.RetireCompletes` | kernel/src/liballoc.c:441-477 | filing the merged block, or giving its region back, restores the whole invariant |
| `HeapOps.RetireCounts` | kernel/src/liballoc.c:443-471 | the counters still equal the number of free whole regions and stay at most 5 |
| `HeapRuns.AfterMalloc` | kernel/src/liballoc.c:280-389 | malloc keeps the invariant, adds one live block that was not live, and leaves every other live block where and as it was; which block that is, `HeapService.MallocServes` says |
| `HeapRuns.AfterFree` | kernel/src/liballoc.c:395-485 | free keeps the invariant, ends exactly one live block, and leaves every other one where and as it was |
| `HeapRuns.Coalesced` | kernel/src/liballoc.c:420-438 | one merge on either side leaves no free neighbour on any side |
| `HeapRuns.Run` | kernel/src/liballoc.c:280-485 | every run of malloc and free keeps the invariant |
| `HeapRuns.ReallocIsARun` | kernel/src/liballoc.c:506-531 | realloc is the run of the malloc and free it makes, so all run theorems hold with it |
| `HeapRuns.LiveBlockSurvives` | kernel/src/liballoc.c:352-366 | a block that no call frees keeps address, size and room, with size + 32 <= real_size < size + 320, over any run |
| `HeapRuns.RunPages` | kernel/src/liballoc.c:446-457 | over any run, every range given back is one obtained and still held, with the same page count, and the pages held are those obtained less those returned |
| `HeapRuns.MallocEffect` | kernel/src/liballoc.c:249 | malloc obtains at most one range, which was not held |
| `HeapRuns.FreeEffect` | kernel/src/liballoc.c:446-457 | free gives back at most one range, exactly as it was obtained |
| `HeapTheorems.ChainTiles` | kernel/src/liballoc.c:176-228 | following split_right, each block ends where the next begins and the sizes reach exactly the region's end |
| `HeapTheorems.ChainCovers` | kernel/src/liballoc.c:176-228 | the chain meets every block of the region to its right and no other |
| `HeapTheorems.RegionIsTiled` | kernel/src/liballoc.c:236-276 | from its base a region is tiled by exactly its blocks, and their real_size values add up to pages * 4096 |
| `HeapTheorems.HeapIsSound` | kernel/src/liballoc.c:301-372 | the invariant says that no two neighbours are free, counters count the free whole regions and are at most 5, and every block is in use and tight or in the list of its class |
| `HeapTheorems.RunIsSound` | kernel/src/liballoc.c:280-485 | after any run: no free neighbours, exact counters of at most 5, and every block in use with less than 320 bytes to spare or in the list of its class |
| `HeapTheorems.PayloadsAreDisjoint` | kernel/src/liballoc.c:376 | no payload byte lies in another payload or in any header |
| `HeapTheorems.LeftmostIsBase` | kernel/src/liballoc.c:443-457 | a block has no left neighbour exactly when it is at a region base, so the pointer given back to the page allocator is one it gave out |
| `HeapTheorems.PayloadsKept` | kernel/src/liballoc.c:204-228 | writes confined to headers change no payload byte |
| `HeapTheorems.EarlierPayloadsKept` | kernel/src/liballoc.c:352-376 | nor do writes into headers that a split or a new region has only just created |
| `HeapTheorems.BytesSurviveRun` | kernel/src/liballoc.c:280-485 | through any run of calls that each spare the payloads they find, with anything stored outside the block between them, a block keeps every byte until its owner frees it or stores into it |
| `HeapTheorems.MallocThenFree` | kernel/src/liballoc.c:311-477 | a malloc served from a list is undone by free: same regions, blocks, counters and lists up to order, and no page is returned |
| `HeapTheorems.PlaceThenJoin` | kernel/src/liballoc.c:420-438 | the remainder split off is the only thing free merges the block with, and merging restores the block |
| `HeapTheorems.TakeThenRetire` | kernel/src/liballoc.c:336-339 | the bucket searched is the one refilled and its counter moves back, never past 5 |
| `HeapService.CandidateIs` | kernel/src/liballoc.c:301-330 | the search finds the front-most block with room in the list whose powers of two enclose the request, and finds none only if no block of that class has room |
| `HeapService.MallocServes` | kernel/src/liballoc.c:301-345 | malloc succeeds without new pages exactly when a free block of the request's own class has room for it and another header, and takes the front-most one; otherwise the granted range becomes the block, and without a grant the answer is NULL and nothing changes |
| `HeapService.MallocCuts` | kernel/src/liballoc.c:346-376 | with 288 bytes or more to spare the block ends right behind the payload and a free block holds the rest, otherwise it stays whole; fresh regions have the fewest pages, from 16 up, that hold request and header |
| `HeapService.FreeFilesFirst` | kernel/src/liballoc.c:420-477 | the freed bytes end up in one block, which either stands at the front of its list with no page given back, or was a whole region of whose class five wait already and whose pages went back |
| `HeapService.ReallocEffect` | kernel/src/liballoc.c:506-531 | realloc to a size never resizes in place: the new block is the one malloc finds while the old one is still in use, and the old one has ended; size 0 only frees and answers NULL, a NULL pointer only allocates; other blocks in use stay as they were |
| `HeapService.PagesThenFree` | kernel/src/liballoc.c:243-477 | a block on fresh pages that is freed at once leaves the heap as it was when five regions of its class wait, and otherwise a region counted and in front of its list |
| `Liballoc.Allocator.InsertTag` | kernel/src/liballoc.c:140-161 | files the tag under the given index or its own class; writes only headers |
| `Liballoc.Allocator.RemoveTag` | kernel/src/liballoc.c:163-173 | takes the tag off its list, keeps both structures and the recorded size; writes only headers |
| `Liballoc.Allocator.MeltLeft` | kernel/src/liballoc.c:176-186 | the left neighbour grows over the tag, whose header is no longer one |
| `Liballoc.Allocator.AbsorbRight` | kernel/src/liballoc.c:189-202 | the free right neighbour leaves its list and is swallowed |
| `Liballoc.Allocator.SplitTag` | kernel/src/liballoc.c:204-228 | the block ends behind its payload and the rest is a new block in its class's list; writes only headers, old and new |
| `Liballoc.Allocator.AllocateNewTag` | kernel/src/liballoc.c:236-276 | with a grant the heap gains one region of the computed page count; without one nothing changes |
| `Liballoc.Allocator.FindFit` | kernel/src/liballoc.c:311-330 | the walk returns the first block of the list with room for the request and a header, or NULL if none has |
| `Liballoc.Allocator.Splittable` | kernel/src/liballoc.c:352-358 | the wrapping difference read as a signed int is positive with an exponent exactly when at least 256 bytes remain behind a new header |
| `Liballoc.Allocator.Initialize` | kernel/src/liballoc.c:288-299 | the first call makes the arrays those of the empty heap |
| `Liballoc.Allocator.MeltAll` | kernel/src/liballoc.c:420-428 | the loop merges with the free left neighbour if there is one, in at most one round |
| `Liballoc.Allocator.AbsorbAll` | kernel/src/liballoc.c:432-438 | the loop merges with the free right neighbour if there is one, in at most one round |
| `Liballoc.Allocator.PutAway` | kernel/src/liballoc.c:441-477 | counts and files the block, or returns its region when five of its class wait; reports the pages returned |
| `Liballoc.Allocator.Malloc` | kernel/src/liballoc.c:280-389 | the heap and the pointer are those of the laws of `HeapService`: the request placed where they say, or NULL and nothing changed; no byte of a live payload changes |
| `Liballoc.Allocator.Free` | kernel/src/liballoc.c:395-485 | a live block ends and the page call made is the one of the run theorem; NULL and a pointer without magic change nothing; no byte of a payload changes |
| `Liballoc.Allocator.StoreByte` | kernel/src/liballoc.c:376-389 | what the owner of a block stores into it disturbs no header and no other payload, so the allocator stays in order between calls |
| `Liballoc.Allocator.Calloc` | kernel/src/liballoc.c:490-502 | malloc of the product, all of it zero, every other payload kept |
| `Liballoc.Allocator.Realloc` | kernel/src/liballoc.c:506-531 | the new block begins with the first min(old, new) bytes of the old one; all other payloads keep their bytes; size 0 frees, NULL allocates |
| `Liballoc.Allocator.Memcpy` | kernel/src/liballoc.c:79-102 | the word-then-byte loop copies exactly count bytes and touches no other |
| `Liballoc.Allocator.Memset` | kernel/src/liballoc.c:70-77 | exactly count bytes get the value |
| `Pmm.AllocReturnsIff` | kernel/src/pmm.c:73-149 | allocPage leaves its loop exactly when there is no root chunk or it is large enough, however many turns |
| `Pmm.FreeReturnsIff` | kernel/src/pmm.c:166-181 | freePage leaves its loop exactly when there is no root chunk or the address is below it |
| `Pmm.StepKeepsPool` | kernel/src/pmm.c:65-195 | a returning call keeps all ranges and the free chunk disjoint inside the arena and the counter in step |
| `Pmm.RunKeepsPool` | kernel/src/pmm.c:65-195 | in every run of returning calls the ranges out and the free chunk are pairwise disjoint in the arena, and MemUsed moved by 4096 times the live pages modulo 2^32 |
| `Pmm.FreesReturnUntilExhaustion` | kernel/src/pmm.c:155-181 | as long as no call exhausts the arena, freePage returns for every range that is out |
| `Pmm.FreedIsLost` | kernel/src/pmm.c:166-181 | a range freed while there is a root chunk is disjoint from the free chunk and from every range handed out after any further calls, also after exhaustion and a new root |
| `Pmm.FreedIsReissued` | kernel/src/pmm.c:182-189 | a range freed without a root chunk is what the next request for as many pages gets |
| `Pmm.FreeMayNotReturn` | kernel/src/pmm.c:166-181 | after exhaustion it may not: with one megabyte and the kernel ending two pages below it, two allocations and a free leave a range whose free hangs |
| `Pmm.ReclaimedIff` | kernel/src/pmm.c:171-189 | some later run of calls hands out the freed range, or any page of it, exactly when the arena was exhausted at the time of the free |
| `Pmm.NothingComesBack` | kernel/src/pmm.c:155-195 | over a run without exhaustion the free pages only fall, by exactly what was allocated |
| `Pmm.AllocKeepsRest` | kernel/src/pmm.c:118-143 | a served allocPage hands out the front of the chunk and keeps all the rest free: every address of the old chunk is in exactly one of the two, and the chunk is gone only when none is left |
| `Pmm.AllocsUseUpExactly` | kernel/src/pmm.c:65-153 | over any run of allocations pages out and free pages add up to what there was, and the root is NULL exactly when the calls asked for at least the pages there were |
| `Pmm.FreeKeepsRest` | kernel/src/pmm.c:155-195 | a returning freePage takes the range off the ranges out and leaves an existing root alone; without one the range becomes the root |
| `Pmm.EveryPageIsAccountedFor` | kernel/src/pmm.c:65-195 | over every run, also past exhaustion, pages out, free pages and the pages freed beside a root chunk add up to what there was |
| `Pmm.PageAllocator.AllowedIffReturns` | kernel/src/pmm.c:73-181 | the calls that the runs allow are exactly those whose search loops leave |
| `Pmm.MergeKeepsLinks` | kernel/src/pmm.c:37-63 | for an address-sorted triple the survivor heads a well-linked forward chain |
| `Pmm.MergeKeepsCoverage` | kernel/src/pmm.c:37-63 | that chain covers exactly the pages of the triple and the chain behind it |
| `Pmm.PageAllocator.Init` | kernel/src/pmm.c:20-35 | everything above the kernel's end is one free chunk inside the arena |
| `Pmm.PageAllocator.MergeChunks` | kernel/src/pmm.c:37-63 | the headers afterwards are those the merge lemmas speak about |
| `Pmm.PageAllocator.AllocPage` | kernel/src/pmm.c:65-153 | a returning call answers the front of the root chunk, or NULL without one, keeps the rest as `Pmm.AllocKeepsRest` says, and writes at most the header of the rest |
| `Pmm.PageAllocator.FreePage` | kernel/src/pmm.c:155-195 | NULL changes nothing; a returning call drops the range, lowers the counter, sets a root chunk only if there was none, and writes no header but the freed range's |
| `KernelHeap.AnswerIsFresh` | kernel/src/malloc.c:18-22 | what allocPage answers overlaps no region of the heap |
| `KernelHeap.ReturnIsBooked` | kernel/src/malloc.c:24-28 | what liballoc hands to freePage is a range that allocPage gave out, with its page count |
| `KernelHeap.EventKeepsSystem` | kernel/src/malloc.c:18-28 | malloc, free and page calls of other kernel code keep both allocators' invariants and their agreement |
| `KernelHeap.RunAll` | kernel/src/malloc.c:18-28 | every run of such events in which the page calls return keeps both invariants and their agreement |
| `KernelHeap.PayloadIsExclusive` | kernel/src/malloc.c:18-28 | in every such run a caller's byte lies in the arena and in no other payload, header, page range of others, or free page |
| `KernelHeap.ChunkHeaderSpared` | kernel/src/pmm.c:121-175 | the chunk header that a page call writes lies in no payload, before or after, and in no tag in use afterwards |
| `Fat32.ChainUnique` | kernel/src/fat32.c:472-491 | a chain is determined by its root |
| `Fat32.ChainIff` | kernel/src/fat32.c:479-486 | the clusters walked are exactly those the table spells out: the low 28 bits of each word name the next cluster and are below the end marks, and those of the last are one of the eight marks |
| `Fat32.ChainHasNoRepeat` | kernel/src/fat32.c:472-491 | a chain that ends has no repeated cluster |
| `Fat32.ChainFitsTable` | kernel/src/fat32.c:472-491 | it is no longer than the table |
| `Fat32.CountEndsIff` | kernel/src/fat32.c:476-488 | the counting loop ends in any number of turns exactly when the root has a chain, and then within one turn per table entry |
| `Fat32.GetClusterCount` | kernel/src/fat32.c:472-491 | the count is the length of the chain, at most the number of entries |
| `Fat32.ClustersAreDisjoint` | kernel/src/fat32.c:124-127 | distinct clusters share no sector |
| `Fat32.ChainBytesAt` | kernel/src/fat32.c:507-520 | cluster k of the chain fills bytes k*size to (k+1)*size of the buffer |
| `Fat32.BlocksAt` | kernel/src/pl181.c:174-184 | bytes 512k to 512(k+1) of what is read from sector lba on are sector lba + k |
| `Fat32.SectorAt` | kernel/src/fat32.c:497-523 | sector j of the chain's k-th cluster fills bytes 512(k*spc + j) to 512(k*spc + j + 1) of the buffer and is sector firstdatalba + spc*(cluster - 2) + j of the device |
| `Fat32.ChainBytesFrame` | kernel/src/fat32.c:497-523 | the data depends on no sector outside the chain |
| `Fat32.ReadBlocks` | kernel/src/pl181.c:174-184 | the k-th 512 bytes from the offset become sector lba + k, for every k, and nothing else in the buffer changes |
| `Fat32.GetData` | kernel/src/fat32.c:497-523 | the buffer has exactly count * clustersize bytes and holds the chain's sectors where `Fat32.SectorAt` says; the size reported is that |
| `FatFiles.EntriesAreExact` | kernel/src/fat32.c:531-547 | the entries are exactly the 32-byte records whose byte 11 is 0x10 or 0x20, in disk order, directories being those with 0x10 |
| `FatFiles.ScanInBoundsIff` | kernel/src/fat32.c:531-543 | the scan stays inside the buffer exactly when the last record is not a long-name record |
| `FatFiles.CallReportsNext` | kernel/src/fat32.c:204-228 | one call reports the next entry or steps over one record that is none |
| `FatFiles.ScanReportsEveryEntry` | kernel/src/fat32.c:204-228 | repeated calls report every directory or archive record exactly once in disk order |
| `FatFiles.ScanTerminates` | kernel/src/fat32.c:204-228 | within one call per record |
| `FatFiles.StoppingAtNull` | kernel/src/fat32.c:371-421 | a caller that stops at the first NULL sees a prefix of the entries, and all of them exactly when every record in front of an entry is an entry or a long-name record in front of one |
| `FatFiles.FirstFileIs` | kernel/src/fat32.c:371-421 | the file a search of all entries yields is the first wanted record in disk order, and none only if there is none |
| `FatFiles.StoppingFindsIff` | kernel/src/fat32.c:371-421 | a search that stops at the first NULL yields that file exactly when every record in front of it is an entry or a long-name record in front of one |
| `FatFiles.LabelHidesFile` | kernel/src/fat32.c:371-421 | in a one-sector directory a volume label in front hides the only file: the search of all entries finds it, the one that stops does not |
| `FatFiles.FatDir.GetDirent` | kernel/src/fat32.c:531-610 | reports the record or the one behind a long-name record, with the offset past it; -1 otherwise |
| `FatFiles.FatDir.ReadDir` | kernel/src/fat32.c:204-228 | one call is one step of the scan, 32-byte aligned, and NULL at the end changes nothing |
| `FatFiles.FatDir.ReadAll` | kernel/src/fat32.c:204-233 | rewinding and reading to the end yields all entries in at most one call per record |
| `FatFiles.FatDir.FindFile` | kernel/src/fat32.c:371-421 | the record found is the first wanted file before the first NULL, and is the one a search of all entries finds exactly under the record condition |
| `Vfs.FreeFromIsFirst` | kernel/src/vfs.c:218-226 | the descriptor chosen is the lowest one not in use, and -1 means none is left |
| `Vfs.StepKeepsTable` | kernel/src/vfs.c:209-301 | every call keeps cursors within their buffers and descriptors from 3 to 63 |
| `Vfs.ReadsAreSequential` | kernel/src/vfs.c:209-301 | under any interleaving, the reads on one descriptor deliver its buffer in order without gap or repeat, never past the end |
| `Vfs.ReadDelivers` | kernel/src/fat32.c:451-466 | a read delivers all it asks for when the buffer has that much left and otherwise all that is left, moves its cursor behind it, and moves no other |
| `Vfs.ReadsDeliverAll` | kernel/src/vfs.c:209-301 | over any run the reads on a descriptor deliver as many bytes as they ask for together, and the whole rest of the buffer once they ask for at least that much |
| `Vfs.CloseFrees` | kernel/src/vfs.c:270-289 | a closed descriptor is free again, and is the next one opened exactly when all below it are in use; the others stay as they were |
| `Vfs.OpenIsFresh` | kernel/src/vfs.c:218-261 | a new descriptor is none of those in use and starts at the front of its file |
| `Vfs.RootWalkFaultsIff` | kernel/src/vfs.c:234-266 | with the root mount alone the walk over the mounts follows a NULL link exactly for the empty path |
| `Vfs.FatFile.Fread` | kernel/src/fat32.c:444-467 | delivers size bytes if that many are left and otherwise all that are left, and moves the cursor behind them; -1 when none are delivered |
| `Vfs.OpenFiles.Fopen` | kernel/src/vfs.c:209-268 | opens at the first free descriptor; every failure leaves the table alone; paths for which the walk follows a NULL link are excluded |
| `Vfs.OpenFiles.FindSlot` | kernel/src/vfs.c:217-232 | the scan finds the first free entry |
| `Vfs.OpenFiles.Fread` | kernel/src/vfs.c:291-301 | reads only the file of its descriptor, and delivers what `Vfs.ReadDelivers` says; -1 without an open file or without a byte |
| `Vfs.OpenFiles.Fclose` | kernel/src/vfs.c:270-289 | closes that descriptor and no other, which `Vfs.CloseFrees` says is free again; -1 if it was not open |
| `NesStack.CellsDistinct` | kernel/src/nesbus.c:19-26 | the 256 stack addresses are distinct RAM cells under mirroring |
| `NesStack.MirrorIff` | kernel/src/nesbus.c:19-54 | two addresses below 0x2000 are the same RAM byte exactly when they are a multiple of 2048 apart |
| `NesStack.BitsOf` | kernel/src/nes6502.c:431-454 | every status byte is made of eight flags |
| `NesStack.FlagsRead` | kernel/src/nes6502.c:444-454 | the flag tests read the bits N, V, U, B, I, Z and C of the status |
| `NesStack.SetFlagBits` | kernel/src/nes6502.c:431-442 | setting a flag sets that bit alone; clearing one keeps that bit alone |
| `NesStack.ByteLayout` | kernel/src/nes6502.c:1142-1157 | PHA and PHP store one byte at the mirrored address of SP and change no other; PHP ends with no flag set |
| `NesStack.JsrLayout` | kernel/src/nes6502.c:1047-1059 | JSR stores the two halves of PC - 1 modulo 2^16, high byte at SP and low byte below it, and jumps |
| `NesStack.EntryLayout` | kernel/src/nes6502.c:374-424 | an interrupt stores PC high, PC low and the status at SP and the two bytes below, SP wrapping; the status keeps B, has U and I set, and loses the rest |
| `NesStack.BrkLayout` | kernel/src/nes6502.c:639-663 | BRK stores PC + 1 and its status with B and I set in the same layout, and goes on with B alone |
| `NesStack.PullLayout` | kernel/src/nes6502.c:1160-1245 | from which RAM addresses RTS, PLA, PLP and RTI take which halves of the PC, register and status bits, and what SP and the registers are afterwards |
| `NesStack.RequestsAreMasked` | kernel/src/nes6502.c:374-402 | once an interrupt is taken a further request changes nothing; after BRK it is taken |
| `NesStack.PushHolds` | kernel/src/nes6502.c:1142-1147 | a push adds one byte to the stack in memory and keeps those below 256 that are there |
| `NesStack.PopHolds` | kernel/src/nes6502.c:1160-1164 | a pull yields the last byte pushed |
| `NesStack.JoinSplit` | kernel/src/nes6502.c:1047-1059 | the two halves of a PC make it up again, and RTS undoes the decrement of JSR, across 16-bit wrap |
| `NesStack.StepRefines` | kernel/src/nes6502.c:1047-1245 | each stack instruction does to memory what the frame machine does to its frames, across wrap of SP |
| `NesStack.RunRefines` | kernel/src/nes6502.c:374-424 | every run that keeps the discipline refines the frame machine |
| `NesStack.BracketReturns` | kernel/src/nes6502.c:1047-1245 | a call, push or interrupt with a well-nested body restores SP, the bytes below and what it saved |
| `NesStack.NestReturns` | kernel/src/nes6502.c:374-424 | a well-nested program leaves the frames it found |
| `NesStack.CallReturns` | kernel/src/nes6502.c:1047-1245 | from any state, at most 256 bytes deep: SP back, PC back after JSR, IRQ and NMI, one past after BRK, A back after PHA; a masked IRQ runs nothing |
| `NesCpu.Machine.CpuWrite` | kernel/src/nesbus.c:19-36 | a write below 0x2000 stores one mirrored RAM byte; any other leaves RAM alone |
| `NesCpu.Machine.CpuRead` | kernel/src/nesbus.c:38-54 | a read below 0x2000 yields the mirrored byte; any other what the device answers |
| `NesCpu.Machine.PushByte` | kernel/src/nes6502.c:1144-1145 | the write and the decrement are one push |
| `NesCpu.Machine.PullByte` | kernel/src/nes6502.c:1162-1163 | the increment and the read are one pull |
| `NesCpu.Machine.Jsr` | kernel/src/nes6502.c:1047-1059 | JSR pushes the address of its own last byte, high half first, and jumps: the step that `NesStack.StepRefines` relates to the frame machine |
| `NesCpu.Machine.Rts` | kernel/src/nes6502.c:1236-1245 | RTS pulls the two halves and resumes one past them: the step of the refinement, for every SP and PC |
| `NesCpu.Machine.Pha` | kernel/src/nes6502.c:1142-1147 | PHA pushes A and changes nothing else: the step of the refinement |
| `NesCpu.Machine.Pla` | kernel/src/nes6502.c:1160-1167 | PLA pulls the byte into A and sets Z and N the way `nes_setflag` does: the step of the refinement |
| `NesCpu.Machine.Php` | kernel/src/nes6502.c:1150-1157 | PHP pushes the status as it was, before it touches B and U: the step of the refinement |
| `NesCpu.Machine.Plp` | kernel/src/nes6502.c:1170-1176 | PLP pulls the status and sets U: the step of the refinement |
| `NesCpu.Machine.Irq` | kernel/src/nes6502.c:374-402 | an interrupt request pushes PC and prepared status and goes to the vector whose low byte is at 0xFFFE and high byte at 0xFFFF; while the I flag is set nothing at all changes |
| `NesCpu.Machine.Nmi` | kernel/src/nes6502.c:405-424 | a non-maskable interrupt pushes PC and prepared status and goes to the vector at 0xFFFA and 0xFFFB, low byte first, whatever the I flag says |
| `NesCpu.Machine.Brk` | kernel/src/nes6502.c:639-663 | BRK pushes the PC one further than its operand fetch left it and the status with B and I set, and goes to the vector at 0xFFFE and 0xFFFF, low byte first |
| `NesCpu.Machine.Rti` | kernel/src/nes6502.c:1219-1233 | RTI pulls the status, sets B and U, and resumes exactly at the pulled PC |
| `NesClock.CrossesOnCarry` | kernel/src/nes6502.c:543-576 | an indexed mode asks for the extra cycle exactly when low byte and index carry |
| `NesClock.DecodeIsOk` | kernel/src/nes6502.c:47-302 | every entry of the table leaves room for the extra cycles its mode and operation can ask for |
| `NesClock.TableIsTimed` | kernel/src/nes6502.c:47-302 | every documented entry takes the clocks that its operation and mode call for, loads, stores, shifts, branches, calls and stack operations apart |
| `NesClock.OpcodesSpell` | kernel/src/nes6502.c:47-302 | bits of the opcode give operation and mode in the column of loads, stores and arithmetic, and the condition in the column of branches |
| `NesClock.DurationIs` | kernel/src/nes6502.c:308-333 | an instruction adds to its clocks one for a load whose index carries, what `NesClock.BranchFollowsBits` says for a branch, and nothing otherwise |
| `NesClock.BranchFollowsBits` | kernel/src/nes6502.c:740-891 | each of the eight branches goes to next + offset exactly when its bit is clear or set, C, Z, V and N for the pairs; it then adds one clock, or two when the page numbers differ, and otherwise nothing |
| `NesClock.DurationBounds` | kernel/src/nes6502.c:308-341 | an instruction lasts 2 to 8 cycles |
| `NesClock.RunStaysLow` | kernel/src/nes6502.c:308-424 | in every run of clocks, interrupts and resets the counter stays within 0 and 8 |
| `NesClock.InstructionsAreTimed` | kernel/src/nes6502.c:308-344 | under the counter step of `nes_clock` and without interrupt, each instruction lasts exactly its table entry plus page-cross and branch extras, and the next is fetched by the clock after that |
| `NesClock.ClocksAreEvents` | kernel/src/nes6502.c:308-344 | such a run of clocks is a run of clock events, the steps proved of `NesClock.Clock.NesClock` |
| `NesClock.Clock.Branch` | kernel/src/nes6502.c:740-891 | whatever the eight bits of the status are, the PC and the counter move as the branch's own bit and the two page numbers say, for each of the eight branches |
| `NesClock.Clock.Execute` | kernel/src/nes6502.c:321-333 | a fetched instruction sets the counter to its duration without wrap |
| `NesClock.Clock.NesClock` | kernel/src/nes6502.c:308-344 | one clock moves the byte counter as the run theorem says, without underflow |
| `NesClock.Clock.Interrupt` | kernel/src/nes6502.c:347-424 | a taken request sets 7 cycles, a non-maskable one and a reset 8, and a masked one leaves the count as it is |

## Left out

- Locking, `DEBUG` output and the accounting behind it in `kernel/src/liballoc.c`: the lock functions are stubs.
- Malloc: the answer of the page allocator is a parameter, either NULL or a page range that overlaps no region held; `KernelHeap.AnswerIsFresh` shows that `allocPage` gives such answers.
- Requests above 0x7FFFEFE0 bytes, where the signed test on the remainder no longer means what it says, and page ranges of 2^31 bytes or more.
- Realloc: when the new block cannot be allocated the code copies to NULL; this is excluded, as for `Calloc`, together with overflow of `nobj * size`.
- Free: a pointer that is not live but happens to have the magic word in front of it, as in a double free, is excluded.
- Alignment of payloads: headers and payloads are placed at arbitrary byte offsets, as in the code.
- ChunkHeaderSpared: the page allocator's headers are a map beside liballoc's byte memory; where they are written is stated, their bytes are not modelled.
- AllocPage: requires the root chunk to end within the address space, as `Pmm.PoolOk` says; calls that would loop for ever are excluded by the condition of `Pmm.AllocReturnsIff`, and likewise for `FreePage`, which takes back only ranges that were given out.
- `MemFree` after start-up, which the code never changes.
- MBR, BPB and boot-record decoding, and path walking in `fat_opendir`: an open file or directory starts from its cluster root and its buffer. Multiple mounts are left out with them: the append loop of `vfs_mount` does not end.
- FindFile: name comparison is a parameter; reassembly of long names and padding of short ones are left out.
- Fopen: the walk over the mounts follows a NULL link for the empty path; that call is excluded, and `Vfs.RootWalkFaultsIff` says exactly when it happens.
- GetData: the product of cluster size and count is not wrapped to 32 bits, and the device is read without errors.
- Fread: reads end at the cluster-rounded buffer, as in the code, not at the size in the directory record; `size * nmemb` and cursor plus size are assumed below 2^32, and buffers are not NULL.
- Opening a directory through the `vfs_open_dirs` table, which repeats the file table's scheme with 16 slots.
- 6502 flag results, zero-page-indexed and indexed-indirect addresses, and the effect of instructions that do not touch the stack: `Quiet` stands for any of them that leaves SP and the stack page alone, so `TXS` is excluded.
- CallReturns: the status register is not claimed to be what it was, because the code's flag clearing changes it; after PHP and PLP it is the pushed value with U set.
- The stack base is a parameter in the RAM range: the code never assigns it, which makes it page 0.
- Execute: the operand bytes, index and flags an instruction finds are given with the fetch; only what they do to the counter and the PC of branches is modelled.
- PPU, cartridge mapper, display and block device registers: reads from them are a function of the address, writes have no effect on RAM.
