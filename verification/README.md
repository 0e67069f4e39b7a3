# Bao hypervisor: a verified model of its memory manager and multi-core protocols

Dafny model of the parts of the Bao hypervisor where many pieces of state have to agree: the physical page pools and
RISC-V page tables, the protocols by which the CPUs of the system work together, and a few arithmetic and bit-set cores.
`dafny verify dfyconfig.toml` checks the whole project.

## What is modelled

**Memory (RISC-V, MMU build).** Four layers, each proved against the one below.

* `Bitmap` - the word-at-a-time bitmap code, on 32-bit granules, against the bit-by-bit meaning.
* `PagePool` - page pools and the list of pools, against the set of pages taken.
* `PageTable`, `TableUpdate`, `PageRange`, `MapStep`, `VpageStep` - Sv39 and Sv39x4 tables as values (RISC-V Privileged
  Architecture 20211203, sections 4.4 and 8.5). `Look(pt, v)` says what page `v` means: mapped to a frame with flags, or
  unmapped with software bits; `Translate` is the same on byte addresses. `PteWord` ties the decoded entries to the 64-bit words.
* `AddrSpace` - the code that maps, unmaps, reserves, splits and starts a space, loop by loop, on a mutable table store and a
  shared allocator. Contracts speak of `Look`. `WalkStart`, `FirstFree`, `Inflating` and `IdentityMap` hold what decides its
  refusals, where its searches come out, its inflating passes and the map the hypervisor starts with. `Isolation` composes it into whole runs over any number of
  address spaces.
* `Colour` - page colouring and the loops that must agree on it.

**Protocols,** as interleaved steps of any number of CPUs. A section under a lock is one step; memory is sequentially
consistent. Theorems are about every state of every run.

* `Barrier` - the counting barrier. `Flush` - the barrier that drains message queues. `FlushRounds` - what
  else it promises, and how it comes to its end.
* `LinkedList`, `ObjPool`, `Messages` - the queue, the node pool, and the transport built on them. `MessageCalls` - its two
  functions on their own, and when a CPU can go on.
* `CpuAssign` - which CPU goes to which VM at boot.
* `Recovery` - health monitoring and the three-barrier recovery of a VM. `RecoveryLimit` - the runs that pass its limit.
  `RecoveryWatch` - what the monitor starts, and what it leaves alone.

**Cores.**

* `TokenBucket`, `Vplic` - the IRQ limiter in machine widths, and the virtual PLIC that uses it.
* `StreamMatch`, `Smmu`, `DeviceIsolation` - SMMUv2 stream-match entries, their merging, and whole runs of requests.
* `RankSelect` - virtual and physical CPU ids and masks.

`Arith`, `Counting`, `Platform` and `WordBits` hold shared facts.

## Conventions

* An address is a page number, except where bytes are the point (`MemTranslate`, `FlatMap`, `ObjPool`). A pointer to a
  page-table entry is a pair (table, index); a table is named by its page.
* `ERROR` does not return. Methods report it as an outcome (`Overlap`, `NoFrames`, `OutOfSection`, `Halted`); after it only what
  the contract still says is claimed. A page table that cannot be allocated is the outcome `NoTables`.
* A range lies in the address space once: `n` is at most the number of pages of the space. A page is named by any number
  that agrees with it modulo the size of the space; `Hits` says that a page is one of a range in that sense.
* Word-at-a-time searches do not compare with the end of the map they search. `CountStops` and `Contained` say which of them
  stay inside the backing words; guard bits as `PagePool.Valid` has them, a set one right at the end of the pool and a clear
  one later, keep every search inside (`Bitmap.FencedContains`).
* Frames have the 44 bits of the page number of an entry, `FRAMES`. `PteWord` shows that no write of the model loses a bit.
* `exact` marks an allocator whose pools have had no page freed, so that `free` counts the clear bits and a refusal tells that
  there is no free run. `Exhausted` is what the refusal of one page tells: every page of every pool is taken.

## Where the code does not do what one would expect

Each with an input and the exact condition.

* `recovery_count` can pass `max_recoveries`, because the check and the increment in src/core/vm_recovery.c:35-49 are not one
  locked section. `RecoveryLimit.LimitCanBePassed` reaches `max_recoveries + n - 1` for every number n of vCPUs and every limit,
  which `Recovery.LimitOverrun` shows to be the most. `Recovery.LimitExact`: with no CPU between its second check and its
  increment, the limit is passed exactly when some earlier second check was passed while the recoveries counted, with those
  about to be, had used the limit up.
* A long silence can empty a full token bucket, because the 32-bit sum of the refill wraps around before it is capped:
  `TokenBucket.SilenceThrottles`. `TokenBucket.AllowIff` gives the exact condition.
* `mem_map` looks for an earlier mapping only where a walk starts, not at each entry it fills, so it can override one without a
  report: `WalkStart.MissedExample`, `WalkStart.OverlapMissed`. For given frames `AddrSpace.AddrSpace.Map` reports exactly when
  `Meets` holds: when a page at which a walk starts is mapped, the starts being computed from the tables before the call.
* `mem_alloc_vpage` compares the room left in the section with all the pages asked for, even those already counted, each time it
  walks from the root, so a free range can be refused: `WalkStart.FreeRunRefused`. `AddrSpace.AddrSpace.AllocVpage` refuses a
  given address exactly when `Refused` holds, whose last case, `Refuses`, is that some walk starts with too few pages left;
  `WalkStart.RefusesNear` bounds how near the end of the section that is.
* `mem_inflate_pt` steps by blocks from the start of the range, so it can miss the last block, and the coloured branch of
  `mem_map` then writes through a NULL entry: `Inflating.InflateMisses`. `Inflating.VisitsIff` and `Inflating.InflatedFully` say
  which pages get a last-level table, `AddrSpace.AddrSpace.MapColoured` stops exactly at the first that does not.
* Tokens can be spent on deferred interrupts without making anything pending: `Vplic.SpentUnraised`. `Vplic.EvenStep`: a call
  spends what it raises exactly when a consume has nothing deferred to pay for, or a drain pays for nothing or for one interrupt
  that is not pending already. `Vplic.SpentIsRaised` is that over whole runs.
* `pp_alloc` does not compare the run it finds with the end of the pool: `Bitmap.RunPastEnd` has eleven free pages in a pool of
  ten. `Bitmap.EndsInside`: every run found ends inside exactly if the last bit of the map or the one behind it is set. `pp_init`
  sets neither; the pools here have the bit behind set (`PagePool.Valid`).
* The range test of `mem_free_ppages` admits the page one past a pool, so freeing pages also clears bits of a pool that ends where
  they begin, from its guard bit on. `PagePool.PageAllocator.FreePpages` keeps the pools as they have to be exactly when no
  pool ends there.

## Model

| member | source | states |
|---|---|---|
| Bitmap.Set | src/lib/inc/bitmap.h:31-34 | that bit is set and no other bit of the map changes |
| Bitmap.Clear | src/lib/inc/bitmap.h:36-39 | that bit is clear and no other bit of the map changes |
| Bitmap.ClearConsecutive | src/lib/inc/bitmap.h:50-54 | exactly the bits of the range become clear |
| Bitmap.Count | src/lib/inc/bitmap.h:56-65 | the number of bits of that value in the range |
| Bitmap.FindNth | src/lib/bitmap.c:8-23 | the position with exactly n-1 bits of that value before it, or -1 when there are fewer than n |
| Bitmap.CountConsecutive | src/lib/bitmap.c:25-56 | capped at n, the result is the length of the run of equal bits at `start`; it passes n by less than a granule, and is n for n of at most 1 |
| Bitmap.FindConsec | src/lib/bitmap.c:58-82 | the least index that begins n equal bits, or -1 when none does, on every search that stays inside the backing words; n of 0 counts as 1 |
| Bitmap.EndsInside | src/lib/bitmap.c:58-82 | runs that begin in the map end in it exactly if its last bit or the one behind differs from them |
| Bitmap.RunPastEnd | src/lib/bitmap.c:58-82 | a clear map of ten bits in which eleven clear bits are found |
| Bitmap.FencedContains | src/lib/bitmap.c:58-82 | guard bits behind the end of the map keep every search inside |
| Bitmap.SetConsecutive | src/lib/bitmap.c:84-104 | exactly the bits of the range become set |
| Bitmap.MaskedCompare | src/lib/bitmap.c:36-40 | the masked comparison of words finds exactly the words whose bits in the mask are all equal |
| PagePool.PagePool.PpAlloc | src/core/mem.c:22-85 | success gives n pages of the pool that were free, takes exactly those, aligned if asked; unaligned they are the first free run from where the search begins, or else the first of the pool, and a refusal means that no n consecutive pages are free; an aligned refusal means that the first aligned place is not free, and for n a power of two, 2^k, that no (k + 3) n consecutive pages are; `free` stays the number of clear bits |
| PagePool.PagePool.Search | src/core/mem.c:46-80 | a hit is a free run inside the pool, on an aligned page if asked, and unaligned the first from the start; a miss means there is none, or for an aligned one what `AlignedNone` says |
| PagePool.TracksJump | src/core/mem.c:60-66 | each jump of an aligned search doubles what is missing to an alignment, so k of them reach one where n divides 2^k |
| PagePool.AlignedSum | src/core/mem.c:38-66 | the alignment test on pool indices is the alignment of the physical page number |
| PagePool.PagePool.AreReserved | src/core/mem.c:87-106 | true exactly when the run is in the pool and one of its pages is taken |
| PagePool.PagePool.Reserve | src/core/mem.c:125-142 | takes exactly the run if it is in the pool, and fails exactly when a page of it was taken |
| PagePool.PagePool.constructor | src/core/mem.c:220-241 | an empty pool is valid and all its pages are free, given the guard bit |
| PagePool.PagePool.Free | src/core/mmu/mem.c:77-95 | in one pool that the range test admits, exactly the pages of the run are given back, and the pool keeps its guard exactly when the run lies inside it |
| PagePool.PageAllocator.constructor | src/core/mem.c:320-335 | pools over separate pages make a valid allocator |
| PagePool.PageAllocator.FreePpages | src/core/mmu/mem.c:77-95 | over all pools: exactly the pages of the run are given back; the pools stay valid exactly when none ends where the run begins |
| PagePool.PageAllocator.AllocPpages | src/core/mem.c:390-403 | all pools together: the pages given were taken by nobody, and nothing else becomes taken; a refusal means that no pool has a free run, of one page that every page of every pool is taken, and of aligned pages what `PpAlloc` says of each pool |
| PageTable.AddressFields | src/core/inc/page_table.h:50-54 | the index at each level in terms of the byte address: 4 KiB pages, 2 MiB and 1 GiB blocks, 512 entries, 2048 in a guest root |
| PageTable.NodeHome | src/arch/riscv/page_table.c:33-46 | every table the walk reaches is the one that covers that address at that level |
| PageTable.EndReached | src/arch/riscv/page_table.c:33-46 | each walk ends at an entry that is not a pointer to a table |
| PageTable.BlockStep | src/core/inc/page_table.h:30-54 | the index taken at each level completes the number of the block, for both formats |
| TableUpdate.PutLook | src/arch/riscv/inc/arch/page_table.h:84-88 | writing one leaf or empty entry gives its whole block the new meaning and changes no other page |
| TableUpdate.InstallLook | src/core/mmu/mem.c:199-214 | hanging a new table under an entry gives each page of its block the meaning of the new entry for it and changes no other page |
| MapStep.SplitLook | src/core/mmu/mem.c:231-295 | replacing a superpage, a reserved hole or an empty entry by a full table leaves the meaning of every page, and the walk one level longer inside |
| MapStep.MapBlock | src/core/mmu/mem.c:551-576 | one more leaf extends the mapped range by its pages and keeps tables well formed and leaves aligned to their level |
| MapStep.FlatMap | src/core/mmu/mem.c:489-589 | after mapping, each byte of the range goes to the same offset from the first frame; every other byte where it went |
| MapStep.ClearBlock | src/core/mmu/mem.c:445-471 | one more cleared entry extends the unmapped range by its pages; all others are kept |
| MapStep.FlatUnmap | src/core/mmu/mem.c:419-487 | after unmapping, each byte of the range goes nowhere; every other byte where it went |
| Inflating.DeepenStep | src/core/mmu/mem.c:297-313 | one more entry of a pass keeps what every page means and makes longer exactly the walks of the blocks visited |
| Inflating.VisitsIff | src/core/mmu/mem.c:305-312 | a pass visits the block of a page of the range exactly when that block has a page of the range at the offset of the first |
| Inflating.InflatedFully | src/core/mmu/mem.c:305-312 | a page ends up at the last level exactly when each level it lacks is one whose pass visits its block |
| Inflating.InflateMisses | src/core/mmu/mem.c:305-312 | of 512 pages from page 1 on in an empty space, page 512 gets no last-level table |
| VpageStep.MarkBlock | src/core/mmu/mem.c:396-410 | one more reserved entry extends the reserved range by its pages and changes no other page |
| VpageStep.FreshMap | src/core/mmu/mem.c:957-965 | reserving and then mapping a free range leaves no other page changed and overrides no mapping |
| AddrSpace.AddrSpace.constructor | src/core/mmu/mem.c:929-949 | a new space on a given root is well formed and has one table; it maps nothing, or, for the hypervisor's own space, the identity map |
| AddrSpace.AddrSpace.MapPhysicalIdentity | src/arch/riscv/mem.c:11-44 | exactly the pages of root blocks that hold a byte of some region are mapped, each to the frame of its own number |
| IdentityMap.RootedLook | src/arch/riscv/mem.c:22-36 | the meaning of root entries with these blocks written, regions that overlap or wrap included |
| AddrSpace.AddrSpace.Create | src/core/mmu/mem.c:929-949 | a new space on a root it allocates: the root pages were free, are aligned to their number and are mapped in the calling CPU's space, which keeps all it mapped; it fails only for want of frames or of a place for them |
| AddrSpace.AddrSpace.AllocPage | src/core/mem.c:144-154 | the frames are one run that was free; on success they are mapped in order, and all that was mapped stays; it fails only if no pool can give the frames, the section has no place for them, or it ends in another section |
| AddrSpace.AddrSpace.GetPte | src/arch/riscv/page_table.c:33-46 | the loop finds the entry of the walk at that level, if the walk gets that far |
| AddrSpace.AddrSpace.MemTranslate | src/arch/riscv/mem.c:46-68 | the byte address computed is the meaning of the tables, superpage offsets included; it fails exactly on unmapped pages |
| AddrSpace.AddrSpace.AllocPt | src/core/mmu/mem.c:199-214 | the new table is a page nobody had; it becomes taken and carries the reservation of the entry it replaces |
| AddrSpace.AddrSpace.Expand | src/core/mmu/mem.c:231-295 | at every page the meaning is kept; a superpage that is split keeps its frames and gets the flags of the space's own pages, so that a page that had them is left as it was, flags included |
| AddrSpace.AddrSpace.Inflate | src/core/mmu/mem.c:297-313 | every page keeps its meaning and its reservation, one with the space's own flags its flags too, and its walk ends at exactly the level the two passes reach; only page tables are taken from the allocator |
| AddrSpace.AddrSpace.FindSec | src/core/mmu/mem.c:178-188 | the first section that holds the address, or none |
| AddrSpace.AddrSpace.Descend | src/core/mmu/mem.c:531-545 | the walk stops at a free entry whose block fits the range and both alignments; nothing changes its meaning; ERROR exactly if the page is mapped already |
| AddrSpace.AddrSpace.MapEntries | src/core/mmu/mem.c:547-576 | consecutive entries are filled with aligned leaves in order; frames it takes were free |
| AddrSpace.AddrSpace.Map | src/core/mmu/mem.c:489-589 | terminates; it maps a range exactly if its first and its last page lie in one section; the range maps to the given or to newly taken frames in order, no page outside changes, and the pages taken are exactly tables and frames, disjoint; ERROR for a mapped page always if it is the first, for given frames exactly if a walk starts at it; any other ERROR means that all pools are exhausted |
| AddrSpace.LastPageIs | src/core/mmu/mem.c:498 | the last page looked up is the one of the last byte of the range, in 64 bits |
| WalkStart.MeetsMapped | src/core/mmu/mem.c:531-545 | what is reported is a mapped page of the range |
| WalkStart.OverlapMissed | src/core/mmu/mem.c:547-576 | a mapped page right behind a page with a last-level table is not met |
| WalkStart.MissedExample | src/core/mmu/mem.c:489-589 | tables on which mapping two pages overrides the second without a report |
| AddrSpace.AddrSpace.MapColoured | src/core/mmu/mem.c:518-528 | the range maps to the coloured block of the base, in order, up to the first page without a last-level table, which is where it stops; every other page is kept |
| AddrSpace.AddrSpace.Unmap | src/core/mmu/mem.c:419-487 | terminates; exactly the range becomes unmapped, every other page keeps its frame, including the rest of a split superpage, and its flags if they are those of the space's own pages |
| AddrSpace.AddrSpace.ScanTable | src/core/mmu/mem.c:357-393 | the pages counted so far are free and contiguous; with a given address the scan stops only at an occupied page |
| AddrSpace.AddrSpace.MarkRun | src/core/mmu/mem.c:396-410 | exactly the run becomes reserved |
| AddrSpace.AddrSpace.AllocVpage | src/core/mmu/mem.c:315-417 | the n pages found were neither mapped nor reserved and are now reserved, nothing else changes meaning; a given address is returned as it is, and is refused exactly for one of the reasons of `Refused`; a search never comes out before its section, finds the first n free pages from there on, and is refused only if none lie far enough from the end (`FoundFirst`), unless the section begins inside an occupied block; no room for a table means that all pools are exhausted |
| FirstFree.PassOccupied | src/core/mmu/mem.c:362-391 | no free run begins before the block after an occupied one |
| FirstFree.SnugNext | src/core/mmu/mem.c:362-391 | the search is at the beginning of a block after each block |
| FirstFree.SearchedOut | src/core/mmu/mem.c:345-356 | with less than n pages left no free run is missed that begins 2 n - 2 pages or more before the end |
| WalkStart.RefusesNear | src/core/mmu/mem.c:345-356 | a range refused for the room left ends less than n - 1 pages before the end of the section |
| WalkStart.FreeRunRefused | src/core/mmu/mem.c:345-393 | 513 free pages of an empty space that lie in the section and are refused |
| AddrSpace.AddrSpace.AllocMap | src/core/mmu/mem.c:957-965 | the range is found as by `AllocVpage`; it maps to the given frames, or to frames that were free and are distinct from each other and from all page tables, unless it ends in another section; no other page changes |
| Isolation.StepOwned | src/core/mmu/mem.c:957-965 | after an allocation a space still maps each frame at one place, and none that is one of its tables |
| Isolation.StepApart | src/core/mmu/mem.c:957-965 | after an allocation two spaces still share no frame and no table, and neither maps a table of the other |
| Isolation.IsolatedStart | src/core/mmu/mem.c:929-949 | spaces with separate page tables are isolated, leaving out of account what they map to begin with, be it nothing or the identity map |
| Isolation.IsolatedStep | src/core/mmu/mem.c:957-965 | an allocation in any one space keeps all spaces isolated |
| Isolation.Serve | src/core/mmu/mem.c:957-965 | one call keeps all spaces isolated, gives all pages asked for or none unless it ends the run, and changes nothing that was mapped in any space; it ends the run only with all pools exhausted, or by a search that runs off the address space, where the address of the source wraps to zero and the search goes on; what it gives begins at the address asked for or at the first free pages of the section, and it gives nothing only when these cannot be had or leave the section |
| Isolation.Run | src/core/mmu/mem.c:957-965 | after any sequence of calls on any number of spaces no frame given is mapped twice anywhere, was taken at the start, or is a page table, and everything ever given is still mapped to the same frames; a call that wraps ends the run as in `Serve` |
| PteWord.AddrRoundTrip | src/arch/riscv/inc/arch/page_table.h:84-93 | an entry gives back the address it was set to exactly when that is page aligned and within the address bits |
| PteWord.LeafWord | src/arch/riscv/inc/arch/page_table.h:84-88 | a leaf word decodes to a leaf with that page and those flags |
| PteWord.TableWord | src/arch/riscv/inc/arch/page_table.h:84-88 | a table word decodes to a pointer to that table |
| PteWord.RswNumber | src/arch/riscv/inc/arch/page_table.h:42-55 | the software bits decode to the number in bits 8 and 9 |
| PteWord.RswWord | src/arch/riscv/inc/arch/page_table.h:100-103 | setting the software bits changes nothing else that a word decodes to |
| PteWord.DefaultWord | src/core/mmu/mem.c:199-214 | what a new table inherits of an entry is exactly its software bits |
| PteWord.WordTests | src/arch/riscv/inc/arch/page_table.h:95-113 | the tests on words agree with the decoded entry |
| PteWord.ModelLeaf | src/arch/riscv/inc/arch/page_table.h:84-88 | the leaf that is written for any frame is the decoded form of the word the source writes, with no bit lost |
| PteWord.ModelTable | src/core/mmu/mem.c:199-214 | the same for a pointer to any table page |
| PteWord.ModelReserve | src/core/mmu/mem.c:396-410 | the same for marking an entry as reserved |
| PteWord.ModelDefault | src/core/mmu/mem.c:199-214 | the same for the entries of a new table and for a cleared entry |
| PteWord.StoreWord | src/arch/riscv/inc/arch/page_table.h:84-88 | words in memory that decode to the tables do so after each write |
| Colour.OffsetColour | src/core/mmu/mem.c:66-75 | the offset of the pool base gives each index the colour of its physical page |
| Colour.ColourIff | src/core/mmu/mem.c:66-75 | a page has a colour exactly if it lies in the stretch of that colour of some round |
| Colour.NextClr | src/core/mmu/mem.c:66-75 | terminates at the least page of these colours from there on, whatever the base |
| Colour.BlockExact | src/core/mmu/mem.c:146-157 | a coloured block is increasing and holds every page of its colours up to its last |
| Colour.Mark | src/core/mmu/mem.c:146-157 | marks exactly the pages of the block |
| Colour.NextPage | src/core/mmu/mem.c:518-528 | each turn of the mapping loop takes the next page of the same block, in the same order |
| Colour.Free | src/core/mmu/mem.c:77-95 | in one pool, frees exactly the pages of the same block |
| Colour.FreePpages | src/core/mmu/mem.c:77-95 | over all pools: frees exactly the pages of the same block in each pool that the range test admits, and changes no other |
| Colour.FreeUndoesMark | src/core/mmu/mem.c:77-95 | freeing after marking gives the pool back as it was exactly when the pages were free |
| Barrier.OpenIff | src/core/inc/cpu.h:91-105 | the count reaches the k-th multiple of n exactly when every CPU made its k-th arrival |
| Barrier.ArriveInv | src/core/inc/cpu.h:91-105 | an arriving CPU waits for the end of the round it is in |
| Barrier.LeaveInv | src/core/inc/cpu.h:91-105 | nobody is a whole round ahead of anybody |
| Barrier.BarrierSafety | src/core/inc/cpu.h:91-105 | in any run a waiting CPU may leave exactly when all have made the arrival it waits at |
| Barrier.StaysOpen | src/core/inc/cpu.h:91-105 | once open for a CPU the barrier stays open for it |
| Flush.RunInv | src/core/inc/cpu.h:107-125 | in any run a message is queued, in hand or dispatched, and barrier rounds and draining stay in step |
| Flush.FlushedBeforeLeaving | src/core/inc/cpu.h:107-125 | every message sent before its sender's arrival is dispatched before any CPU leaves the call |
| FlushRounds.EachInOnePlace | src/core/cpu.c:57-90 | in any run what was sent is what was dispatched and what is pending on its target, never both, and nothing is pending elsewhere or twice |
| FlushRounds.DispatchedByTarget | src/core/cpu.c:79-90 | in any run a message is dispatched, alone, by the CPU it was sent to, which held it |
| FlushRounds.SentFrom | src/core/cpu.c:57-65 | a message is sent by a CPU at work outside a barrier or by the handler of another one, goes to the end of its target's queue and changes nothing else |
| FlushRounds.SendAlone | src/core/cpu.c:57-65 | each such CPU can send, to any CPU |
| FlushRounds.HandlerRuns | src/core/cpu.c:79-90 | at work and in and after the spin of a first half the handler can run, needs no other CPU, dispatches exactly what is pending and leaves an empty queue |
| FlushRounds.ComesToItsEnd | src/core/inc/cpu.h:107-125 | from any state of any run, without further messages, the CPUs can make all arrivals up to any that does not begin a flush, come back to work, and have dispatched what was sent before the flushes on the way: no deadlock, and the flush can be had |
| LinkedList.List.Push | src/lib/inc/list.h:36-50 | the list is the old sequence with the node at its end; no item changes |
| LinkedList.List.Pop | src/lib/inc/list.h:52-70 | the first node is taken off and unlinked, the rest stays; null exactly from an empty list |
| ObjPool.ObjPool.Alloc | src/core/objpool.c:14-24 | the address of the least free slot, now in use; NULL exactly when none is free |
| ObjPool.ObjPool.Free | src/core/objpool.c:26-40 | frees the slot whose address it is given, and no slot for any other address; the address one past the last slot clears the bit behind those of the slots |
| ObjPool.ObjPool.SlotUnique | src/core/objpool.c:26-36 | an aligned address inside the pool is the address of one slot only |
| Messages.SlotsStep | src/core/cpu.c:57-77 | each step keeps every slot in use in exactly one place, a queue or a CPU's hand |
| Messages.OrderStep | src/core/cpu.c:57-90 | each step keeps pushed = dispatched + in hand + queued, as sequences, for every CPU |
| Messages.Delivered | src/core/cpu.c:57-90 | in any run what was dispatched on a CPU is a prefix of what was pushed for it, and all of it when the CPU is idle with an empty queue |
| Messages.OnlyGrows | src/core/cpu.c:57-90 | nothing pushed or dispatched is taken back |
| Messages.SlotsAlways | src/core/cpu.c:57-77 | in any run the slots in use are the disjoint union of queued and held ones; none leaks |
| MessageCalls.SendAlone | src/core/cpu.c:57-65 | with nobody in between a send takes a free node, fills it and puts the message at the end of the target's queue, and changes nothing else |
| MessageCalls.ReceiveAlone | src/core/cpu.c:67-90 | with nobody in between a receive dispatches the message at the head of the queue, frees its node, and changes nothing else |
| MessageCalls.NoStepIff | src/core/cpu.c:57-90 | in any run a CPU has no step left exactly outside a call with an empty queue and no free node; once in a call it can always go on |
| CpuAssign.Starts | src/core/vmm.c:25-28 | VMs that ask for at least one CPU each, on any CPUs, start with nothing given and no master |
| CpuAssign.StepInv | src/core/vmm.c:25-77 | every step keeps counts, sets, masters and the fullness an unassigned CPU has met |
| CpuAssign.AssignmentSafe | src/core/vmm.c:25-77 | in any run no VM exceeds its CPU count, counts are sizes of sets, a CPU is in at most the VM it was given, and a non-empty VM has exactly one master |
| CpuAssign.AffinityFirst | src/core/vmm.c:29-53 | no place is taken outside affinity before every CPU tried its own; those unassigned then have all VMs of their affinity full |
| CpuAssign.GivenInOrder | src/core/vmm.c:29-72 | a VM is given only to the CPU that looks for one, only while it has room, to the first to come as its master, and only when all VMs the CPU could have had before are full |
| CpuAssign.FirstPassOwn | src/core/vmm.c:29-47 | in any run a CPU that has not left the first pass and its barrier has a VM of its affinity or none |
| CpuAssign.AllFilled | src/core/vmm.c:25-77 | at the end all VMs are full exactly when demand is at most the number of CPUs, and all CPUs are assigned exactly when it is at least that |
| CpuAssign.NeverStuck | src/core/vmm.c:25-77 | until all are done some CPU can take a step |
| Recovery.StepInv | src/core/vm_recovery.c:26-149 | every step keeps phases in line with barrier arrivals, resets with rounds, and accounts for every VM_RESET |
| RecoveryWatch.NoAutoRecovery | src/core/vm_recovery.c:31-33 | without auto_recover no run starts a recovery, queues a VM_RESET, rewrites the image, resets a vCPU or gets past the first check |
| RecoveryWatch.NotMonitoredIdle | src/core/health_monitor.c:19-28 | where monitoring is off nothing happens at all |
| RecoveryWatch.CheckAlone | src/core/health_monitor.c:71-111 | with no other CPU in between, an overdue check and the start it may make come out as the two functions read from top to bottom, whatever the steps they are split into |
| RecoveryWatch.HeartbeatGoesOn | src/core/health_monitor.c:43-61 | a heartbeat of a monitored VM always gets through and leaves it healthy, whatever its status was |
| RecoveryWatch.CheckGoesOn | src/core/health_monitor.c:71-111 | both outcomes of a check can happen, and no check is stuck |
| Recovery.RewriteIsExclusive | src/core/vm_recovery.c:77-149 | the image is rewritten only by the master and only while every vCPU is between its first and second barrier of the same round |
| Recovery.ResumeAfterRewrite | src/core/vm_recovery.c:77-149 | a vCPU re-enters the guest only after the rewrite and after every vCPU was reset in that round |
| Recovery.ResetsAccounted | src/core/vm_recovery.c:26-75 | per CPU, rounds joined plus queued VM_RESETs plus those still being sent are the recoveries started |
| Recovery.LimitOverrun | src/core/vm_recovery.c:26-75 | recovery_count stays below a non-zero max_recoveries plus the number of vCPUs |
| Recovery.BoundStep | src/core/vm_recovery.c:35-49 | recoveries counted or about to be counted grow, by one, exactly in a step that passes the second check |
| Recovery.LimitExact | src/core/vm_recovery.c:26-75 | in any run that sum exceeds the limit exactly when an earlier step did that with the limit used up; with no CPU about to count, that is recovery_count itself |
| Recovery.LimitKept | src/core/vm_recovery.c:26-75 | in a run that ends with no CPU about to count, recovery_count stays within the limit throughout exactly when there is no such step |
| RecoveryLimit.LimitCanBePassed | src/core/vm_recovery.c:26-75 | for every number n of vCPUs, every non-zero limit and every master there is a run to max_recoveries + n - 1 recoveries |
| TokenBucket.Limiter.constructor | src/core/inc/irq_rate_limit.h:118-137 | a full bucket with the parameters of its criticality |
| TokenBucket.Limiter.Refill | src/core/inc/irq_rate_limit.h:147-163 | the refill in machine widths, capped, or nothing if less than a token was earned |
| TokenBucket.Limiter.Consume | src/core/inc/irq_rate_limit.h:178-204 | deferred interrupts are paid for first; then the verdict and the new state |
| TokenBucket.Limiter.DrainDeferred | src/core/inc/irq_rate_limit.h:216-227 | pays for as many deferred interrupts as there are tokens, and says how many |
| TokenBucket.RefillPlain | src/core/inc/irq_rate_limit.h:147-163 | where nothing overflows a refill adds the whole tokens of the time gone by, up to the capacity |
| TokenBucket.PaidOut | src/core/inc/irq_rate_limit.h:178-227 | every call pays for deferred interrupts, one token each, until none is left or the tokens are used up |
| TokenBucket.CriticalHasMore | src/core/inc/irq_rate_limit.h:118-132 | a critical VM has the larger budget in every respect |
| TokenBucket.WindowBound | src/core/inc/irq_rate_limit.h:147-227 | in any window of any run at most max_tokens + rate * length / freq + 1 tokens are spent, with every wrap and truncation |
| TokenBucket.NeverThrottled | src/core/inc/irq_rate_limit.h:147-204 | a stream with gaps of at least freq / rate, and no overflowing refill, is always allowed and never defers, whatever drains come between |
| TokenBucket.SilenceThrottles | src/core/inc/irq_rate_limit.h:147-163 | a conforming first call on a full bucket that is deferred, because the refill wraps to zero |
| TokenBucket.AllowIff | src/core/inc/irq_rate_limit.h:147-204 | with nothing deferred, the exact condition on tokens and refill for a call to be allowed |
| TokenBucket.Accounted | src/core/inc/irq_rate_limit.h:178-227 | every interrupt offered to a fresh bucket cost a token, is deferred, or was counted as dropped; the buffer stays within its limit |
| Vplic.Vplic.constructor | src/arch/riscv/vplic.c:402-405 | a fresh bucket for each interrupt, none shared |
| Vplic.Vplic.NextPending | src/arch/riscv/vplic.c:89-110 | the pending, enabled, inactive interrupt of highest priority above the threshold, the least id first; 0 exactly if none is above it; the id one past the last, whose bits lie in the neighbouring arrays, never wins |
| Vplic.Vplic.Inject | src/arch/riscv/vplic.c:235-275 | only the bucket of that interrupt is asked; it becomes pending, deferred or neither as the bucket says |
| Vplic.Vplic.DrainDue | src/arch/riscv/vplic.c:203-214 | each deferred interrupt with tokens moves to pending; the others keep waiting, and no other bucket is touched |
| Vplic.Vplic.Claim | src/arch/riscv/vplic.c:195-220 | hands out the best interrupt, marks it active, and drains |
| Vplic.Vplic.Complete | src/arch/riscv/vplic.c:222-233 | ends the activity of that interrupt only; an id past the array of active bits falls on the deferred bits |
| Vplic.TraceRefines | src/arch/riscv/vplic.c:195-275 | seen from one interrupt a run is a run of calls on its bucket, and becoming pending always costs a token there |
| Vplic.RaiseBound | src/arch/riscv/vplic.c:195-275 | in any window an interrupt becomes pending at most max_tokens + rate * length / freq + 1 times |
| Vplic.EvenStep | src/arch/riscv/vplic.c:195-275 | a call never spends less than it raises, and spends exactly that under the stated condition on what it finds deferred |
| Vplic.SpentIsRaised | src/arch/riscv/vplic.c:195-275 | a run spends on an interrupt exactly what it raises if and only if each of its events does |
| Vplic.SpentUnraised | src/arch/riscv/vplic.c:195-275 | a run from a full bucket that spends two tokens and raises once |
| Vplic.ClaimsMatch | src/arch/riscv/vplic.c:195-275 | each time an interrupt becomes pending it is claimed exactly once or is pending still |
| Vplic.ClaimedOnce | src/arch/riscv/vplic.c:195-233 | between two claims of an interrupt there is its completion |
| StreamMatch.OverlapIff | src/arch/armv8/armv8-a/smmuv2.c:291-293 | the test on ids and masks finds exactly the entries that match a common stream |
| StreamMatch.GreaterIncludes | src/arch/armv8/armv8-a/smmuv2.c:295-309 | comparing masks as numbers tells which of two nested entries includes the other |
| StreamMatch.HostIsAlone | src/arch/armv8/armv8-a/smmuv2.c:280-321 | an entry that includes the new one is the only one it meets, so nothing was cleared before it is found |
| StreamMatch.MergeAdds | src/arch/armv8/armv8-a/iommu.c:52-61 | merging keeps entries free of common streams and adds exactly the requested streams, though entries disappear |
| StreamMatch.HostAdds | src/arch/armv8/armv8-a/iommu.c:52-61 | a request that is included in an entry is already served by it |
| Smmu.Smmu.constructor | src/arch/armv8/armv8-a/smmuv2.c:156-162 | no entry and no context bank in use |
| Smmu.Smmu.CompatibleExists | src/arch/armv8/armv8-a/smmuv2.c:280-321 | ERROR exactly when some entry met cannot be merged; otherwise included in one, or all entries met are included and gone |
| Smmu.Smmu.AllocSme | src/arch/armv8/armv8-a/smmuv2.c:253-264 | takes a free entry; fails exactly when there is none |
| Smmu.Smmu.WriteSme | src/arch/armv8/armv8-a/smmuv2.c:323-338 | records id and mask of that entry only, and the group bit only for groups |
| Smmu.Smmu.WriteS2c | src/arch/armv8/armv8-a/smmuv2.c:340-358 | records the context of that entry only |
| Smmu.Smmu.InitCtx | src/arch/armv8/armv8-a/iommu.c:20-39 | a VM keeps its context; a new one was nobody's |
| Smmu.Smmu.Add | src/arch/armv8/armv8-a/iommu.c:41-64 | success: every stream requested reaches the VM's context, every other stream goes where it went; a refusal changes no entry and means that entries or contexts ran out; ERROR exactly on a conflict |
| DeviceIsolation.Serve | src/arch/armv8/armv8-a/iommu.c:41-64 | over any sequence of requests of any VMs every request done still holds, no stream is redirected, and no two VMs share a context |
| DeviceIsolation.NoSharedStream | src/arch/armv8/armv8-a/iommu.c:41-64 | requests of different VMs that both hold have no stream in common |
| RankSelect.Vm.ToPcpuid | src/core/inc/vm.h:169-178 | the CPU of the set before which that many others come, if there is one |
| RankSelect.Vm.ToVcpuid | src/core/inc/vm.h:180-187 | the rank of a CPU in the set; invalid exactly outside it |
| RankSelect.Vm.CalcVcpuId | src/core/vm.c:40-46 | the loop over single bits finds the same rank |
| RankSelect.Inverse | src/core/inc/vm.h:169-187 | the two translations undo each other, both ways |
| RankSelect.Vm.ToPcpuMask | src/core/vm.c:357-370 | the CPUs of exactly the vCPUs of the mask that the VM has |
| RankSelect.Vm.ToVcpuMask | src/core/vm.c:372-385 | the vCPUs of exactly the CPUs of the mask that the VM has |
| RankSelect.MaskRoundTrip | src/core/vm.c:357-385 | either way around, a mask comes back as its part that the VM has |
| RankSelect.Vm.Broadcast | src/core/vm.c:347-355 | the message goes once to each of the first cpu_num - 1 other CPUs, in order, and on a fully populated VM to all others |

## Left out

- Bitmap.FindConsec: requires `Contained`; in any other search the code leaves the backing words.
- Bitmap.CountConsecutive: for n of at least 2 requires that some later bit of the backing words differs or that they reach past the n bits, for the same reason.
- PagePool.PagePool.PpAlloc: an aligned failure does not mean that there is no aligned free run, because the search can jump past one.
- PagePool.PagePool.constructor: the guard bit and the padding behind the pool, which `pp_init` leaves to what lies behind the bitmap; the pages it takes for the bitmap itself are not modelled.
- PagePool.PagePool.Free: `free` is not updated by the code, so it is exact only over runs without frees.
- PagePool.PageAllocator.FreePpages: what is cleared behind a pool is required to lie in its backing words.
- PagePool.PageAllocator.AllocPpages: colours select all pages.
- Caches, TLBs and fences: page tables are a map from table pages to entries.
- AddrSpace.AddrSpace.Map: when it allocates its own frames, which pages a walk starts at depends on what the pools can give; an overlap is then characterised only for the first page.
- AddrSpace.AddrSpace.MapColoured: takes the coloured pages as given, and requires that a page that gets no last-level table is unmapped; otherwise the walk reads a superpage as a table.
- AddrSpace.AddrSpace.Unmap: requires a fully mapped range under one root entry and does not free frames; with holes or across root entries the code's cursor skips pages.
- AddrSpace.AddrSpace.AllocVpage: RanOff stands for a search that leaves the 64-bit address space, where the source starts over at zero and need not end; a search without an address may leave its section, and where the section begins inside an occupied block it can pass free pages.
- AddrSpace.AddrSpace.Inflate: requires that its first pass leaves no root superpage of the range, which the second would read as a table.
- AddrSpace.AddrSpace.MapPhysicalIdentity: regions are not empty and lie within the physical address.
- Isolation.Run: uncoloured requests without given frames, one at a time; pages named in `rests`, such as what a space starts with, are not claimed about, and a search that wraps ends the run.
- Colour.Mark: the search of pp_alloc_clr before its final loop, which restarts without snapping to a colour, is not modelled.
- Flush.FlushedBeforeLeaving: calls made outside a message handler. FlushRounds.ComesToItsEnd says that the CPUs can finish, not that a scheduler lets them.
- Messages.Delivered: dispatched means handed to the dispatcher; a handler number without a handler is then ignored by the code.
- Recovery.StepInv: the unlocked increment of `recovery_count` is one step, and the number of misses before a VM is unhealthy is left open.
- TokenBucket.Limiter.Refill: the clock is a parameter that never runs backwards.
- Vplic.Vplic.Inject: id PLIC_MAX_INTERRUPTS, whose bucket is not one; what the hart line and the physical PLIC are told is not modelled, nor are the register emulation and the setters.
- Vplic.Vplic.Complete: ids that reach past the deferred bits, from twice PLIC_MAX_INTERRUPTS on.
- Vplic.ClaimsMatch: the `deferred` bit is not claimed to agree with `deferred_count`; the code lets them differ.
- Smmu.Smmu.Add: SMMU register encodings beyond id, mask and context, and what stays in the hardware of a merged entry; masks have 15 bits.
- RankSelect.Vm.Broadcast: requires cpu_num of at least 1, and cpu_num - 1 other CPUs with ids below 32; otherwise the loop goes on to shifts that C leaves undefined.
- The MPU memory layer, the virtual GIC, list removal and ordered insertion: each relies on hardware or on behaviour that does not keep the intended invariant.
- mem_map_reclr, mem_color_hypervisor, mem_map_cpy and the set-up of the root pool at boot.
- Boot code, interrupt controllers, timers, IOMMU and UART drivers, the console and platform tables.
- Wrap-around of the barrier count and of missed_count, which are natural numbers here.
