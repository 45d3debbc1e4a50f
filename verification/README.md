# just_kernel: a verified model of its hard core

just_kernel is a 32-bit x86 kernel for several cores. This project models the parts of it whose correctness is
hard to see by reading one function, and proves what they promise over every input, every run and every
interleaving.

| module | models |
|---|---|
| `Memory`, `Bits` | 32-bit words, word-addressed RAM, wrap-around; binary digits and the bitwise or |
| `LinkedList` | the circular intrusive list (`include/klibc/llist.h`) in raw memory |
| `HeapShape`, `Heap`, `HeapClient` | the boundary-tag heap (`src/mm/heap.c`): tilings and free lists, the allocator itself as a class over raw memory, and any client's runs |
| `Pmm`, `PmmClient` | the bitmap frame allocator (`src/mm/pmm.c`) and any client's runs |
| `Paging`, `AddressSpaces`, `PagingMachine` | two-level page tables (`src/mm/vmm.c`, 32-bit paging, section 4.3 of volume 3A of the Intel SDM): frames of 1024 words, runs of fork/map/remap/unmap, and the windowed code that edits them |
| `Scheduler`, `SchedulerRuns`, `SchedulerMachine` | the scheduler (`src/proc/sched.c`) as a transition system over any number of cores and threads, its whole runs, and its functions as a class that refines the system |
| `V86`, `V86Runs`, `V86Faults`, `V86Machine` | the virtual-8086 monitor (`src/proc/v86.c`, section 20.2 of volume 3 of the Intel SDM), runs of a guest, each fault by the guest's bytes and flag bits, and the monitor as a class |
| `Madt` | the MADT entry walk (`src/sys/apic.c`, section 5.2.12 of the ACPI specification) |
| `Strings` | number printing and parsing (`src/klibc/string.c`) |

Code that works in place is a class or a method over arrays and fields, proved against functions on values; the
theorems are about those functions and about whole runs. Ghost parameters of such methods (a list's contents, a
chunk's position) name what the C code leaves implicit.

## How the theorems read

* **Heap.** `Valid()` says that chunks with 8-aligned sizes of at least 16 tile [startAddr, endAddr), that header
  words agree with them, and that the free list holds exactly the free chunks in ascending size order. `Outside` is the
  frame of every operation. `Run` lets any client allocate, page-align, free and store aligned words, records every
  state and answer, and concludes that each step did what it must and that blocks never overlap and keep their words.
* **Address spaces.** `WellFormed` ties the frame bitmap, the live directories and their tables together, and keeps the
  four pages the paging code itself works through mapped onto themselves. Kernel
  sharing, isolation and "shared only if inherited" are theorems over `Reaches`, which allows every sequence of
  fork, map, remap, unmap and frame claims by others.
* **Scheduler.** Sixteen kinds of steps of any core interleave freely. `Reaches` from `Init` is every run.
* **Virtual-8086.** A shadow stack records what each INT or PUSHF pushed. `Closes` is any run from such a
  fault to the matching IRET or POPF, with arbitrary native code, brackets and stack wrap in between.

## Where the code and what it promises part

* `find_free_page` uses 0 as its "no run yet" mark. It is first fit exactly when `Trusted` holds, for which a reserved
  page 0 suffices; `PageZeroCounterexample` shows an overlapping answer otherwise.
* The search covers `BITMAP_MAX_PAGE` pages although the bitmap has eight times as many bits (`UnsearchedPage`), and the
  bitmap lacks the last eight pages of memory, past which setup can write (`EntryBoundedExactly`, `EntryPastBitmap`).
* `pmm_unalloc` frees whatever it is told to; `ChargesExactly` says when its counters stay right, `FreeTwiceExample`
  when not.
* `expand` compares a wrapped sum with maxAddr; `ExpandExactly` says for which requests the check passes by wrapping.
* `alloc` of the chunk that ends the heap sets a bit in the word at endAddr + 4, outside the heap. `EndWordChanges` says
  from the state before the call exactly when, `EndWordExample` gives a request. The last block's payload ends 4 bytes
  past endAddr (`PayloadsDisjoint`).
* A sleep of ms with ms × 1000 ≥ 2^32 ends early (`WakeOnTimeExactly`, `LongSleepExample`).
* `_vtoa` divides unsigned, so `itoa` prints negative numbers as unsigned words and never writes a minus sign
  (`MinusOneExample`).
* The prefix loop of `v86_monitor` never ends in a code segment that holds only 0x66 and 0x67 (`PrefixLoopEnds`,
  `PrefixesOnlyExample`), and the MADT loop never passes an entry of length zero (`WalkEnds`, `ZeroEntryExample`).

## Model

| member | source | states |
|---|---|---|
| LinkedList.InsertRefines | include/klibc/llist.h:43-77 | writing four links between two neighbours of a well-linked cycle yields the list with the node inserted at that place, next and prev still inverse |
| LinkedList.RemoveRefines | include/klibc/llist.h:86-100 | a member's own links name its neighbours, and joining those yields the list without it |
| LinkedList.MoveRefines | include/klibc/llist.h:124-140 | moving a node between two disjoint lists removes it from one, inserts it in the other at any place, and conserves the union as a multiset |
| LinkedList.MoveWithinRefines | include/klibc/llist.h:124-140 | taking an entry out of a list and putting it back at any place permutes the list |
| LinkedList.AddKeepsOther | include/klibc/llist.h:43-51 | an insertion leaves every list that shares no node with it linked as it was |
| LinkedList.UnlinkKeepsOther | include/klibc/llist.h:86-90 | so does a removal |
| LinkedList.ChangedOnlyKeepsOthers | include/klibc/llist.h:86-140 | an edit that changes only link words of some lists leaves every disjoint list linked as it was |
| LinkedList.ListMemory.InitListHead | include/klibc/llist.h:33-35 | the head becomes an empty list |
| LinkedList.ListMemory.ListAdd | include/klibc/llist.h:61-64 | inserts right after any node of the list, and writes nothing else |
| LinkedList.ListMemory.ListAddTail | include/klibc/llist.h:74-77 | inserts right before any node of the list, and writes nothing else |
| LinkedList.ListMemory.ListDel | include/klibc/llist.h:102-107 | the list without the entry, whose own links become null; only link words of that list change |
| LinkedList.ListMemory.ListDelInit | include/klibc/llist.h:113-117 | the list without the entry, which becomes an empty list of its own; only link words of that list change |
| LinkedList.ListMemory.ListMove | include/klibc/llist.h:124-128 | the lists after a move to the front of another list or of the same one, union conserved; only link words of those lists change |
| LinkedList.ListMemory.ListMoveTail | include/klibc/llist.h:135-140 | the same for a move to the back |
| LinkedList.ListMemory.ListEmpty | include/klibc/llist.h:146-149 | true exactly for the empty list |
| LinkedList.ListMemory.ListSize | include/klibc/llist.h:155-166 | the loop ends with the length of the list |
| HeapShape.RequestFits | src/mm/heap.c:20-43 | a padded request is a legal chunk size with room for the request exactly when padding does not wrap, and then no smaller size is legal |
| HeapShape.TilesExactly | src/mm/heap.c:29-58 | in a tiling every address of the heap lies in exactly one chunk |
| HeapShape.PayloadsDisjoint | src/mm/heap.c:33-46 | two live blocks' payloads share no word and hold what was asked for; they stay inside the heap exactly for blocks that do not end it |
| HeapShape.TakeTiles | src/mm/heap.c:232-246 | handing out a chunk, split or whole, keeps the tiling |
| HeapShape.TakeExactly | src/mm/heap.c:232-248 | the block handed out is less than 16 bytes larger than the padded request, the rest of its chunk is a hole behind it, and no other chunk changes |
| HeapShape.GrownTiles | src/mm/heap.c:190-228 | growth, by stretching a free top chunk or adding one, tiles the larger heap |
| HeapShape.InsertKeepsFreeList | src/mm/heap.c:94-108 | inserting before the first chunk at least as large keeps the list exact and sorted |
| HeapShape.RemoveKeepsFreeList | src/mm/heap.c:110-112 | unlinking a chunk keeps the list exact and sorted for the remaining ones |
| Heap.Heap.CreateHeap | src/mm/heap.c:114-137 | a fresh heap is one hole and satisfies the invariant; no word outside it and its list head changes |
| Heap.Heap.InsertChunk | src/mm/heap.c:94-108 | the loop finds the place and the free list gains exactly that chunk |
| Heap.Heap.RemoveChunk | src/mm/heap.c:110-112 | the free list loses exactly that chunk |
| Heap.Heap.FindSmallestChunk | src/mm/heap.c:79-92 | a smallest chunk that is large enough, the first such in list order, or 0 exactly when none is |
| Heap.Heap.Alloc | src/mm/heap.c:186-253 | keeps the invariant; takes the first fit of the sorted list, a best fit, or after one expansion the chunk that has the new room; panics exactly when expansion fails; every live block and its contents stay, the new one was free, holds the request and has its previous-in-use bit; outside the heap only the word past its end can change, under a condition on the state before the call |
| Heap.EndWordChanges | src/mm/heap.c:51-53 | the word past the heap end changes if and only if its bit was clear and, before the call, the first fit ends the heap and is too small to split, or none fits and the grown last chunk will be |
| Heap.AllocEndsExactly | src/mm/heap.c:186-248 | that condition on the state before the call decides whether alloc hands out the last chunk of the heap whole |
| Heap.EndWordExample | src/mm/heap.c:230-248 | a request on a fresh heap of one page that changes it |
| Heap.Heap.Grow | src/mm/heap.c:190-228 | after expand the highest free chunk is stretched exactly if it ends at the old end, otherwise a new one is added |
| Heap.GrownFits | src/mm/heap.c:190-228 | after one expansion there is a hole that fits, so the recursive call ends |
| Heap.ExpandExactly | src/mm/heap.c:139-156 | expand grows the heap exactly within maxAddr, by whole pages and by less than a page more than the request, and passes its assertion by a 32-bit wrap exactly for one family of requests |
| Heap.ExpandWrapsExample | src/mm/heap.c:147-150 | a request that does so |
| Heap.Heap.Free | src/mm/heap.c:255-324 | keeps the invariant; a block with a chunk after it becomes a hole with its size at both ends and nothing else changes, in or outside the heap; panics exactly on foreign pointers and free chunks |
| Heap.TaggedIsFreed | src/mm/heap.c:265-289 | a block that came from alloc and has a chunk after it is always freed |
| Heap.CarveRoom | src/mm/heap.c:332-352 | the page-aligned block starts at least 16 bytes into the chunk and leaves the padded size after it, for every 8-aligned chunk |
| Heap.CarveLeast | src/mm/heap.c:340-342 | it is the first page-aligned place that leaves no lead or one that can stand alone |
| Heap.Heap.PalignedAlloc | src/mm/heap.c:332-373 | lead, block and remainder tile the chunk alloc returned; the block is page aligned, large enough and in use, so the closing assertions hold; other blocks and their contents stay; conditions on the state before the call say exactly when the word past the heap end changes and when the call leaves the model |
| Heap.PalignedExactly | src/mm/heap.c:332-373 | what the inner alloc takes, and whether the remainder ends the heap, is decided by the state before the call |
| HeapClient.LeasesDisjoint | src/mm/heap.c:186-253 | a client's live blocks do not overlap |
| HeapClient.Run | src/mm/heap.c:186-373 | over any sequence of allocations, page-aligned allocations, frees and aligned stores every step does what its specification says, the run stops only at a panic or where the model ends, and in every state on the way blocks are disjoint and every stored word of a held block is intact |
| HeapClient.HistoryGrows | src/mm/heap.c:186-373 | one more correct step extends a correct run |
| HeapClient.Step | src/mm/heap.c:186-373 | what one operation answers and does to the heap, the blocks held and the words stored; free never panics on a held block, and succeeds exactly before the heap end on one from alloc |
| Pmm.SearchIsFirstFit | src/mm/pmm.c:64-83 | from any point of the scan with a genuine run start, the search returns the first fit |
| Pmm.FindFreePageExact | src/mm/pmm.c:64-88 | the search is first fit if and only if the bitmap can be trusted about page 0 |
| Pmm.PageZeroCounterexample | src/mm/pmm.c:64-83 | with page 0 free it returns a run that is not free |
| Pmm.UnsearchedPage | src/mm/pmm.c:64-88 | a free page above the searched range is never found |
| Pmm.CountMarked | src/mm/pmm.c:94-98 | marking a uniform run moves the number of clear bits by its length |
| Pmm.ChargesExactly | src/mm/pmm.c:136-137 | giving back pages keeps the counters right exactly if all of them were in use and charged |
| Pmm.FreeTwiceExample | src/mm/pmm.c:133-137 | freeing a free page makes the counter claim a page too many |
| Pmm.EntryInBitmap | src/mm/pmm.c:37-62 | the pages of a usable memory-map entry lie in the bitmap and exclude page 0 |
| Pmm.EntryBoundedExactly | src/mm/pmm.c:37-62 | an entry below 4 GiB that does not start inside the last page lies in the bitmap if and only if it ends at or below page 8 * 131071 |
| Pmm.EntryPastBitmap | src/mm/pmm.c:52-57 | an entry for which the source writes past the bitmap |
| Pmm.EntryFrees | src/mm/pmm.c:47-57 | setup frees a page for an entry exactly if the entry is available, starts at 1 MiB or above, and holds the page's first byte |
| Pmm.PagesCover | src/mm/pmm.c:91 | the pages taken for a request are the fewest that cover its bytes; for the sizes above 0xFFFFF000, where the sum wraps, they are none |
| Pmm.BytesInPages | src/mm/pmm.c:91-100 | every byte of a request lies in one of the pages taken for it |
| Pmm.RunBytes | src/mm/pmm.c:94-95 | so marking the run changes the mark of every byte's page |
| Pmm.FrameAllocator.SetBit | src/mm/pmm.c:16-21 | sets that page's bit and no other |
| Pmm.FrameAllocator.ClearBit | src/mm/pmm.c:23-28 | clears that page's bit and no other |
| Pmm.FrameAllocator.GetBit | src/mm/pmm.c:30-35 | reads that page's bit |
| Pmm.FrameAllocator.MemorySetup | src/mm/pmm.c:37-62 | a page is free exactly if an available entry from 1 MiB up holds its first byte; counters agree with the bitmap when entries are page-disjoint |
| Pmm.FrameAllocator.FindRun | src/mm/pmm.c:64-88 | the loop computes the specified search |
| Pmm.FrameAllocator.Alloc | src/mm/pmm.c:90-101 | the lowest free run is marked, nothing else changes, and the counters stay in step; every byte asked for lies in a page that was free and is now marked |
| Pmm.FrameAllocator.AllocFrom | src/mm/pmm.c:103-118 | exactly the named pages are taken if all are free, and they hold every byte asked for; a failure changes nothing |
| Pmm.FrameAllocator.Unalloc | src/mm/pmm.c:120-138 | clears the pages of every byte named and moves the counters whatever they were; the accounts stay right if and only if all of it was in use and charged; refused exactly beyond the searched range |
| Pmm.FrameAllocator.AllocThenFree | src/mm/pmm.c:90-138 | freeing what pmm_alloc returned restores bitmap and counters |
| PmmClient.Serve | src/mm/pmm.c:90-138 | exactly which run one request takes or gives back |
| PmmClient.Requests | src/mm/pmm.c:37-138 | after setup, request by request, the client holds exactly what each request gives it and marks change only with that; available + used = total, available is one page per clear bit, what is used is what is held, and held runs are marked and disjoint |
| PmmClient.OwnedCovers | src/mm/pmm.c:90-118 | every byte a client asked for in a run it holds lies in a marked page |
| Paging.OffsetsRoundTrip | src/mm/vmm.c:48-68 | splitting an address and joining it is the identity; the other way exactly for fields in range |
| Paging.PteTranslates | src/mm/vmm.c:48-58 | the code's split of an address and its two table reads are the processor's own walk |
| Paging.FreshFrame | src/mm/vmm.c:155-170 | a free frame is no live directory, table or window |
| Paging.EnsureTableOk | src/mm/vmm.c:155-170 | a table is in the slot afterwards, no translation changes, and the invariant stays |
| Paging.EnsureTableSucceeds | src/mm/vmm.c:155-170 | it succeeds exactly if the slot has a table or some page of the searched range is free |
| Paging.TableEntryBits | src/mm/vmm.c:168 | a new directory entry holds the table's address and, of its low twelve bits, exactly present, writable and user |
| Paging.SharesIff | src/mm/vmm.c:381-399 | two directories hold the same table in a slot exactly when both have it from the kernel directory |
| Paging.SetPteMaps | src/mm/vmm.c:196-228 | editing a page changes it in exactly the directories that share its slot, and no other page anywhere |
| AddressSpaces.MapRefines | src/mm/vmm.c:196-228 | map installs exactly the longest prefix of free pages, keeps every other translation, and returns 0 exactly if that is the whole range |
| AddressSpaces.MapStuck | src/mm/vmm.c:196-228 | from an occupied page on nothing changes |
| AddressSpaces.PrefixIsLongest | src/mm/vmm.c:204-218 | the pages installed are absent before the call, and the page behind them, if any, is present |
| AddressSpaces.TaggedBits | src/mm/vmm.c:213 | each bit of the entry stored is the or of that bit of the frame's address and of the 16-bit permissions |
| AddressSpaces.TaggedOnly | src/mm/vmm.c:213 | no other word has those bits |
| AddressSpaces.TaggedReads | src/mm/vmm.c:196-256 | for permissions below 0x1000 the entry is the frame's address with the permissions in its low twelve bits |
| AddressSpaces.MapSucceeds | src/mm/vmm.c:196-228 | map never halts if as many frames are free in the searched range as pages are asked for |
| AddressSpaces.MapThenTranslate | src/mm/vmm.c:196-228 | after a map that returns 0 every page of the range, in every directory that shares its slot, holds its frame with exactly the permissions asked for |
| AddressSpaces.RemapRefines | src/mm/vmm.c:230-256 | remap overwrites the whole range and nothing else |
| AddressSpaces.RemapThenTranslate | src/mm/vmm.c:230-256 | after a remap every page of the range holds its new frame with exactly the permissions asked for, whatever it held before |
| AddressSpaces.RemapSucceeds | src/mm/vmm.c:230-256 | remap never halts under the same condition |
| AddressSpaces.UnmapRefines | src/mm/vmm.c:258-287 | unmap clears the whole range and nothing else, and returns 1 exactly if some page was absent |
| AddressSpaces.UnmapSucceeds | src/mm/vmm.c:258-287 | nor does unmap |
| AddressSpaces.ForkInherits | src/mm/vmm.c:381-399 | a fork is a new directory that translates like the kernel's and inherits exactly its present slots |
| AddressSpaces.ForkedWellFormed | src/mm/vmm.c:381-399 | forking changes no translation and keeps the invariant |
| AddressSpaces.ForkSucceeds | src/mm/vmm.c:381-399 | forking succeeds exactly if some page of the searched range is free |
| AddressSpaces.BootWellFormed | src/mm/vmm.c:351-379 | the memory set up at boot satisfies the invariant |
| AddressSpaces.WindowsVisible | src/mm/vmm.c:118-132 | in every directory the low pages translate by the base table, so the windows work in all of them |
| AddressSpaces.PinnedReachable | src/mm/vmm.c:70-116 | in every reachable state every directory maps both windows, the first table and the kernel directory at their own pages, where the code uses them |
| AddressSpaces.RunOk | src/mm/vmm.c:155-399 | every run keeps the invariant and never changes a present directory entry |
| AddressSpaces.KernelSharingPermanent | src/mm/vmm.c:155-170 | an inherited slot holds the kernel's table in all later states, and both translate every address in it alike |
| AddressSpaces.RunIsolated | src/mm/vmm.c:196-287 | a translation that no call of a run touches, directly or through a shared slot, stays as it was |
| AddressSpaces.PrivateSlotsIsolated | src/mm/vmm.c:196-287 | editing only slots that were not inherited changes no translation of any other address space |
| AddressSpaces.SharedOnlyIfInherited | src/mm/vmm.c:155-170 | in every reachable state two directories hold the same table only in the same slot and only by inheritance |
| PagingMachine.Machine.OpenDir | src/mm/vmm.c:70-80 | through the loaded directory, the directory window comes to show that directory and nothing else changes |
| PagingMachine.Machine.OpenTable | src/mm/vmm.c:82-92 | through the loaded directory, the table window comes to show that frame and nothing else changes |
| PagingMachine.Machine.Close | src/mm/vmm.c:94-116 | both windows are back on their own pages |
| PagingMachine.RootedReads | src/mm/vmm.c:70-132 | so whichever directory is loaded, the code finds the first table, the kernel directory and what the windows show |
| PagingMachine.Machine.SetCr3 | src/mm/vmm.c:40-42 | any live directory may be loaded |
| PagingMachine.Machine.EnsureSlot | src/mm/vmm.c:155-170 | through the windows, the specified table is hung in the slot |
| PagingMachine.Machine.MapPages | src/mm/vmm.c:196-228 | the windowed loop computes the specified map and returns with both windows closed |
| PagingMachine.Machine.RemapPages | src/mm/vmm.c:230-256 | the same for remap |
| PagingMachine.Machine.UnmapPages | src/mm/vmm.c:258-287 | the same for unmap |
| PagingMachine.Machine.VirtToPhys | src/mm/vmm.c:134-153 | gives the processor's own translation, or 0xFFFFFFFF where there is none; for the windows' own pages, where they stand during the call; leaves all memory as it was |
| PagingMachine.Machine.ForkKernelSpace | src/mm/vmm.c:381-399 | the windowed loops, reading the kernel directory at its own page, compute the specified fork and close the window |
| Scheduler.TickIsEightPeriods | include/drivers/pit.h:7-10 | the tick is 31992 microseconds |
| Scheduler.AssertsNeverFail | src/proc/sched.c:146-210 | in every state of the invariant the scheduler's own assertions hold |
| Scheduler.ThreadEffect | src/proc/sched.c:73-303 | what any step can do to a thread, by its state |
| Scheduler.IdentityKept | src/proc/thread.c:39-77 | a thread enters stopped with the frame, core and priority it is given, and no step ever changes its core, priority or kind |
| Scheduler.GoesIdle | src/proc/sched.c:146-154 | a core comes to idle only by exit, sleep or its first pass, and then has no thread and resumes its idle thread's frame |
| Scheduler.Leaves | src/proc/sched.c:277-303 | exit and sleep take the core to idle and leave the thread terminated, or sleeping for 1000 times the milliseconds modulo 2^32, with the frame it was interrupted at |
| Scheduler.Boots | src/proc/sched.c:269-275 | a core boots with its idle thread and no other, and its first pass makes it idle |
| Scheduler.StepKeepsInv | src/proc/sched.c:73-303 | every step of every core keeps the invariant |
| Scheduler.PickIsWaiting | src/proc/sched.c:91-118 | a picked thread is stopped, in the list and current nowhere |
| SchedulerRuns.RunNeverPanics | src/proc/sched.c:146-267 | no assertion fails in any reachable state |
| SchedulerRuns.RunIsSafe | src/proc/sched.c:91-219 | in every reachable state a running thread is current on exactly one core, a core is online exactly when it has a current thread, one core at a time is inside the scheduler, and what is picked is neither idle nor current |
| SchedulerRuns.TerminatedForever | src/proc/sched.c:277-289 | a terminated thread stays as it is |
| SchedulerRuns.ExitIsFinal | src/proc/sched.c:277-289 | in every state after its exit a thread is terminated, current on no core, and no core would pick it |
| SchedulerRuns.IdleResumes | src/proc/sched.c:146-154 | a core that went idle keeps its idle thread's frame to resume until it is interrupted or loads a thread |
| SchedulerRuns.IdleFrameKept | src/proc/sched.c:269-275 | an idle thread's frame stays the one it was created with over every run |
| SchedulerRuns.LockHolderNotRescheduled | src/klibc/lock_asm.s:4-26 | a core that holds the lock in thread context keeps its thread until it unlocks, in any state; its state changes only from offline to booting |
| SchedulerRuns.RegsAreLastSaved | src/proc/sched.c:120-128 | a thread's frame is the one stored at its last save, or its creation frame |
| SchedulerRuns.LoadHandsOver | src/proc/sched.c:130-144 | loading a thread resumes exactly that frame, whichever cores it ran on |
| SchedulerRuns.ReturnResumes | src/int/isr.c:81-132 | returning into a thread resumes the frame at which it was last interrupted |
| SchedulerRuns.SleepsUntil | src/proc/sched.c:73-89 | after k passes, too few to wake it, a thread sleeps with exactly k ticks off its clock |
| SchedulerRuns.WakesExactly | src/proc/sched.c:291-303 | a sleeper cannot be picked before, and is stopped on exactly, the max(1, ceil(w / 31992))-th pass of core 0 |
| SchedulerRuns.WakeOnTimeExactly | src/proc/sched.c:291-303 | that is on time if and only if ms * 1000 fits 32 bits |
| SchedulerRuns.LongSleepExample | src/proc/sched.c:291-303 | a sleep of 4294968 ms ends on the first pass instead of the 134252nd |
| SchedulerMachine.PickIsBest | src/proc/sched.c:91-118 | the thread picked is the earliest of least priority number among the candidates, and there is none exactly when there is no candidate |
| SchedulerMachine.PickByFields | src/proc/sched.c:91-118 | some thread is picked exactly if a listed one is stopped, free or bound to this core, and of priority below 0xFFFFFFFF; it is such a thread, none of these has a smaller priority number, and it is the first of its priority |
| SchedulerMachine.PassOutcome | src/proc/sched.c:156-210 | what a whole pass comes to, by the core's state: an online core stops its thread with the frame it was interrupted at and runs the one picked, an idle core runs it, with none picked nothing but the sleepers changes, a booting core goes idle, and other cores stay as they are |
| SchedulerMachine.Kernel.FindPick | src/proc/sched.c:91-118 | the loop with its running minimum computes the specified pick |
| SchedulerMachine.Kernel.CheckAndLock | src/klibc/lock_asm.s:65-72 | one atomic step: takes a free lock, and does nothing otherwise |
| SchedulerMachine.Kernel.UpdateSleepingThreads | src/proc/sched.c:73-89 | the loop ticks every listed sleeper once, on core 0 only |
| SchedulerMachine.Kernel.PickThread | src/proc/sched.c:91-118 | the loop picks the best candidate |
| SchedulerMachine.Kernel.SaveCurrent | src/proc/sched.c:176-184 | saving the running thread is exactly the Save step of the transition system |
| SchedulerMachine.Kernel.LoadPicked | src/proc/sched.c:130-195 | loading the picked thread, after a save or from idle, is exactly the Load step |
| SchedulerMachine.Kernel.KeepOrIdle | src/proc/sched.c:146-209 | a pass that does not switch is exactly the Decide step: a booting core idles, any other stays as it is |
| SchedulerMachine.Kernel.SchedRunner | src/proc/sched.c:156-219 | an uninterrupted call is exactly that sequence of steps of the transition system and comes to that outcome, or does nothing if the lock is taken, and keeps the invariant |
| SchedulerMachine.Kernel.ThreadExit | src/proc/sched.c:277-289 | the exit step, or nothing |
| SchedulerMachine.Kernel.ThreadSleep | src/proc/sched.c:291-303 | the sleep step, or nothing |
| SchedulerMachine.Kernel.RunThreads | src/proc/sched.c:239-267 | the threads join the run list in order, all stopped as asserted, and the invariant stays |
| V86.PushPop | src/proc/v86.c:95-123 | a pop of the same width undoes a push, also when the stack pointer wraps |
| V86.WidthsMustMatch | src/proc/v86.c:95-123 | only the same width brings the stack pointer back |
| V86.ReloadIf | src/proc/v86.c:155-174 | the flags word pushed gives the virtual interrupt flag back on either width |
| V86.DecodeEnds | src/proc/v86.c:141-153 | the prefix loop ends within n fetches exactly when an opcode lies within n bytes, counted round the segment |
| V86.PrefixLoopEnds | src/proc/v86.c:125-153 | it ends within 65536 fetches if the segment holds any byte other than 0x66 and 0x67, and otherwise never |
| V86.PrefixesOnlyExample | src/proc/v86.c:125-153 | a segment filled with 0x66 in which it never ends |
| V86Runs.IntBuildsFrame | src/proc/v86.c:192-207 | INT adds exactly one frame of flags, cs and eip, and disturbs no open frame |
| V86Runs.IretReadsFrame | src/proc/v86.c:211-219 | IRET reloads the registers a frame was built from |
| V86Runs.StepKeepsInv | src/proc/v86.c:132-242 | every event of a well-bracketed run keeps all open frames in guest memory |
| V86Runs.RunKeepsFloor | src/proc/v86.c:132-242 | so does every run, and frames below its floor stay the same |
| V86Runs.InterruptUndone | src/proc/v86.c:176-219 | from INT to its IRET, through any nesting and stack wrap that fits 64 KiB, eip, 16-bit cs, stack pointer, interrupt flag and the low flags come back |
| V86Runs.PlainHandlerCloses | src/proc/v86.c:176-219 | an INT whose handler starts with IRET is a run that theorem covers |
| V86Runs.PlainHandlerExists | src/proc/v86.c:176-219 | a concrete guest that does so: INT 0x21 at 07C0:0000 with vector bytes 00 80 00 00 goes to 0000:8000 |
| V86Runs.PushfUndone | src/proc/v86.c:155-174 | from PUSHF to its POPF the stack pointer, flags and interrupt flag come back |
| V86Faults.ImageBits | src/proc/v86.c:158-163 | every bit of the flags word a guest sees is its own, except that bits 1 and 17 are set and bit 9 is the virtual interrupt flag |
| V86Faults.DecodeReads | src/proc/v86.c:141-153 | the opcode is the first byte, counted round the segment, that is neither 0x66 nor 0x67; the operand is wide exactly if a 0x66 came before it; nothing but eip has moved, and that to the byte behind |
| V86Faults.FlagFault | src/proc/v86.c:221-234 | opcode 0xFA clears and 0xFB sets the virtual interrupt flag and nothing else changes; the monitor panics exactly on opcodes other than its six |
| V86Faults.PushfFault | src/proc/v86.c:155-166 | opcode 0x9C stores that word, byte by byte, in the two or four bytes below the stack pointer; no other byte and no flag changes |
| V86Faults.PopfFault | src/proc/v86.c:168-174 | opcode 0x9D loads the flags from the two or four bytes at the stack pointer and the virtual interrupt flag from their bit 9 |
| V86Faults.IretFault | src/proc/v86.c:211-219 | opcode 0xCF loads eip, cs and flags from eight bytes in that order from the stack pointer up, and the virtual interrupt flag from bit 9 of the flags |
| V86Faults.ExitFault | src/proc/v86.c:181-190 | INT 3 leaves for the exit stub with kernel segments, kernel stack and flags 0x202 and hands the guest's stack pointer on; guest memory stays |
| V86Faults.IntFault | src/proc/v86.c:192-207 | any other INT n goes to the offset in the first and the segment in the last two bytes of the vector at 4n, which is the guest's own unless the frame runs over it; memory outside the frame, the other registers and the virtual interrupt flag stay |
| V86Machine.Monitor.PushValue | src/proc/v86.c:95-107 | the specified push, in place |
| V86Machine.Monitor.PopValue | src/proc/v86.c:109-123 | the specified pop, in place |
| V86Machine.Monitor.GetIpByte | src/proc/v86.c:125-130 | reads a byte and moves only the low half of eip |
| V86Machine.Monitor.Handle | src/proc/v86.c:132-242 | the loop ends and one fault does exactly what is specified for the instruction found, or panics |
| Madt.WalkEnds | src/sys/apic.c:32-75 | the loop ends exactly when it meets no entry of length zero |
| Madt.ZeroEntryExample | src/sys/apic.c:32-75 | over zeros it never ends |
| Madt.WalkVisits | src/sys/apic.c:32-75 | over the bytes of any list of entries it visits exactly their starts |
| Madt.WalkInverts | src/sys/apic.c:32-75 | it collects the payloads of each supported kind in order and keeps the last override, else the header's address |
| Madt.EncodeInjective | src/sys/apic.c:32-34 | no two lists of entries have the same bytes |
| Madt.Le32Bytes | src/sys/apic.c:20-34 | the four bytes of a word lie in memory lowest first |
| Madt.OverrideReads | src/sys/apic.c:64-68 | an override gives, byte for byte, the low four of the bytes of its 64-bit address |
| Madt.Apic.ParseMadt | src/sys/apic.c:14-75 | the loop computes the specified walk from the header's length and address; without a table nothing changes |
| Strings.NumeralEvaluates | src/klibc/string.c:65-86 | a printed number evaluates to itself in any base from 2 to 36 and has no leading zero |
| Strings.NumeralUnique | src/klibc/string.c:65-86 | it is the only digit string without leading zeros that does |
| Strings.WordFits | src/klibc/string.c:65-86 | 32 digits suffice for any word in any base |
| Strings.Reverse | src/klibc/string.c:43-63 | the text is reversed in place, its terminator and what follows stay |
| Strings.Vtoa | src/klibc/string.c:65-86 | writes the unsigned value's numeral in the base, with no sign |
| Strings.Itoa | src/klibc/string.c:88-90 | a negative number is printed as its unsigned word |
| Strings.MinusOneExample | src/klibc/string.c:65-90 | -1 is printed as 4294967295 |
| Strings.Utoa | src/klibc/string.c:92-106 | writes the same decimal numeral as _vtoa |
| Strings.Atou | src/klibc/string.c:108-116 | folds any text in 32-bit arithmetic |
| Strings.ParsedEvaluates | src/klibc/string.c:108-116 | on decimal digits that is the value modulo 2^32 |
| Strings.PrintThenParse | src/klibc/string.c:92-116 | atou after utoa is the identity on words |

## Left out

- Hardware: port I/O, serial, PIT programming, VESA, screen, GDT/IDT/TSS loading, CPUID, MSR and IOAPIC access.
- Boot code, the SMP trampoline and paging enable; the paging model starts once paging is on.
- `vmm_free_cr3`: its inner index is not reset per table and it logs through code that moves the windows.
- TLB and `invlpg`, weak memory ordering, and concurrent calls of the paging, frame or heap code.
- The contents of data pages; frames that are not directories or tables carry no meaning in the paging model.
- Heap.Heap.Alloc: the eleven request sizes whose padding wraps 32 bits, and expansions that pass their assertion by a wrap, end as `Escape`, because the source then corrupts its own chunks.
- Heap.EndWordChanges: the word at endAddr + 4, and the last block's word at endAddr, are plain memory in the model; they lie on a page that the heap has not mapped, so the source faults there unless something else mapped it.
- Heap.Heap.Grow: does not model failure of the frame allocator or of the mapping call inside `expand`; both are taken to succeed.
- Heap.Heap.Free: a pointer into the heap must be one that was handed out, since the source reads whatever lies before it; a block that touches endAddr, and a block from `palignedAlloc` whose previous-in-use bit is clear, end as `Escape`, because the source then works on a header beyond the heap or on a stale foot; `contract` is not modelled.
- Heap.Heap.PalignedAlloc: ends as `Escape` when the remainder touches endAddr, for the same reason, and when the padded request wraps.
- HeapClient.Run: stops at the first panic or `Escape`.
- Memory is addressed by 4-aligned words in the list and heap models; a client's byte stores are not modelled, and an unaligned word store is ignored.
- Pmm.EntryInBitmap: entries that reach the last eight pages, for which the source writes past its bitmap, are excluded; those at 4 GiB and above are too.
- Pmm.EntryBoundedExactly: entries that start inside the last page of memory or reach above 4 GiB are excluded.
- Pmm.FrameAllocator.AllocFrom: a range that runs past the bitmap, where the source reads beyond its array, is excluded.
- Pmm.FrameAllocator.MemorySetup: the same.
- AddressSpaces.RunOk: ranges must avoid the pages of the windows, of the first table and of the kernel directory; unmapping those would leave the source unable to reach its own tables.
- Scheduler.StepKeepsInv: exit and sleep are one atomic step each, although the source takes no lock for them; page faults, panics and nested interrupts are not steps.
- SchedulerRuns.LockHolderNotRescheduled: waiting in `spinlock_lock`, its retry count and `deadlock_handler` are not modelled; taking the lock is one step that is enabled when it is free.
- SchedulerMachine.Kernel.RunThreads: the wait for the lock and the process list are left out.
- `remove_terminated_threads` and `remove_terminated_processes` (never called), fairness between threads, and the register frame's contents, which is a name in the scheduler model.
- V86Machine.Monitor.Handle: `v86_enter`, `v86_exit` and the call queue around the monitor are not modelled, and logging is dropped; guest memory ends where the last segment does.
- Madt.Apic.ParseMadt: the mapping calls and the allocation of list nodes are left out; the table is taken to lie whole in memory with a header length of at least 44, below which the source's subtraction wraps.
- Strings.Vtoa: bases outside 2 to 36 are excluded; for those the source writes a terminator and goes on all the same.
- `_vprintf`, ELF loading, the ACPI table search, stack traces and processes' own bookkeeping: linear scans or plumbing.
