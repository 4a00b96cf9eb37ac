# Proofs about a small AArch64 runtime

The repository holds a small C library (threads, a futex mutex, a buddy allocator, string and number
routines), a dynamic linker that maps and relocates ELF shared libraries, a bare-metal program that
builds four-level page tables, and a kernel-style intrusive list. This project models their state and
their loops in Dafny and proves what each is meant to guarantee, over every input, every interleaving
or every run.

- **Threads.** `ExclusiveCas` is the load-exclusive/store-exclusive loop instruction by instruction; it
  refines an atomic compare-and-swap and can do all that it can. `Mutex` is the futex mutex as a transition system over any number
  of threads, each running an arbitrary program of lock and unlock calls; `MutexProgress` bounds every
  schedule by a number computed from its start; `MutexProcess` performs the same steps in place on the
  two fields of the mutex. `Join` is the create/join handshake.
- **Allocator.** `BuddyHeap` is what each function of mini_libc/src/malloc.c (repeated in the linker's
  dl_runtime.c) does to headers and free lists, `BuddyAllocator` the same changes in place. `BuddyPool`
  says what the heap means: a pool tiled by free and live blocks. `BuddyRuns` ties headers to pool and
  `BuddyProcess` adds the callers. `BuddyLifo` draws the conclusions for whole runs that free youngest
  first, where the pool is a function of the live requests alone and every free block is a right half
  whose left half starts with a live allocation. `BuddyAnyOrder`, `BuddyFrees` and `BuddyScattered` do it
  for frees in any order: the lists, one free, whole runs. `BuddyAliasing` is the run in which this goes
  wrong, and `BuddyClient` calls the allocator object.
- **Loader.** `ElfImage` covers sizing, mapping and address translation, `SymbolSearch` the search for a
  name along the list of loaded libraries, `Relocation` what is done for one table entry and what it
  reads, `RelaBytes` the same in the bytes of the entry, `LinkSteps` sequences of such steps over any
  tables, `Linker` the loops in place. `GotPass` is the
  comparison with the AArch64 ELF ABI and the second pass over the PLT table, `ExecutableSlots` the
  executable's jump slots. `Stores` is byte memory and sequences of stores.
- **Page tables.** `PageTable` builds the tables in word memory and walks them as the hardware does.
- **Loops.** `ByteLoops` (memcpy, memset), `NumberPrinters` and `Ring` (the list and its observers).

Where the code departs from its intent, the code is modelled and the exact condition is proved:

- a free breaks the pool exactly when its swap is reached (`ReleaseExactly`, `FreeExactly`); in the
  start-up pool two small allocations freed oldest first are enough (`OldestFirstAliases`);
- a granted payload is too small exactly when the size wraps (`PayloadLargeEnough`);
- a library whose first load is not page-aligned is mapped from the wrong file bytes (`ImageIndexRight`,
  `UnalignedImageWrong`), and one whose first vaddr is not 0 gets wrong RELATIVE values
  (`RelativeIsAbi`);
- an entry that lies, or whose target lies, more than 2 MiB from the load base is skipped
  (`BeyondWindowSkipped`, and the conditions of `RelativeIsAbi`, `SymbolIsAbi` and `JumpSlotIsAbi`);
- a library being relocated stands first on the list that is searched, and an undefined entry counts as
  found, so a library is never bound to another one: every symbol it imports gets an address of its own,
  as a rule its load base (`OtherLibrariesIrrelevant`, `SymbolIsAbi`, `JumpSlotIsAbi`, `ImportedSlot`);
- the second pass over the PLT table, which its comment calls a safeguard against omissions, fills the
  slots that the first one skipped (`BeyondWindowFilled`) and changes nothing in the others unless a name
  is repeated (`SecondPassNeutral`, `SecondPassRedundant`);
- a slot of the executable is bound to its definition exactly when its entry is among the first 28, the
  symbol index and the name offset are in bounds, the slot is in a load, and no library loaded after the
  defining one mentions the name (`SlotBound`, `LastOf29Unbound`); the addend is left out (`SlotIsAbi`);
- the printers fail at the least value, on negative values and in bases 2 and 3 (`PrintedRoundTrip`,
  `MiniSigned`, `ScratchSuffices`).

## Model

| member | source | states |
|---|---|---|
| `ExclusiveCas.StepRefines` | mini_libc/src/lock.c:25-49 | every instruction of the retry loop, and every lost monitor, is either one atomic operation (success at the store, failure at the load) or invisible |
| `ExclusiveCas.RunRefines` | mini_libc/src/lock.c:25-69 | every interleaving of the instruction sequences with other exclusives and release stores is an interleaving of atomic operations with the same word and the same results |
| `ExclusiveCas.EveryScheduleRealised` | mini_libc/src/lock.c:25-69 | every schedule of atomic swaps and stores is what some run of the instructions does, with the same word and results: three instructions for a swap that succeeds, two for one that fails |
| `Mutex.StepKeepsInv` | mini_libc/src/lock.c:160-249 | every step of every thread and of the kernel keeps mutual exclusion, the exact lock word, the exact owner, sequential replies and the pending wake-up |
| `Mutex.Reachable` | mini_libc/src/lock.c:127-249 | that invariant holds in every state of every run from an initialised mutex, early and interrupted wake-ups included |
| `Mutex.Safety` | mini_libc/src/lock.c:172-183 | at most one thread is between its swap and its releasing store, the lock word is 1 exactly then, and a thread reading `owner` finds its own id exactly if it holds the mutex |
| `Mutex.WakeUpPending` | mini_libc/src/lock.c:177-210 | when the word is 0 and a thread sleeps on it, some thread is about to issue its wake or is awake in the lock loop |
| `Mutex.RepliesAreSequential` | mini_libc/src/lock.c:230-248 | whatever the interleaving, each call returns what it would return to a thread that had the mutex to itself: re-entry and non-owner unlock fail, everything else succeeds |
| `Mutex.AttemptsBeforeSleeping` | mini_libc/src/lock.c:177-193 | a thread with a budget of n makes n + 1 attempts to swap before FUTEX_WAIT |
| `Mutex.SpinBudget` | mini_libc/src/lock.c:163-209 | the budget is 100 on entry, on EAGAIN and after a wake-up, and none is left after EINTR, so that one more failed attempt waits again |
| `MutexProgress.StepLowersRank` | mini_libc/src/lock.c:160-249 | when waits end only by a wake or EAGAIN, every step lowers one number: releases to come, the free lock, wakes pending, steps left |
| `MutexProgress.EveryScheduleIsFinite` | mini_libc/src/lock.c:160-249 | such a run has at most as many steps as the rank of its first state; no fairness is assumed |
| `MutexProgress.WhereSchedulesStop` | mini_libc/src/lock.c:160-249 | a run can stop only when all programs are done, or when a program whose last call is a lock has ended holding the mutex and everyone left sleeps |
| `MutexProgress.BalancedProgramsComplete` | mini_libc/src/lock.c:160-249 | if no program ends with a lock, every maximal run completes all programs with the sequential replies and leaves word and owner 0 |
| `MutexProcess.Process.StepLock` | mini_libc/src/lock.c:172-209 | the in-place accesses of pthread_mutex_lock are exactly the transitions of the state machine |
| `MutexProcess.Process.StepUnlock` | mini_libc/src/lock.c:231-238 | the in-place accesses of pthread_mutex_unlock are exactly the transitions of the state machine |
| `MutexProcess.Process.FutexWake` | mini_libc/src/lock.c:241-248 | the wake-up wakes one sleeper of the kernel's choice, or nobody if nobody sleeps, and the call returns 0 |
| `MutexProcess.Process.RunToEnd` | mini_libc/src/lock.c:160-249 | any scheduler over the mutex object stops within the rank, in a state in which no thread can move |
| `Join.JoinIsCorrect` | mini_libc/src/pthread.c:66-164 | at every point of every run pthread_join has returned only after its thread's routine and with exactly its value, and nobody sleeps once the wake is issued, early wake-ups included |
| `Join.EveryScheduleIsFinite` | mini_libc/src/pthread.c:66-164 | without early wake-ups every schedule of any number of pairs has a bounded number of steps |
| `Join.StopsOnlyWhenJoined` | mini_libc/src/pthread.c:145-164 | a run that can take no step has joined every thread with its own value |
| `Join.Block.StepChild` | mini_libc/src/pthread.c:66-112 | the in-place accesses of pthread_create and pthread_start are the child's transitions |
| `Join.Block.StepJoiner` | mini_libc/src/pthread.c:145-164 | the in-place accesses of pthread_join are the joiner's transitions |
| `Join.RunToEnd` | mini_libc/src/pthread.c:66-164 | any scheduler over any number of thread blocks, changed in place, stops within the bound with every thread joined and its value handed over |
| `BuddyHeap.GetOrderLeast` | mini_libc/src/malloc.c:47-59 | get_order is the least order whose block holds the size, or MAX_ORDER |
| `BuddyHeap.TooLargeForAnyOrder` | mini_libc/src/malloc.c:47-59 | get_order is 32, for which there is no list, exactly for sizes above 128 GiB |
| `BuddyPool.GrantOk` | mini_libc/src/malloc.c:159-195 | granting a request from a tiled pool of right halves leaves a tiled pool of right halves, each free block listed once |
| `BuddyPool.ReplayOk` | mini_libc/src/malloc.c:351-414 | whatever requests are live, the blocks tile the pool without gap or overlap and the free lists hold each free block of their order once |
| `BuddyPool.PayloadLargeEnough` | mini_libc/src/malloc.c:361-413 | a granted payload is as large as requested exactly when size + sizeof(block_t) does not wrap in 64 bits |
| `BuddyPool.PayloadsDisjoint` | mini_libc/src/malloc.c:351-414 | payloads of live allocations are inside the pool and do not overlap |
| `BuddyRuns.SplitsTo` | mini_libc/src/malloc.c:159-195 | split_block carves the block into its left edge and one free right half per order, and writes nowhere outside it |
| `BuddyRuns.MallocGrants` | mini_libc/src/malloc.c:351-414 | malloc succeeds exactly when a large enough free block exists, the heap then stands for the pool with the request granted, and a refusal changes nothing |
| `BuddyRuns.MergeStops` | mini_libc/src/malloc.c:203-211 | back at the order it was carved from, the block has no buddy it could merge with, although its buddy field may be stale |
| `BuddyRuns.MergesBack` | mini_libc/src/malloc.c:201-266 | merge_blocks reassembles the carved block, takes only straight merges and restores the lists in their order |
| `BuddyRuns.FreeUndoes` | mini_libc/src/malloc.c:201-266 | freeing the youngest allocation takes the heap back to the pool before that request, without swap or invalid buddy |
| `BuddyLifo.RunHolds` | mini_libc/src/malloc.c:351-429 | in every state of every run that frees youngest first, whatever callers write into their payloads, the heap stands for the tiled pool of exactly the live requests |
| `BuddyLifo.FreeingAllRestoresThePool` | mini_libc/src/malloc.c:201-266 | once everything is freed there is one free block of the original order with its original header, and every other list is empty |
| `BuddyLifo.NeverSwaps` | mini_libc/src/malloc.c:219-232 | the swap and the invalid-buddy branch are never reached in such a run |
| `BuddyLifo.RequestsAreServed` | mini_libc/src/malloc.c:361-413 | a request is refused only when no free block is large enough; a granted payload's header size is at least the request exactly when the sum does not wrap |
| `BuddyLifo.LivePayloadsApart` | mini_libc/src/malloc.c:351-429 | live payloads, as their headers delimit them, stay inside the pool and never overlap, in every state of every run |
| `BuddyLifo.PayloadsKept` | mini_libc/src/malloc.c:351-429 | malloc and free leave every payload that stays live as its owner wrote it |
| `BuddyProcess.InitialPool` | mini_libc/src/malloc.c:66-100 | the start-up pool of 1 MiB is one free block of order 14 |
| `BuddyProcess.SmallestPool` | mini_libc/src/malloc.c:68-97 | a pool asked for with fewer than 64 bytes is one block of 64 |
| `BuddyProcess.FirstRequest` | mini_libc/src/malloc.c:351-414 | the first pointer is 32 bytes into the pool; up to 32 bytes take a block of 64, up to 96 a block of 128 |
| `BuddyAnyOrder.FreeKeepsListsSound` | mini_libc/src/malloc.c:201-266 | freeing any block that is on no list, on any heap with sound lists, keeps them sound exactly when its recorded buddy is not a listed free block of its order to the left |
| `BuddyAnyOrder.NoSwapKeepsSorted` | mini_libc/src/malloc.c:201-266 | without such a swap, merging keeps every list a finite chain of blocks of its order, lists the merged block and keeps all blocks to its left |
| `BuddyAnyOrder.SwapBreaksLists` | mini_libc/src/malloc.c:219-246 | after the swap no assignment of chains to the list heads is sound: a widened block stays on its old list, or a list becomes a cycle |
| `BuddyFrees.MergesAnyOrder` | mini_libc/src/malloc.c:201-266 | whatever is live, merge_blocks joins a freed block with its free right neighbours, order by order until one is missing, puts the result in front of its list, leaves the other free blocks listed and the pool tiled, and writes only headers of free blocks |
| `BuddyFrees.FreeAny` | mini_libc/src/malloc.c:419-429 | freeing any live allocation without reaching the swap does that to its block, with exactly the other allocations live |
| `BuddyFrees.FreeNull` | mini_libc/src/malloc.c:421-424 | free(NULL) changes nothing |
| `BuddyFrees.SwapBreaksTiling` | mini_libc/src/malloc.c:219-246 | after the swap the heap stands for no tiled pool with the other allocations live |
| `BuddyFrees.FreeExactly` | mini_libc/src/malloc.c:201-266 | a free leaves a tiled pool with the others live exactly when the recorded buddy's header does not read as a free block of its order to the left |
| `BuddyScattered.RunHolds` | mini_libc/src/malloc.c:351-429 | in every run with releases in any order, up to the first swap the heap stands for a tiled pool with exactly the process's allocations live |
| `BuddyScattered.ReleaseExactly` | mini_libc/src/malloc.c:201-266 | a release keeps that invariant exactly when it does not reach the swap |
| `BuddyScattered.ReleaseJoins` | mini_libc/src/malloc.c:201-266 | a release without swap joins the block with its whole row of free right neighbours, none exactly when merge_blocks finds no buddy, and heads the list of the joined order |
| `BuddyScattered.ReleasesJoin` | mini_libc/src/malloc.c:201-266 | so it is for every release of every run, up to the first swap |
| `BuddyScattered.FirstSwapEndsIt` | mini_libc/src/malloc.c:219-246 | in every run the first swap is exactly where the invariant ends |
| `BuddyScattered.LivePayloadsApart` | mini_libc/src/malloc.c:351-429 | up to the first swap live payloads stay inside the pool and never overlap, in whatever order they are released |
| `BuddyScattered.PayloadsKept` | mini_libc/src/malloc.c:351-429 | up to the first swap malloc and free leave every payload that stays live as its owner wrote it |
| `BuddyAliasing.Climb` | mini_libc/src/malloc.c:201-266 | the merges that follow the swap climb to the whole pool and leave list 0 as it was |
| `BuddyAliasing.OldestFirstAliases` | mini_libc/src/malloc.c:219-246 | in a pool of any order from 1 on, two allocations of at most 32 bytes, freed oldest first: the next two such requests get the same pointer |
| `BuddyAliasing.StartUpPoolAliases` | mini_libc/src/malloc.c:328-335 | the same run in the 1 MiB pool the program starts with |
| `BuddyAllocator.Allocator.constructor` | mini_libc/src/malloc.c:66-100 | buddy_init leaves one block on the list of its order and every other list empty |
| `BuddyAllocator.Allocator.OrderFor` | mini_libc/src/malloc.c:47-59 | the doubling loop computes the least order of `GetOrderLeast` |
| `BuddyAllocator.Allocator.Split` | mini_libc/src/malloc.c:159-195 | the in-place split is the split whose result `SplitsTo` describes |
| `BuddyAllocator.Allocator.TakeOff` | mini_libc/src/malloc.c:234-243 | the list walk removes the block from its list, if it is there, and terminates because every list is finite before and after |
| `BuddyAllocator.Allocator.Absorb` | mini_libc/src/malloc.c:234-260 | one merge widens the left block over the right one and records its right neighbour as buddy |
| `BuddyAllocator.Allocator.Merge` | mini_libc/src/malloc.c:201-266 | the in-place merge loop is the merge of `MergesBack` and `FreeKeepsListsSound` |
| `BuddyAllocator.Allocator.Malloc` | mini_libc/src/malloc.c:351-414 | the in-place search and split is the malloc of `MallocGrants` |
| `BuddyAllocator.Allocator.Free` | mini_libc/src/malloc.c:419-429 | the in-place free is the free of `FreeUndoes` and `FreeKeepsListsSound` |
| `BuddyClient.ListsAreFinite` | mini_libc/src/malloc.c:235-239 | in every heap that stands for a pool the list walk of merge_blocks ends |
| `BuddyClient.MallocThenFree` | mini_libc/src/malloc.c:351-429 | malloc then free on the allocator object leaves it standing for the same pool, and succeeds exactly when there is room |
| `BuddyClient.Nest` | mini_libc/src/malloc.c:351-429 | any nest of allocations freed youngest first restores the pool |
| `ElfImage.CalculateAddressFromVaddr` | dynamic_linker/src/dynamic_linker.c:294-338 | the address of a vaddr is base plus its distance from the first load exactly when some load contains it, else 0 |
| `ElfImage.CalculateSymbolAddress` | dynamic_linker/src/dynamic_linker.c:255-283 | the symbol translator computes the same translation as the vaddr translator |
| `ElfImage.TranslateByHeaders` | dynamic_linker/src/dynamic_linker.c:302-338 | when no load wraps around, an address is translated exactly if a header of type 1 spans it; past or below every load it is not |
| `ElfImage.HeaderTypes` | dynamic_linker/src/dynamic_linker.c:578-596 | the first header of type 1 gives the first vaddr, the first of type 2 is the dynamic segment |
| `ElfImage.FindFirstVaddr` | dynamic_linker/src/dynamic_linker.c:949-957 | the vaddr of the first load, 0 if there is none |
| `ElfImage.DynamicAddress` | dynamic_linker/src/dynamic_linker.c:578-662 | the three ways in which bootstrap_self finds the dynamic segment agree, with wrap-around |
| `ElfImage.Loader.LastEnd` | dynamic_linker/src/dynamic_linker.c:959-973 | the running maximum is the end of the load that ends last, in 64-bit arithmetic |
| `ElfImage.Loader.ReservationSize` | dynamic_linker/src/dynamic_linker.c:959-976 | the reservation is the span from the first vaddr to the last end, rounded up to whole pages, in 64-bit arithmetic |
| `ElfImage.ReservationExact` | dynamic_linker/src/dynamic_linker.c:959-976 | without wrap-around that is the page-rounded span of the loads |
| `ElfImage.Loader.MapSegments` | dynamic_linker/src/dynamic_linker.c:991-1024 | the mapping loop overlays each load's page range in order, and fails exactly when a range is empty |
| `ElfImage.MappingHull` | dynamic_linker/src/dynamic_linker.c:995-1004 | without wrap-around a fixed mapping is the page hull of its segment |
| `ElfImage.MappingInNumbers` | dynamic_linker/src/dynamic_linker.c:995-1004 | one segment's mapping in numbers, with pages of 4096 bytes |
| `ElfImage.MappingInside` | dynamic_linker/src/dynamic_linker.c:959-1014 | a fixed mapping lies inside the reservation if its segment does not start below the first load, and, unless it is empty, only then |
| `ElfImage.AllMappingsInside` | dynamic_linker/src/dynamic_linker.c:959-1014 | all fixed mappings lie inside the reservation if the first load has the least vaddr, and, if none is empty, only then |
| `ElfImage.ImageByte` | dynamic_linker/src/dynamic_linker.c:991-1024 | what the loop leaves at the translated address of any byte of any segment: a file byte, zero up to the file's last page, or no page |
| `ElfImage.ImageIndexRight` | dynamic_linker/src/dynamic_linker.c:1000-1002 | that file byte is the one the program header asks for exactly when the first vaddr is page-aligned |
| `ElfImage.ImageCorrect` | dynamic_linker/src/dynamic_linker.c:991-1024 | for ascending page-disjoint congruent loads with a page-aligned first vaddr, the byte at the translated address of a file-backed vaddr is the file byte at p_offset plus its segment offset |
| `ElfImage.UnalignedImageWrong` | dynamic_linker/src/dynamic_linker.c:1000-1002 | a concrete header with an unaligned first load whose byte is mapped from another file byte than the one at p_offset |
| `ElfImage.OutsideUntouched` | dynamic_linker/src/dynamic_linker.c:991-1024 | the mapping loop changes nothing outside the pages of the segments |
| `SymbolSearch.StrNCmp` | dynamic_linker/src/dl_runtime.c:233-247 | strncmp returns 0 exactly if the bytes agree up to a common terminator or for n bytes, and otherwise the difference of the first bytes that differ |
| `SymbolSearch.SameStringIsName` | dynamic_linker/src/dl_runtime.c:233-247 | strings agree in that sense exactly when their names, cut off after n bytes, are equal |
| `SymbolSearch.FindSymbol` | dynamic_linker/src/dynamic_linker.c:189-204 | find_symbol stops at the first entry of 24 bytes that has a name and agrees with the sought one for 256 bytes, defined or not |
| `SymbolSearch.ResolveSymbolGlobal` | dynamic_linker/src/dynamic_linker.c:216-244 | the search along the list gives the address of the first entry of the first library that mentions the name |
| `SymbolSearch.ResolvedEntry` | dynamic_linker/src/dynamic_linker.c:216-244 | in the bytes of the tables: the first entry so named of the first library that has one answers, with the value at its byte 8 |
| `SymbolSearch.FirstMentionAnswers` | dynamic_linker/src/dynamic_linker.c:216-244 | the first library that mentions the name answers, whatever later ones define; nobody's name resolves to 0 |
| `SymbolSearch.OwnTableAnswers` | dynamic_linker/src/dynamic_linker.c:1112-1113 | a library at the head of the list answers for every name of its own table, with the first entry of that name |
| `SymbolSearch.SameSearch` | dynamic_linker/src/dynamic_linker.c:189-244 | the answer depends only on the entries up to the one found and on their names |
| `Linker.Image.ProcessRelocation` | dynamic_linker/src/dynamic_linker.c:352-527 | one relocation performs exactly the store its type, target, window checks and symbol search call for, or none |
| `Linker.Image.ResolveSlot` | dynamic_linker/src/dynamic_linker.c:465-515 | a slot gets its own symbol's address, else the answer of the search along the list of libraries, else the load base |
| `RelaBytes.RelativeStored` | dynamic_linker/src/dynamic_linker.c:428-432 | type 1027 stores the load base plus the word at t + 16 at the place of the word at t, and changes nothing else |
| `RelaBytes.DataStored` | dynamic_linker/src/dynamic_linker.c:434-463 | types 257 and 1025 store the place of the symbol's word at byte 8 plus the addend |
| `RelaBytes.SlotStored` | dynamic_linker/src/dynamic_linker.c:465-506 | type 1026 with a name and a value stores the place of the symbol plus the addend |
| `RelaBytes.ImportedSlotStored` | dynamic_linker/src/dynamic_linker.c:493-506 | type 1026 of a listed library with a name but no value stores the place of the first entry of that name in its own table plus the addend |
| `RelaBytes.NamelessSlotStored` | dynamic_linker/src/dynamic_linker.c:465-515 | type 1026 without symbol entry, string table or name stores the load base plus the addend |
| `RelaBytes.UnknownTypeStored` | dynamic_linker/src/dynamic_linker.c:521-525 | any other type but 0 is treated as RELATIVE |
| `RelaBytes.NothingStored` | dynamic_linker/src/dynamic_linker.c:357-424 | type 0, an entry or target more than 0x200000 above the base, or a data relocation without symbol entry changes nothing |
| `RelaBytes.RefillStored` | dynamic_linker/src/dynamic_linker.c:1208-1225 | one round of the second pass stores the symbol's place plus the addend, near or far |
| `RelaBytes.NothingRefilled` | dynamic_linker/src/dynamic_linker.c:1208-1225 | without symbol entry, string table or load at r_offset it changes nothing |
| `RelaBytes.BindStored` | dynamic_linker/src/dynamic_linker.c:1477-1515 | one round of the executable's loop stores the place of the first symbol on the list with the entry's name |
| `Stores.TwoHalves` | dynamic_linker/src/dynamic_linker.c:369-370 | the low half of r_info, the type, comes first in memory and the upper half, the symbol index, second |
| `RelaBytes.NothingBound` | dynamic_linker/src/dynamic_linker.c:1489-1512 | an entry of another type or out of bounds, a slot in no load, or a name that no library has changes nothing |
| `Stores.LittleEndian` | dynamic_linker/src/dynamic_linker.c:431 | a stored word is read back least significant byte first |
| `Linker.Image.ProcessTable` | dynamic_linker/src/dynamic_linker.c:1149-1161 | the table loop applies the entries in order up to the first one outside the library |
| `Linker.Image.FillEntry` | dynamic_linker/src/dynamic_linker.c:1208-1225 | one round of the second pass stores the library's own symbol address plus addend when it can |
| `Linker.Image.FillGotEntries` | dynamic_linker/src/dynamic_linker.c:1207-1225 | the second pass treats every entry, without the range check and the window of the first |
| `Linker.Image.RelocateLibrary` | dynamic_linker/src/dynamic_linker.c:1148-1225 | the relocation stages are the two tables, each up to its first entry outside the library, then the second pass over the whole PLT table |
| `LinkSteps.RunIsDoAll` | dynamic_linker/src/dynamic_linker.c:1149-1225 | when no target overlaps what any step reads, the steps of all tables perform the stores that their entries ask for at first |
| `LinkSteps.OrderAndRepetitionIrrelevant` | dynamic_linker/src/dynamic_linker.c:1149-1204 | the memory at the end depends only on which entries of both tables are applied, not on their order or how often |
| `LinkSteps.Idempotent` | dynamic_linker/src/dynamic_linker.c:1149-1204 | applying both tables twice is applying them once |
| `LinkSteps.TargetsAndNothingElse` | dynamic_linker/src/dynamic_linker.c:352-527 | every target of every table ends with the value of its entry and no other byte changes |
| `GotPass.LibraryRelocated` | dynamic_linker/src/dynamic_linker.c:1148-1225 | after both tables and the second pass every .rela.dyn target holds its value, every slot its own symbol's address plus addend, and no other byte has changed |
| `GotPass.TargetIsPlace` | dynamic_linker/src/dynamic_linker.c:373-410 | whichever branch computes it, the target is r_offset plus the load bias |
| `GotPass.SymbolAddressExact` | dynamic_linker/src/dynamic_linker.c:445-455 | a symbol's address is its value plus the load bias exactly when the first vaddr is 0 or a load contains the value and the sum is not 0 |
| `GotPass.RelativeIsAbi` | dynamic_linker/src/dynamic_linker.c:363-432 | RELATIVE gets its ABI value exactly when entry and target are in the window of 2 MiB from the base and the first vaddr is 0 |
| `GotPass.BeyondWindowSkipped` | dynamic_linker/src/dynamic_linker.c:419-424 | in a concrete 4 MiB library an entry for vaddr 0x300000 is skipped whatever its type |
| `GotPass.SymbolIsAbi` | dynamic_linker/src/dynamic_linker.c:363-463 | ABS64 and GLOB_DAT get S + A, S being where the symbol is defined, exactly when entry and target are in the window, the symbol has a value, and the first vaddr is 0 or a load contains it |
| `GotPass.ImportedDataSymbol` | dynamic_linker/src/dynamic_linker.c:363-463 | an imported ABS64 or GLOB_DAT symbol never gets S + A; it gets the load base plus A exactly when it is accepted, has a symbol entry, and no load contains address 0 unless the first vaddr is 0 |
| `GotPass.SlotFromOwnTable` | dynamic_linker/src/dynamic_linker.c:470-513 | in every call the loader makes, a slot's symbol address comes from the library's own table or is the load base |
| `GotPass.JumpSlotIsAbi` | dynamic_linker/src/dynamic_linker.c:363-515 | a JUMP_SLOT gets S + A exactly when entry and target are in the window, its symbol has a value, and the first vaddr is 0 or a load contains it (without a name: the value is the first vaddr); an imported one never does |
| `GotPass.OtherLibrariesIrrelevant` | dynamic_linker/src/dynamic_linker.c:1112-1225 | relocating a library and filling its slots gives the same memory whatever other libraries are loaded |
| `GotPass.FirstPassSlot` | dynamic_linker/src/dynamic_linker.c:1193-1204 | after the first pass a handled slot holds the address of its own symbol, else of the first entry of its name in the own table, else the load base, plus addend; any other slot what it held |
| `GotPass.SecondPassSlot` | dynamic_linker/src/dynamic_linker.c:1207-1225 | after the second pass every slot, handled by the first or not, holds the library's own symbol address plus addend |
| `GotPass.SecondPassNeutral` | dynamic_linker/src/dynamic_linker.c:1207-1225 | the second pass changes nothing exactly when each handled slot's symbol has a value and a place, or lies where the first entry of its name lies, and each other slot held its own symbol's address already |
| `GotPass.SecondPassRedundant` | dynamic_linker/src/dynamic_linker.c:1207-1225 | for a library without repeated names, all of whose slots the first pass handled, the second pass changes nothing, imported symbols included |
| `GotPass.BeyondWindowFilled` | dynamic_linker/src/dynamic_linker.c:1207-1225 | in the 4 MiB library the slot at vaddr 0x300000 is left by the first pass and filled by the second |
| `GotPass.ImportedSlot` | dynamic_linker/src/dynamic_linker.c:1112-1225 | an imported slot ends with an address of its own library whatever others define: the load base plus addend exactly unless a load contains address 0 while another comes first |
| `Linker.Image.BindSlots` | dynamic_linker/src/dynamic_linker.c:1476-1515 | the executable's loop takes the steps of the first 28 entries, whose result `SlotsFilled` and `SlotBoundInBytes` describe |
| `ExecutableSlots.SlotsFilled` | dynamic_linker/src/dynamic_linker.c:1476-1515 | every slot that the loop reaches holds the answer of the search at the end, and no byte outside those slots has changed |
| `ExecutableSlots.SlotBound` | dynamic_linker/src/dynamic_linker.c:1476-1515 | a slot ends with the address of its definition exactly when it is among the first 28, index and name are in bounds, it is in a load, and no library before the defining one mentions the name |
| `ExecutableSlots.SlotBoundInBytes` | dynamic_linker/src/dynamic_linker.c:1477-1511 | the slot of any of the first 28 entries ends with the place of the first symbol on the list with its name, told in the bytes of the tables |
| `ExecutableSlots.SlotIsAbi` | dynamic_linker/src/dynamic_linker.c:1476-1515 | it ends with S + A exactly when moreover the addend is 0 |
| `ExecutableSlots.LastOf29Unbound` | dynamic_linker/src/dynamic_linker.c:1477 | in a table of 29 entries whose only jump slot is the last, nothing is bound |
| `ExecutableSlots.BoundToDefinition` | dynamic_linker/src/dynamic_linker.c:216-244 | a name is bound to its first definition on the list exactly when no library before that one mentions it |
| `PageTable.OrrDisjoint` | mmu/boot.S:246-299 | or-ing bits below an aligned address adds them |
| `PageTable.Machine.MemZero` | mmu/boot.S:312-321 | memzero clears the range in 8-byte steps and nothing else |
| `PageTable.Machine.ClearTables` | mmu/boot.S:122-137 | all five frames are cleared, nothing outside them changes |
| `PageTable.Machine.FillL3` | mmu/boot.S:292-302 | l3_loop writes 512 descriptors of consecutive pages and nothing else |
| `PageTable.Machine.LinkUpper` | mmu/boot.S:243-258 | level 0 and 1 hold their three table descriptors and zeros |
| `PageTable.Machine.LinkPeripherals` | mmu/boot.S:272-276 | the peripheral level 2 table holds one block descriptor and zeros |
| `PageTable.Machine.LinkDram` | mmu/boot.S:279-282 | the DRAM level 2 table holds one table descriptor and zeros |
| `PageTable.Machine.BuildPageTable` | mmu/boot.S:117-305 | every entry of the five tables is as intended, and no word outside them changes |
| `PageTable.WalkIsIntended` | mmu/boot.S:117-305 | the hardware walk of every 48-bit address is the identity with the intended attributes on 0x09000000-0x091FFFFF and 0x40000000-0x401FFFFF, and a fault at level 0, 1 or 2 elsewhere |
| `ByteLoops.MemCpy` | mini_libc/src/string.c:72-98 | for every overlap and length the destination receives the source's old bytes and nothing else changes |
| `ByteLoops.CopyUp` | mini_libc/src/string.c:78-85 | the upward loop is right when no source byte is overwritten before it is read |
| `ByteLoops.CopyDown` | mini_libc/src/string.c:88-94 | the downward loop is right when the destination starts inside the source |
| `ByteLoops.FillWords` | mini_libc/src/malloc.c:297-313 | the word loop fills the bytes of whole aligned words and leaves fewer than 8 |
| `ByteLoops.RepeatedBytes` | mini_libc/src/malloc.c:297-302 | every byte of the fill word is the fill value |
| `ByteLoops.MemSet` | mini_libc/src/malloc.c:276-323 | for every alignment, length and value memset leaves the memory of a byte-at-a-time fill |
| `NumberPrinters.NumeralRoundTrip` | dynamic_linker/src/dl_runtime.c:31-49 | positional parsing inverts the digits of every value in every base |
| `NumberPrinters.NoLeadingZero` | dynamic_linker/src/dl_runtime.c:31-49 | no numeral but "0" starts with a zero |
| `NumberPrinters.DigitCharacters` | dynamic_linker/src/dl_runtime.c:35-36 | the digits are 0 to 9 and a to f |
| `NumberPrinters.ScratchSuffices` | dynamic_linker/src/dl_runtime.c:31-38 | 32 digits hold every 64-bit value exactly in bases from 4 on |
| `NumberPrinters.DigitsAlwaysFit` | dynamic_linker/src/dl_runtime.c:18-38 | in base 4 and above itoa's digits fit its scratch buffer for every value, the least one included |
| `NumberPrinters.HexLength` | dynamic_linker/src/dl_runtime.c:52-77 | a hexadecimal numeral has at most 16 digits |
| `NumberPrinters.PrintedRoundTrip` | dynamic_linker/src/dl_runtime.c:13-50 | base-10 itoa is inverted by parsing for every int64 but the least |
| `NumberPrinters.NegativePrintsNothing` | dynamic_linker/src/dl_runtime.c:18-49 | itoa prints nothing exactly for negative values in bases other than 10 |
| `NumberPrinters.CollectDigits` | dynamic_linker/src/dl_runtime.c:33-38 | the digit loop leaves the digits in the scratch buffer, least significant first, and stays inside it when they are at most 32 |
| `NumberPrinters.EmitDigits` | dynamic_linker/src/dl_runtime.c:45-49 | the copy loop appends the reversed digits and a NUL and leaves the rest of the buffer |
| `NumberPrinters.Itoa` | dynamic_linker/src/dl_runtime.c:13-50 | itoa leaves the numeral, a NUL and otherwise the old buffer; negative values in other bases print nothing |
| `NumberPrinters.UtoaHex` | dynamic_linker/src/dl_runtime.c:52-77 | utoa_hex leaves the base-16 numeral, a NUL and otherwise the old buffer |
| `NumberPrinters.MiniUnsigned` | mini_libc/src/string.c:16-63 | unsigned printing is inverted by parsing in every radix, and its hexadecimal string is that of utoa_hex |
| `NumberPrinters.MiniSigned` | mini_libc/src/string.c:20-51 | signed printing is inverted by parsing exactly for the non-negative values and the least one |
| `NumberPrinters.ReverseInPlace` | mini_libc/src/string.c:53-59 | the swap loop reverses the first i characters and changes no other |
| `NumberPrinters.MiniItoa` | mini_libc/src/string.c:16-63 | itoa refuses a radix outside 2 to 16 without writing, and otherwise leaves the numeral, a NUL and the rest of the buffer |
| `Ring.InitListHead` | oop_in_c/my_list.h:26-30 | a ring of one node |
| `Ring.InsertBetween` | oop_in_c/my_list.h:32-38 | inserting a new node between neighbours gives a ring with the node at that place |
| `Ring.ListAdd` | oop_in_c/my_list.h:55-58 | the new node comes first after the head |
| `Ring.ListAddTail` | oop_in_c/my_list.h:60-63 | the new node comes last |
| `Ring.ListDel` | oop_in_c/my_list.h:40-53 | the ring is closed around the removed node, if it was not alone, and its own links are cleared |
| `Ring.Server.NotifyAll` | oop_in_c/observe_mode.c:43-53 | the traversal ends and calls exactly the callbacks that are set, in ring order |
| `Ring.NotifiedInOrder` | oop_in_c/observe_mode.c:43-53 | those calls are one for each member with a callback, in ring order, and no other |
| `Ring.Server.AddObserve` | oop_in_c/observe_mode.c:64-67 | the newest observer comes first, the others keep their order |
| `Ring.Server.Find` | oop_in_c/observe_mode.c:80-84 | the search ends at the first member with the id, or at the head |
| `Ring.Server.DelObserve` | oop_in_c/observe_mode.c:78-89 | exactly the first member with the id is removed; without one nothing changes |
| `Ring.DeleteUndoesAdd` | oop_in_c/observe_mode.c:64-89 | removing by its id the observer added last restores the members |

## Left out

- Weak memory ordering: memory is sequentially consistent, and the barriers of lock.c are not modelled.
- `MutexProgress.EveryScheduleIsFinite`: excludes EINTR and spurious wake-ups, with which a wait can be restarted for ever; the safety theorems allow both.
- Futex errors other than EAGAIN and EINTR, null mutex and thread arguments, and the wrap-around of `spin_count` after 2^31 interrupted waits.
- `Join.EveryScheduleIsFinite`: excludes early wake-ups for the same reason; one joiner per thread is assumed.
- Failure of mmap, malloc and clone in pthread_create, thread stacks, and the kernel's clearing of `tid`.
- Pool expansion: mmap for a larger pool is taken to fail, so there is one pool; the expansion code puts the new block on its list twice (mini_libc/src/malloc.c:139-141).
- `BuddyHeap.Free`: a header's order is a natural number below MAX_ORDER, so freeing a pointer that malloc did not return is outside the model.
- The overlap of a header with bytes a caller wrote is modelled at the granularity of whole headers.
- `BuddyLifo.RunHolds`: frees are in reverse order of allocation; `BuddyScattered` drops this, and with it the return to one free block. In both, payload writes stay inside the payload and nothing is freed twice.
- The protection bits of mappings, munmap on failure, and the zeroing of memory beyond p_filesz, which the loader does not do.
- `ElfImage.AllMappingsInside`: the loads and the image end at least a page below 2^64; translation, sizing and relocation arithmetic is modelled with wrap-around.
- Library search paths, DT_* parsing, symbol hashing, the table sizes, the fallbacks for null program headers, the check that a path is loaded already, init functions and the jump to the entry point. A listed library's program headers are those it is relocated with, although the source rereads their number from the mapped ELF header.
- `LinkSteps.OrderAndRepetitionIrrelevant`: is about tables whose targets overlap neither each other nor what the entries read, which for a searched name includes the symbol entries and names the search passes; overlapping tables depend on their order.
- `RelaBytes.RelativeStored`: like its neighbours, is about a library that does not lie at 0 or within 2 MiB of the end of the address space and whose loads do not wrap around.
- `GotPass.SecondPassNeutral`: is about PLT tables of JUMP_SLOT entries that name a symbol entry and whose targets lie in a load, do not overlap and are not read by any entry; an entry of another kind in a PLT table is not covered.
- `GotPass.SymbolIsAbi`: takes a defined symbol to be an ordinary one (not absolute, thread-local or an indirect function) that is bound to the library's own definition (no interposition), and an imported one to be defined outside the library's loads, or to be 0. It is about one entry; that the table loop stops at the first entry outside the library is `Linker.Image.ProcessTable`.
- `GotPass.JumpSlotIsAbi`: assumes that the address of a defined symbol is not 0, and that an imported symbol's first namesake in the own table lies in a load if it has a value.
- `ExecutableSlots.SlotBound`: is about a slot that did not hold its definition's address before, and a definition outside the libraries searched before it; the alignment check of the table is left out.
- MAIR, TCR and SCTLR set-up, the stack accesses of build_page_table, clearing of the BSS and addresses of 2^48 and above.
- `NumberPrinters.Itoa`: requires a base of at most 36, although the source prints characters beyond z above that, digits that fit the 32-byte scratch buffer, as they do in base 4 and above (`ScratchSuffices`), and a result buffer with room for the string.
- `NumberPrinters.CollectDigits`: requires a base of at most 36 for the same reason.
- `NumberPrinters.MiniItoa`: requires a result buffer with room for the string, which the source leaves to its callers.
- The loops of memcpy and memset, of the printers and of build_page_table stand in one method each; the source has them in one function.
- `Ring.Server.NotifyAll`: the callbacks are taken not to change the ring; list_entry is modelled by a field of the node.
- System call stubs, sockets, printf, the logger, the ELF analyser, the factory, polymorphism and section demos, UART output, and the superseded copies of the linker.
