# A verified model of a JOS kernel's memory, environments and user-level fork

This project models the core of the JOS teaching kernel and its user library, and proves what
they are for. `dafny verify dfyconfig.toml` checks all of it.

One kernel state runs through most of the files:

* `PageSpace` is what the physical allocator and the two-level page tables amount to: directories,
  the tables they own, user mappings, 16-bit reference counts, the free list. `Inv` says that every
  count is exact, that the free list holds exactly the unreferenced frames, and that page tables
  are never shared, mapped or writable by users. `Teardown` is env_free at that level.
* `PageWords` says how words of memory represent it: the hardware walk, pgdir_walk and the
  self-map at UVPT. `Pmap.Memory` is kern/pmap.c in place: linked free list, counts, words, cr3
  and the TLB of one processor. `FreeChain` holds the linked-list facts.
* `EnvIds`, `EnvState` and `EnvRuns` are environments and system calls as transitions, which of
  them keep the invariant, and what holds over whole runs; `EnvEffects` says what each does to every
  environment. `KernelCalls.Kernel` is kern/env.c and the memory calls of kern/syscall.c in place,
  proved to make those transitions.
* `Cow` is copy-on-write sharing against private copies. Its events are single system calls and
  stores, and its runs are any interleaving of the events of any number of environments. A page
  that fork has mapped into the child and not yet write-protected in the parent is not visible
  until it is. `CowEvents` and `LibCalls` are the kernel's calls, loads and stores, each with its event.
* `PgfaultLib` runs lib/fork.c's fault handler on that kernel and `ForkLib` its fork, with stores
  of the parent's own code, and the page faults these take, between any two calls: the page of its
  stack becomes copy-on-write like any other, and the next push faults. `ForkSteps` has what fork
  has mapped, counted and allocated at each point, `ForkViews` what each call does to what is seen,
  `ForkState` and `ForkCalls` both together, call by call. `ForkPlan` foresees, from the state before
  fork and the stores of the parent's code, which of these fault and what the faults take;
  `ForkTally` has why that comes true, `ForkBounds` what it amounts to, and `ForkFate` which call or
  store is the first that memory does not suffice for. `DumbforkLib` runs user/dumbfork.c.

Five models stand alone: `Sched` with `SchedEffects` and `Scheduler` (round robin on any number of processors),
`SpinLock` (the big kernel lock, one memory access at a time), `UserTraps` (page-fault frames and
the assembly that unwinds them, byte by byte), `Stabs` and `Numbers` (sequential algorithms).

Methods of classes are proved against the functions of the modules beside them; the lemmas are
about those functions. `held` in the memory modules names pages that page_alloc has returned and
that nothing refers to yet. Each kernel entry is one step, as under the big kernel lock.

Where the code departs from its comments, the code is modelled and the difference stated:

* page_lookup does not test PTE_P, so an empty entry of an existing table yields frame 0
  (kern/pmap.c:617-630). page_remove, sys_page_unmap and sys_page_map inherit that:
  `RemoveKeepsIff`, `PageUnmapKeepsIff`, `MapOfUnmapped`.
* pp_ref has 16 bits and wraps: `StoreKeepsIff`, `InsertKeepsIff`, `PageMapKeepsIff`.
* sys_page_alloc answers a forbidden permission bit with -E_NO_MEM (kern/syscall.c:183-229).
* page_alloc does not clear pp_link, and mem_init does not clear the pages array
  (kern/pmap.c:402-421), so "free" means reachable from page_free_list.
* boot_map_region stops in silence when no page table can be made (kern/pmap.c:516-543).
* The pages array is not cleared at boot although a comment asks for it (kern/pmap.c:149-155): a
  frame in use that was counted 65535 becomes free by its count, not by the list: `PageInit`.
* user_mem_check reads the failing entry for its report, also when pgdir_walk has returned NULL
  (kern/pmap.c:752-755, 778), and the kernel panics where -E_FAULT is promised: `UserMemCheck`. Its
  rounded end wraps at 2^32: `VisitsAllIff`.
* page_fault_handler stores the frame before it checks that it may (kern/trap.c:381-388). Where the
  comment promises that the environment is destroyed - its exception stack overflows, or it cannot
  write to it - the store faults in the kernel, which panics: `PageFaultHandler`, `OverflowExample`.
* A fault whose trap-time esp is exactly UXSTACKTOP is not taken for one on the exception stack,
  and its scratch word is the frame's last word: `UnwindRestoresIff`. Where the word below the
  trap-time esp is not writable, as on a page shared copy-on-write, the upcall's push faults and the
  interrupted state is lost: `UnwindFaultFreeIff`, `FaultAtPushLoses`.
* fork ignores what duppage returns. duppage fails only when no page is free, and if none becomes
  free meanwhile the child's exception page cannot be allocated, so that fork fails too:
  `StackAllocated`, `Fork`. Its memmove clears the parent's exception page instead of filling the
  child's (lib/fork.c:195).
* A page fault of the parent while fork uses PFTEMP (lib/fork.c:190-200) takes PFTEMP away from it:
  `FaultInClash`. `Fork` ends there, with the result `Clash`, and says exactly when. A program that
  keeps pushing on its stack is safe (`StackOnly`), one that then stores to a page for the first
  time since duppage is not (`SilentClashes`).
* sys_env_set_status and env_destroy accept environments that run or die on another processor;
  `TrapKeepsIff` says exactly when that breaks the scheduler's invariant.
* stab_binsearch seeks address + 1 after it met the address, and meets that too if it can:
  `BinsearchCorrectIff`, `OneAboveAnother`.

## Model

| member | source | states |
|---|---|---|
| `Mmu.AddressFields` | inc/mmu.h:27-42 | PDX, PTX and PGOFF determine an address, PGADDR puts them back together, and PGNUM is the pair of the two indices |
| `PageSpace.AllocKeeps` | kern/pmap.c:402-421 | taking the first page off the free list leaves every count exact; the page is then off the list and unreferenced |
| `PageSpace.FreeUndoesAlloc` | kern/pmap.c:427-438 | page_free of the page just allocated gives back the very same state |
| `PageSpace.DecrefKeeps` | kern/pmap.c:444-449 | dropping a reference that is one too many restores exact counts, and puts the page on the list exactly when nothing refers to it |
| `PageSpace.RemoveEmptyBreaks` | kern/pmap.c:617-665 | an empty entry of an existing table reads as frame 0: page_remove then drops a count that nobody held |
| `PageSpace.RemoveKeepsIff` | kern/pmap.c:648-665 | page_remove keeps counts, free list and table ownership consistent if and only if the table is missing or the entry present |
| `PageSpace.NewTableKeeps` | kern/pmap.c:473-503 | a page table made on demand is owned by its directory slot alone and holds one reference |
| `PageSpace.StoreKeepsIff` | kern/pmap.c:595-600 | the final store and increment of page_insert are right if and only if the 16-bit count does not wrap |
| `PageSpace.InsertKeepsIff` | kern/pmap.c:570-602 | page_insert changes exactly the named mapping, fails exactly when a table is needed and no page is free, and keeps the invariant if and only if the count has room or the page is re-inserted at its own address |
| `PageSpace.NewDirKeeps` | kern/env.c:176-213 | a new directory is counted once and starts with no table and no mapping of anybody |
| `Teardown.FreeTableExact` | kern/env.c:470-495 | one round of env_free empties and drops exactly one page table |
| `Teardown.FreeSpaceExact` | kern/env.c:456-504 | env_free takes away all of one environment's tables, mappings and directory and nothing else, and every count stays exact |
| `Teardown.FreeConserves` | kern/env.c:456-504 | every page's count goes down by the number of references the freed environment held, and the pages freed are those only it referred to |
| `Teardown.AllFreed` | kern/env.c:456-504 | two states with no environments and the same kernel tables have the same counts and the same free pages |
| `PageWords.NewTableRep` | kern/pmap.c:473-503 | clearing a free frame and entering it in a directory represents a new, empty page table; no other table or directory changes |
| `PageWords.PteKeepsRep` | kern/pmap.c:595-598 | storing one entry changes one virtual page of one directory: no page table is shared |
| `PageWords.NewDirKeepsRep` | kern/env.c:203-210 | a copy of kern_pgdir pointing to itself at UVPT represents an empty user space |
| `PageWords.WalkRefinesMap` | kern/pmap.c:473-503 | the hardware walk of a user address finds the mapping of its page in the finite map, and nothing when there is none |
| `PageWords.SelfMapReadsPte` | lib/entry.S:11-14 | for every page number, the word at UVPT + 4*pn is the page-table entry that the walk of that page uses, whenever its table is present |
| `PageWords.SelfMapReadsPde` | lib/entry.S:11-14 | uvpd[i] is directory entry i |
| `PageWords.UserMayTouch` | kern/env.c:195-212 | at every address, what the directory and table entries let user mode read or write: below UTOP the mappings that say so; at UVPT nothing to write, and to read what the directory's own entries allow; elsewhere what the kernel mapped so |
| `PageWords.RegionGrows` | kern/pmap.c:516-543 | mapping the next page extends the mapped region by that page and changes nothing else |
| `PageWords.KernelMapKeeps` | kern/pmap.c:516-543 | kernel mappings are not reference counted |
| `PageWords.VisitedPages` | kern/pmap.c:736-768 | when the rounded end does not wrap, the pages visited are exactly those holding a byte of the range |
| `PageWords.VisitsAllIff` | kern/pmap.c:740-747 | its pages include all that hold a byte of [va, va+len) if and only if len is 0 or va + len + 4095 is below 2^32 |
| `PageWords.WrappedRange` | kern/pmap.c:740-747 | for va 0x1000 and len 0xFFFFFFFF the loop does not run, and the answer is 0 |
| `PageWords.CheckIsBytes` | kern/pmap.c:736-768 | for a range that does not wrap, 0 means that the page of every byte has PTE_P and the asked bits, and that no tested address is above 0xef800000 |
| `PageWords.SecondPageMissing` | kern/pmap.c:749-778 | a range whose second page has no table reaches the read through NULL |
| `PageWords.NoTableIsMissing` | kern/pmap.c:749-755 | below UTOP pgdir_walk returns NULL exactly for pages whose table is missing from the map |
| `PageWords.GrantedIsMapped` | kern/pmap.c:736-768 | below UTOP the check asks for a present mapping with all of the permission bits |
| `FreeChain.PartitionIsStable` | kern/pmap.c:820-833 | two pages on the same side keep their order |
| `FreeChain.PartitionSides` | kern/pmap.c:820-833 | the low pages, whose physical address has a PDX below the limit, come first, the others after them, none on both sides, no duplicates |
| `FreeChain.PartitionIsPermutation` | kern/pmap.c:820-833 | the list holds the same pages as before |
| `FreeChain.JoinOpen` | kern/pmap.c:827-830 | storing through a tail pointer appends to a list without disturbing it |
| `FreeChain.TrailGrows` | kern/pmap.c:822-827 | one round of the tail-pointer loop appends the page to its side |
| `Pmap.BootKeepsIff` | kern/pmap.c:317-388 | page_init establishes the invariant if and only if no frame in use ends with count 0 |
| `Pmap.BootListMembers` | kern/pmap.c:317-388 | the frames freed at boot, highest first |
| `Pmap.BootListExact` | kern/pmap.c:330-377 | those are exactly the frames that are not 0, not at address 0x7000, and either below the end of base memory or above both address 0x100000 and the kernel's data; nothing of the I/O hole is among them |
| `Pmap.Memory.constructor` | kern/pmap.c:121-143 | kern_pgdir holds only itself, at UVPT; the pages array is not cleared |
| `Pmap.Memory.MarkPages` | kern/pmap.c:317-388 | the loop of page_init builds that list by its links and leaves those counts |
| `Pmap.Memory.PageInit` | kern/pmap.c:317-388 | after page_init the linked list, the counts and memory represent a space without environments; exactly those frames are on the list, once, with count 0, and the others have count 1 or one more than before; it is consistent if and only if no frame in use was counted 65535 before, as the array is not cleared |
| `Pmap.Memory.PageAlloc` | kern/pmap.c:402-421 | pops the list, clears the page if asked, or returns NULL and changes nothing |
| `Pmap.Memory.PageFree` | kern/pmap.c:427-438 | pushes the page, in place, onto the linked list |
| `Pmap.Memory.PageDecref` | kern/pmap.c:444-449 | decrements in 16 bits and frees at zero |
| `Pmap.Memory.PgdirWalk` | kern/pmap.c:473-503 | finds the table, or makes one when asked and a page is free; changes nothing otherwise |
| `Pmap.Memory.PageLookup` | kern/pmap.c:617-630 | no table: NULL; else the frame the entry names, present or not |
| `Pmap.Memory.TlbInvalidate` | kern/pmap.c:671-677 | the conditional invlpg is enough: every cached translation agrees with the loaded directory again |
| `Pmap.Memory.PageRemove` | kern/pmap.c:648-665 | the in-place words, counts, list and TLB do what the map-level removal says |
| `Pmap.Memory.ClearEntry` | kern/pmap.c:573-593 | up to the store: the entry is empty, its table exists, and the page is off the free list even if its last mapping was just removed |
| `Pmap.Memory.PageInsert` | kern/pmap.c:570-602 | the in-place words, counts, list and TLB do what the map-level insertion says; -E_NO_MEM leaves all as it was |
| `Pmap.Memory.SetupVm` | kern/env.c:176-213 | allocates and fills a directory, or fails and changes nothing |
| `Pmap.Memory.UnmapTable` | kern/env.c:483-489 | the inner loop of env_free unmaps every present entry of one table |
| `Pmap.Memory.FreeUserSpace` | kern/env.c:469-498 | the nested loops of env_free, in place, with the TLB still right |
| `Pmap.Memory.UserMemCheck` | kern/pmap.c:736-780 | returns 0 if and only if every page of the stepped range has a table and an entry with perm and PTE_P, at addresses up to ULIM; panics the kernel if and only if the first page that fails is not the range's first, has no table, and virtual page 0 is not mapped; else -E_FAULT |
| `Pmap.Memory.Lcr3` | kern/env.c:592 | loading a directory flushes the TLB |
| `Pmap.Memory.Translate` | kern/pmap.c:667-677 | a cached translation and a fresh walk give the same answer |
| `Pmap.Memory.UserStore` | kern/pmap.c:570-602 | a user store succeeds exactly on a writable user mapping, and can never reach a page table, a directory or a page reserved at boot |
| `Pmap.Memory.UserLoad` | kern/pmap.c:473-503 | a user load succeeds exactly on a user mapping and returns that frame's word |
| `Pmap.Memory.BootMapRegion` | kern/pmap.c:516-543 | maps the pages of the region in order and nothing else; it stops early, silently, only when no page is free for a table |
| `Pmap.Memory.RunTails` | kern/pmap.c:820-827 | the tail-pointer loop, in place, leaves two lists, each in order |
| `Pmap.Memory.MoveLowPagesFirst` | kern/pmap.c:820-833 | the free list becomes its own stable partition, null terminated |
| `EnvIds.IdForm` | kern/env.c:237-241 | the generations of a slot run through 1 to 2^19 - 1 and around |
| `EnvIds.IdNamesSlot` | inc/env.h:28-30 | every id is positive and ENVX of it is its slot |
| `EnvIds.IdsRecur` | kern/env.c:237-241 | an id of a slot recurs exactly every 2^19 - 1 allocations of that slot |
| `EnvRuns.ResolvesIff` | kern/env.c:75-109 | an id resolves to the one live environment that has it, with permission only to the caller and its children |
| `EnvRuns.PageAllocExact` | kern/syscall.c:183-229 | a successful sys_page_alloc maps one page, to a frame nobody had, with the asked permission |
| `EnvRuns.PageMapExact` | kern/syscall.c:251-306 | a successful sys_page_map changes one page, to the source's frame, never writable unless the source is |
| `EnvRuns.PageAllocKeeps` | kern/syscall.c:183-229 | sys_page_alloc always keeps the invariant; when it fails, counts and free list are identical |
| `EnvRuns.PageUnmapKeepsIff` | kern/syscall.c:317-338 | sys_page_unmap keeps it if and only if the entry is present or its table missing |
| `EnvRuns.PageMapKeepsIff` | kern/syscall.c:251-306 | sys_page_map keeps it if and only if the page's 16-bit count has room; when it fails nothing changes |
| `EnvRuns.MapOfUnmapped` | kern/syscall.c:279-295 | a source page that is not mapped is refused only when its whole table is missing; otherwise frame 0 is mapped instead |
| `EnvRuns.EnvAllocKeeps` | kern/env.c:223-286 | a failed env_alloc changes nothing; a successful one takes the first free slot and keeps the invariant |
| `EnvRuns.EnvFreeKeeps` | kern/env.c:456-504 | env_free returns the slot and keeps the invariant |
| `EnvRuns.DestroyKeeps` | kern/env.c:511-528 | env_destroy keeps it, whether it frees the environment or leaves a zombie |
| `EnvRuns.EnvRunKeeps` | kern/env.c:559-597 | env_run keeps it |
| `EnvRuns.StepKeepsIff` | kern/syscall.c:51-338 | any kernel entry keeps the whole invariant if and only if it is a call that the code carries out correctly |
| `EnvRuns.BootKeeps` | kern/env.c:117-141 | env_init, on memory without environments, establishes it |
| `EnvRuns.RunKeeps` | kern/syscall.c:51-338 | in every reachable state every page's count equals its mappings, tables and directories, and the free list is exactly the zero-count pages |
| `EnvRuns.RunThatBreaks` | kern/syscall.c:317-338 | a run from boot that breaks it: the first environment allocates the page at UTEXT and unmaps the one above |
| `EnvRuns.LiveIdsDistinct` | kern/env.c:237-241 | live ids are positive, pairwise distinct, and name their slots |
| `EnvRuns.StaleIdsNeverResolve` | kern/env.c:75-109 | over any run, an old id resolves to the same incarnation or not at all, within 2^19 - 1 allocations of its slot |
| `EnvRuns.RunConserves` | kern/env.c:223-504 | after any run in which all environments have gone, every count and the set of free pages are what they were before the first |
| `KernelCalls.Kernel.constructor` | kern/env.c:117-141 | env_init links all 1024 slots in order, free and with id 0, in place |
| `KernelCalls.Kernel.LookupEnv` | kern/env.c:75-109 | envid2env: 0 is the caller, stale ids and strangers are refused |
| `KernelCalls.Kernel.AllocEnv` | kern/env.c:223-286 | env_alloc in place does what the transition says, failures included |
| `KernelCalls.Kernel.FreeEnv` | kern/env.c:456-504 | env_free in place, loading kern_pgdir first when the environment is the current one |
| `KernelCalls.Kernel.DestroyEnv` | kern/env.c:511-528 | env_destroy in place; whether the caller may return |
| `KernelCalls.Kernel.RunEnv` | kern/env.c:559-597 | env_run in place: statuses, curenv and the loaded directory |
| `KernelCalls.Kernel.SysExofork` | kern/syscall.c:78-105 | a child that is not runnable, of the caller |
| `KernelCalls.Kernel.SysEnvSetStatus` | kern/syscall.c:112-135 | permission, the two allowed statuses, the change |
| `KernelCalls.Kernel.SysEnvSetPgfaultUpcall` | kern/syscall.c:148-163 | the upcall is set in place, before it is checked; the environment is destroyed for it unless the pages of its 4 bytes are user mappings, and the kernel panics exactly when they are two, only the first is there, and the second has no table |
| `KernelCalls.Kernel.SysPageAlloc` | kern/syscall.c:183-229 | argument checks in the code's order (a forbidden bit gives -E_NO_MEM), a cleared page mapped, other frames untouched |
| `KernelCalls.Kernel.SysPageMap` | kern/syscall.c:251-306 | checks, no write permission beyond the source's, the mapping; frames that are no page tables untouched |
| `KernelCalls.Kernel.SysPageUnmap` | kern/syscall.c:317-338 | checks and the removal |
| `KernelCalls.Kernel.SysEnvDestroy` | kern/syscall.c:51-66 | permission and the destruction |
| `EnvEffects.DestroyExact` | kern/env.c:511-528 | an environment that runs on another processor becomes DYING and nothing else changes; any other is free at once, first on the free list, without directory, and exactly its tables and mappings are gone; there is no current environment if it was that |
| `EnvEffects.SetStatusExact` | kern/syscall.c:112-135 | the named environment has the asked one of two statuses, and nothing else changes |
| `EnvEffects.SetHandlerExact` | kern/syscall.c:148-163 | its upcall is set, and nothing else changes; if the check does not pass it is destroyed besides |
| `EnvEffects.StrangersRefused` | kern/env.c:75-109 | a call that names nobody, or an environment that is neither the caller nor its child, answers -E_BAD_ENV and changes nothing |
| `EnvEffects.CreateExact` | kern/env.c:223-286 | which error; or the first free slot with an id no live environment has, the parent, no upcall, and the first free page as a directory that owns nothing |
| `EnvEffects.ExoforkExact` | kern/syscall.c:78-105 | so for a child of the caller that is not runnable |
| `EnvEffects.RunExact` | kern/env.c:559-597 | env_run makes one environment RUNNING and current, one that was current and RUNNING becomes RUNNABLE, and no other changes |
| `EnvEffects.PageAllocAnswers` | kern/syscall.c:183-229 | which error, and success if and only if the arguments are good and there are two free pages, or one and the table |
| `EnvEffects.PageMapAnswers` | kern/syscall.c:251-306 | which error, and success if and only if the arguments are good, the source has a table and the rights, and the destination a table or a page for it |
| `EnvEffects.PageUnmapExact` | kern/syscall.c:317-338 | a bad address is refused; else the named page is not mapped any more and every other page is |
| `Cow.AllocIsEager` | kern/syscall.c:183-229 | a new page is zero and private, in whatever state the sharing is |
| `Cow.MapIsEager` | kern/syscall.c:251-306 | sharing a page is giving the destination a private copy of it, at once if nobody else can write the page, else when the last one who could loses the permission |
| `Cow.UnmapIsEager` | kern/syscall.c:317-338 | unmapping takes the page from nobody else |
| `Cow.ExitIsEager` | kern/env.c:456-504 | the end of an environment takes its pages from nobody else |
| `Cow.StoreIsEager` | lib/fork.c:10-65 | a store shows in the page stored to and the pages where the same frame is writable, and in no page that shares the frame read-only |
| `Cow.AlsoIsTemp` | lib/fork.c:47-63 | those other pages exist only while a page below UTEXT is used as a temporary window |
| `Cow.StepIsEager` | lib/fork.c:10-214 | every single system call and store is what it would be on private copies, whatever is shared and written at the time |
| `Cow.DupIsEager` | lib/fork.c:78-121 | duppage's two mappings: nothing is shared and writable, and the child's page is a copy of what the parent's holds |
| `Cow.RunIsEager` | lib/fork.c:10-214 | over every interleaving of single system calls on mapped pages, stores and exits of any number of environments - between the calls of a fork or a fault handler too - all environments see what private copies would hold |
| `Cow.RunKeepsOneWriter` | lib/fork.c:10-214 | as long as a writable mapping is made a second time only through a temporary page, as fork, pgfault and dumbfork do it, no frame is ever writable at two other pages |
| `Cow.NoWriteShowsElsewhere` | lib/fork.c:10-214 | whatever the other environments do in such an interleaving, a page that an environment sees stays as it is |
| `Cow.CopyPersists` | lib/fork.c:78-121 | the child sees what the parent's page was when the copy was made, whatever is interleaved with the fork or comes after |
| `Cow.HalfDuplicated` | lib/fork.c:96-109 | between duppage's two calls the shared frame holds what the parent's page held at some moment since the first, whatever other environments do and the parent stores |
| `Cow.DuppageInterleaved` | lib/fork.c:78-121 | so after the second call the child sees that, under any preemption in between: other environments may be in the middle of their own forks |
| `Cow.LoadsSeeView` | kern/pmap.c:473-503 | what the processor's walk loads is the word of the private copy |
| `Cow.ReachesKeepsOneWriter` | lib/fork.c:10-214 | no run of those events makes a frame writable by two environments outside the windows |
| `CowEvents.ExitHappens` | kern/env.c:456-504 | env_free is the exit event of those runs |
| `CowEvents.PageAllocHappens` | kern/syscall.c:183-229 | a successful sys_page_alloc is their allocation event |
| `CowEvents.PageMapHappens` | kern/syscall.c:251-306 | a successful sys_page_map of a mapped page is their mapping event, also of a page that is half duplicated, and over its last writer |
| `CowEvents.PageUnmapHappens` | kern/syscall.c:317-338 | sys_page_unmap of a mapped page is their unmapping event |
| `CowEvents.ExoforkHappens` | kern/syscall.c:78-105 | a new environment is seen by nobody |
| `LibCalls.InsertCost` | kern/pmap.c:570-602 | what page_insert takes from and gives back to the free list, exactly |
| `LibCalls.AllocPage` | kern/syscall.c:183-229 | as a user sees it: sys_page_alloc succeeds exactly with two free pages, or one and the table, maps a cleared frame of its own, and is one event |
| `LibCalls.MapPage` | kern/syscall.c:251-306 | sys_page_map of a mapped page is the insertion or fails for want of a table, and is one event |
| `LibCalls.UnmapPage` | kern/syscall.c:317-338 | sys_page_unmap of a mapped page always succeeds and is one event |
| `LibCalls.StoreWord` | lib/fork.c:10-65 | a store faults exactly without a writable user mapping, and is one event otherwise |
| `LibCalls.CopyPage` | lib/string.c:142-170 | memmove of a page, as loads and stores of the current environment |
| `LibCalls.ReadUvpt` | lib/fork.c:177 | uvpt[pn] read through the self-map is the page's entry in the map, and faults exactly when the page has no table |
| `LibCalls.HasTable` | lib/fork.c:164 | uvpd[i] & PTE_P tells whether the page table exists |
| `PgfaultLib.RepairPage` | lib/fork.c:53-63 | the copy through PFTEMP, the remapping, the unmapping: the page has a private writable copy, and the free pages are counted exactly |
| `PgfaultLib.FaultKeepsCow` | lib/fork.c:47-63 | where no frame was shared and writable before a repaired fault, none is after it |
| `PgfaultLib.Pgfault` | lib/fork.c:14-65 | succeeds exactly for a write to a copy-on-write page when memory suffices, and then puts a private writable copy in its place, and no frame becomes shared and writable; else it panics and nothing has changed |
| `ForkSteps.Started` | lib/fork.c:151-155 | after sys_exofork nothing has been duplicated and one page is gone |
| `ForkSteps.PageHasRoom` | lib/fork.c:162-184 | a page still to be duplicated can take another reference |
| `ForkSteps.DupChild` | lib/fork.c:97-105 | after the child's mapping of a page, mappings, tables, counts and free pages are as they should be, whatever faults the parent took before |
| `ForkSteps.DupFails` | lib/fork.c:97-105 | it fails only when fork's pages and those the parent's own faults took exceed the free ones |
| `ForkSteps.DupParent` | lib/fork.c:108-118 | the parent's remapping costs nothing |
| `ForkSteps.FaultKeeps` | lib/fork.c:14-65 | a page fault of the parent in the middle of fork changes its page's frame and the count of free pages, and nothing else of fork's progress |
| `ForkSteps.FaultFails` | lib/fork.c:47-51 | one that cannot be repaired means that memory does not suffice for fork and the faults so far and this one |
| `ForkSteps.LateFault` | lib/fork.c:47-51 | one after the allocation of the child's exception page that can be repaired means that memory suffices for fork and one page more |
| `ForkSteps.StackAllocated` | lib/fork.c:185-188 | once a call of duppage has failed no page is ever free again, and the child's exception page cannot be allocated |
| `ForkPlan.EndGrows` | lib/fork.c:139-214 | what fork and the parent's faults need never becomes less on the way |
| `ForkTally.AccountedFault` | lib/fork.c:47-63 | after a page fault of the parent the tally is right about rights, frames and sharing |
| `ForkTally.AccountedChild` | lib/fork.c:97-105 | and after the child's mapping of a page |
| `ForkTally.AccountedSealed` | lib/fork.c:108-118 | and after the parent's remapping |
| `ForkTally.GivesReleased` | kern/pmap.c:444-449 | what the tally says, from the state before fork and the stores so far, that the next fault gives back is what it does give back |
| `ForkBounds.RenewedIsWritable` | lib/fork.c:108-118 | when fork reaches PFTEMP the parent can write a page that fork has made copy-on-write if and only if it has stored to it since that page's own duppage |
| `ForkBounds.FaultsBounded` | lib/fork.c:14-65 | stores to a set of pages take at most two faults for each page, one for a page writable before fork, and need no more pages than that |
| `ForkBounds.StoredBefore` | lib/fork.c:190-200 | code whose stores around the memmove go to pages that it stored to in the gap before never meets PFTEMP in use |
| `ForkBounds.SilentClashes` | lib/fork.c:190-200 | a concrete code that does: it stores nothing until PFTEMP is in use, and then to any page of its own |
| `ForkBounds.StackOnly` | lib/fork.c:139-214 | code that only pushes on its stack, and does so just before PFTEMP is in use, never meets it, and fork needs exactly one page for all its faults |
| `ForkFate.DeadStays` | lib/fork.c:14-65 | a parent that has panicked does not go on |
| `ForkSteps.TempDecides` | lib/fork.c:139-214 | when fork reaches its last mapping, all calls before have succeeded, and that one does if and only if ForkCost pages were free at the start beside those that the faults of the parent kept |
| `ForkViews.ChildMapped` | lib/fork.c:97-105 | after the child's mapping the copy is visible unless the parent may still write the page |
| `ForkViews.ParentSealed` | lib/fork.c:108-118 | after the parent's remapping it is, with what the page holds then, or held when the parent's own fault replaced its frame |
| `ForkViews.FaultUnseen` | lib/fork.c:14-65 | pgfault changes nothing that any environment can read |
| `ForkViews.StoreSeen` | lib/fork.c:139-214 | a store of the parent shows in its own page alone |
| `ForkViews.CopyThrough` | user/dumbfork.c:36 | a copy to the temporary page is a copy to the page that it stands for |
| `ForkState.OwnStore` | lib/fork.c:139-214 | any store of the parent between fork's calls keeps what has been achieved, pages already copied included |
| `ForkState.OwnFault` | lib/fork.c:14-65 | so does any page fault it takes, also on the very page that is half duplicated, and the tally after it is the one foreseen |
| `ForkState.GapCopied` | lib/fork.c:97-118 | in the gap between duppage's two calls the child's page is exact as soon as the parent cannot write it |
| `ForkCalls.NewChild` | kern/syscall.c:78-105 | sys_exofork fails only without a slot or a page, and nobody sees it |
| `ForkCalls.Begins` | lib/fork.c:151-155 | fork's invariant holds after sys_exofork |
| `ForkCalls.ChildDone` | lib/fork.c:97-105 | and after the child's mapping or its failure |
| `ForkCalls.ParentDone` | lib/fork.c:108-118 | and after the parent's remapping, which never fails |
| `ForkCalls.StackDone` | lib/fork.c:185-188 | and after the allocation of the child's exception page, which succeeds only if all calls before have |
| `ForkCalls.LendDone` | lib/fork.c:190-193 | the mapping at PFTEMP succeeds if and only if memory sufficed for fork and the pages that the faults kept |
| `ForkCalls.StackCopied` | lib/fork.c:195 | memmove clears the parent's exception page, and changes no other page |
| `ForkCalls.ReturnDone` | lib/fork.c:197-200 | unmapping PFTEMP leaves fork's invariant |
| `ForkCalls.ChildHasUpcall` | lib/fork.c:202-205 | a complete child has the pages of the upcall, so that its check passes |
| `ForkCalls.Ends` | lib/fork.c:139-214 | what everybody sees after a complete fork, page by page |
| `ForkCalls.Spent` | lib/fork.c:139-214 | and the pages it took, exactly |
| `ForkLib.StoreOwn` | lib/fork.c:14-65 | one store of the parent with the fault it may take: it is done, with the tally foreseen, if and only if the page is writable or there is memory to repair it |
| `ForkLib.RunGap` | lib/fork.c:139-214 | the parent's code between two calls: all its stores are done, and the tally is the one foreseen, if and only if memory suffices for their faults |
| `ForkLib.DupPlanned` | lib/fork.c:78-121 | the tally of the plan is that of duppage's calls and the parent's code between them |
| `ForkLib.SpareIs` | lib/fork.c:139-214 | at every point of fork the free pages are those foreseen from the state before fork and the stores so far, and so is whether the next fault can be repaired |
| `ForkLib.DupForeseen` | lib/fork.c:78-121 | whether duppage's mapping fails, and where a store faults in vain, is foreseen too |
| `ForkLib.MapToChild` | lib/fork.c:97-105 | duppage's first call, done or failed: fork's invariant holds after it, with the page counted as shared, or fork as incomplete; it is done if and only if the child has the table or there is a page for it |
| `ForkLib.RemapShared` | lib/fork.c:108-118 | its second call, with the parent's code before it, which never fails for itself |
| `ForkLib.Duppage` | lib/fork.c:78-121 | one page duplicated, with the parent's code before, between and after the calls, or a failed call after which no page is free, or a panic, each as foreseen |
| `ForkLib.DupTable` | lib/fork.c:166-182 | the inner loop, with its break at the exception page |
| `ForkLib.DupTables` | lib/fork.c:162-184 | the outer loop over the directory; the parent panics in it if and only if that was foreseen |
| `ForkLib.AllocStack` | lib/fork.c:185-188 | the child's exception page, if and only if no call failed and two pages are free, or one and the table |
| `ForkLib.ReachTemp` | lib/fork.c:185-193 | fork gets to use PFTEMP, with all pages duplicated and the tally foreseen, or returns -1, or panics, each exactly as foreseen |
| `ForkLib.LendStack` | lib/fork.c:190-193 | its mapping at PFTEMP succeeds if and only if memory sufficed for fork and the faults so far |
| `ForkLib.RunLent` | lib/fork.c:190-200 | the parent's code while PFTEMP is in use: all its stores are done if and only if they go to pages of the writable ones, else it ends at the first that faults |
| `ForkLib.ReturnStack` | lib/fork.c:195-200 | memmove and the unmapping, reached if and only if no store in the two gaps around them faults |
| `ForkLib.SetUpcall` | lib/fork.c:202-205 | sys_env_set_pgfault_upcall succeeds, gives the child the upcall and leaves all else as it is |
| `ForkLib.StartChild` | lib/fork.c:202-210 | the last two calls: the child has the upcall and is runnable, unless one of the parent's last faults finds no page |
| `ForkLib.FinishFork` | lib/fork.c:185-214 | the rest of fork: which of the four outcomes, from the state before fork and the parent's stores, and what becomes of the child in each |
| `ForkLib.Fork` | lib/fork.c:139-214 | without a slot or a page for the directory fork returns -1 and changes nothing; otherwise the state before fork and the stores of the parent's code decide whether it returns a child, returns -1, panics, or meets PFTEMP in use. It meets PFTEMP if and only if there are pages to get there and a store in one of the two gaps around the memmove goes to a page not stored to since its own duppage; it returns a child if and only if there are a slot and ForkCost pages beside those that the parent's faults need, and no such store. The child then is complete, has the upcall and the parent's pages with exactly the rights PTE_U, PTE_P and PTE_COW, and is runnable; the pages taken are ForkCost and those kept, nothing is shared and writable, each page of the child is the parent's as it was after some of the parent's stores, and everybody else sees what they saw. In the other outcomes a child that is not runnable is left behind |
| `ForkLib.FaultInClash` | lib/fork.c:190-200 | where fork meets PFTEMP in use, pgfault panics for want of a page or takes PFTEMP away: memmove's load faults in turn, or sys_page_unmap meets an empty entry and frame 0 loses a reference that it did not have |
| `ForkLib.ForkedPagesAreOwn` | lib/fork.c:139-214 | after fork no run of the others' calls and stores, however interleaved, changes what an environment sees of its pages; and no frame gets two writers by such calls as the library makes |
| `ForkLib.UnwrittenIsShared` | lib/fork.c:139-214 | a page that the parent does not store to meanwhile is the same in both, and as it was |
| `DumbforkLib.MadeCopy` | user/dumbfork.c:36 | memmove makes the child's page what the parent's is then, and shows nowhere else |
| `DumbforkLib.AllocCopy` | user/dumbfork.c:32-33 | sys_page_alloc in the child, or memory did not suffice |
| `DumbforkLib.MapCopy` | user/dumbfork.c:34-35 | the window at UTEMP, or memory did not suffice |
| `DumbforkLib.MoveCopy` | user/dumbfork.c:36 | memmove through the window |
| `DumbforkLib.UnmapCopy` | user/dumbfork.c:37-38 | the window's end never fails, and nothing is shared and writable |
| `DumbforkLib.FillCopy` | user/dumbfork.c:34-38 | the calls after sys_page_alloc, with the parent's code before each, or memory did not suffice |
| `DumbforkLib.Duppage` | user/dumbfork.c:26-39 | one page more is copied and paid for; it panics only for want of memory |
| `DumbforkLib.CopyAll` | user/dumbfork.c:63-68 | the loop and the stack's page: they succeed if and only if DumbNeed pages are free |
| `DumbforkLib.Dumbfork` | user/dumbfork.c:41-75 | it succeeds if and only if there are a free slot and DumbNeed free pages - the directory, tables and copies, less a page that was at UTEMP and is given back in time - and else panics, and leaves nothing or a child that is not runnable; on success the child has writable copies of the program's and the stack's pages, each as the parent's was at some moment, no upcall, and is runnable, and nobody else's memory has changed |
| `DumbforkLib.ForkRefinesDumbfork` | user/dumbfork.c:41-75 | every page of dumbfork's child is in fork's child too, with the same words if the parent does not store to it meanwhile, and all other environments see the same |
| `Sched.PickIsFirst` | kern/sched.c:33-44 | the circular scan finds the first runnable slot, its own first, and finds one whenever there is one |
| `Sched.YieldRunsFirst` | kern/sched.c:11-54 | sched_yield runs that environment, makes a RUNNING current one runnable again, and changes no other |
| `Sched.TrapKeepsIff` | kern/trap.c:265-304 | a kernel entry keeps RUNNING and DYING environments on exactly one processor each if and only if its call respects the other processors |
| `Sched.OneCpuIsRespectful` | kern/env.c:511-528 | on one processor every call does |
| `Sched.RunKeepsConsistent` | kern/sched.c:11-54 | so it holds at every step boundary of every run |
| `Sched.BootConsistent` | kern/env.c:436-447 | and before the first environment runs |
| `Sched.YieldComesCloser` | kern/sched.c:33-44 | a yield that does not choose a runnable environment comes strictly closer to it in cyclic distance |
| `Sched.SteadyStep` | kern/trap.c:265-304 | one entry that does not end or stop the current environment leaves it on the processor or yields to one strictly closer to any waiting environment |
| `Sched.BoundedBypass` | kern/sched.c:33-51 | over every run on one processor in which no current environment ends or stops, one that stays runnable is bypassed by fewer yields than there are slots up to it: NENV - 1 yields always choose it |
| `Sched.EndRestartsScan` | kern/env.c:511-528 | the end of the current environment restarts the scan at slot 0: the bound needs its condition |
| `Sched.RunnableCallerStays` | kern/sched.c:33-44 | a caller that is itself RUNNABLE is chosen again: the bound needs its condition |
| `SchedEffects.YieldSchedules` | kern/sched.c:11-103 | the RUNNABLE environment at the least circular distance runs; without one the RUNNING current one goes on, or the processor halts, or the monitor takes over; no other status and no other processor changes |
| `SchedEffects.TrapExact` | kern/trap.c:265-304 | what an entry does to every status and every processor: first what the call asks for, by itself, and then the scheduler, unless the current environment is RUNNING and did not yield |
| `SchedEffects.ZombieFreed` | kern/trap.c:277-281 | an entry on a processor whose environment is DYING leaves that environment free and on no processor |
| `SchedEffects.DyingEnds` | kern/env.c:511-522 | over every run a DYING environment is never RUNNABLE, RUNNING or waiting again, until its slot is taken anew |
| `SchedEffects.MonitorIff` | kern/sched.c:60-84 | the monitor takes over if and only if every environment is free or not runnable |
| `Scheduler.Processors.EnvRun` | kern/env.c:559-597 | the status changes of env_run, in place |
| `Scheduler.Processors.SchedYield` | kern/sched.c:11-54 | the scan loop, the fallback to the current environment, the halt |
| `Scheduler.Processors.SchedHalt` | kern/sched.c:60-103 | the monitor takes over exactly when nothing is runnable, running or dying; else curenv becomes NULL |
| `Scheduler.Processors.EnvDestroy` | kern/env.c:511-528 | DYING elsewhere, FREE here, and the yield |
| `Scheduler.Processors.Trap` | kern/trap.c:265-304 | the zombie's collection, the call, and the final scheduling decision |
| `SpinLock.StepKeeps` | kern/spinlock.c:38-120 | any single load, store or exchange of any processor keeps the lock's ownership |
| `SpinLock.AlwaysSafe` | kern/spinlock.c:38-120 | after any interleaving at most one processor is marked as inside, and holding() is true exactly for it |
| `SpinLock.PanicsIff` | kern/spinlock.c:60-108 | a processor panics exactly when it locks what it holds or unlocks what it does not |
| `SpinLock.ReturnedHolds` | kern/spinlock.c:60-120 | after any interleaving a processor that has returned from spin_lock, and not from spin_unlock since, has lk->locked set and, between calls, its name in lk->cpu, and no other processor has returned from spin_lock |
| `SpinLock.CallsDo` | kern/spinlock.c:60-120 | a spin_lock that is over has the lock, a spin_unlock that is over has not, holding() tells which, and only a call that misuses the lock panics |
| `SpinLock.LockAlone` | kern/spinlock.c:60-80 | an undisturbed spin_lock of a free lock returns with it after six steps |
| `SpinLock.UnlockAlone` | kern/spinlock.c:82-120 | an undisturbed spin_unlock gives it back, with lk->cpu and lk->pcs cleared |
| `SpinLock.OwnerKeeps` | inc/x86.h:283-294 | the lock changes hands only by the owner's release and a waiter's exchange |
| `UserTraps.LoadStored` | inc/trap.h:79-89 | a word stored is loaded back, byte by byte |
| `UserTraps.Context.FillFrame` | kern/trap.c:381-386 | the kernel's stores, field by field; one of them faults exactly when not all 52 bytes are writable |
| `UserTraps.Context.PageFaultHandler` | kern/trap.c:318-402 | the environment is destroyed exactly when it has no upcall or the exception stack's top word is not mapped; otherwise it goes on in its upcall exactly when the frame's 52 bytes are writable, with the frame where the kernel puts it and nothing else changed; otherwise the kernel panics |
| `UserTraps.OverflowIsUnwritable` | kern/trap.c:369-388 | with an unmapped guard page the frame is writable exactly when at least 56 bytes of a writable exception page are left, and never with a read-only one: an overflow panics the kernel |
| `UserTraps.OverflowExample` | kern/trap.c:369-388 | a stack pointer 20 bytes above the bottom of a good exception page does |
| `UserTraps.ScratchApartIff` | kern/trap.c:365-373 | the scratch word is apart from the frame if and only if the stack pointer is not exactly the top of the exception page |
| `UserTraps.UnwindRestores` | lib/pfentry.S:66-98 | the upcall's instructions restore every register, eflags, eip and esp exactly, and write only the scratch word and the saved esp |
| `UserTraps.UnwindRestoresIff` | lib/pfentry.S:66-98 | for a frame the kernel placed they do so if and only if the trap-time esp was not UXSTACKTOP |
| `UserTraps.UnwindFaultFreeIff` | lib/pfentry.S:66-98 | they take no page fault themselves if and only if the word below the trap-time stack pointer is writable when it is pushed |
| `UserTraps.FramesDisjoint` | kern/trap.c:365-373 | the frames and scratch words of any nesting depth are pairwise disjoint |
| `UserTraps.ReturnResumes` | lib/pfentry.S:66-98 | the innermost return leaves all other frames alone |
| `UserTraps.ReturnsIff` | lib/pfentry.S:66-98 | so a handler's return completes if and only if that word is writable, which it always is for a fault taken on the exception stack |
| `UserTraps.FaultAtPushLoses` | kern/trap.c:375-379 | where it is not, the push faults with the stack pointer off the exception stack, and the kernel puts the new frame over the one being unwound |
| `UserTraps.NestedFaultsResume` | lib/pfentry.S:34-98 | over any run of nested faults, of handlers that map and unmap pages, and of returns that complete, every handler returns to exactly the state its fault interrupted, innermost first |
| `Stabs.Progress` | kern/kdebug.c:65-91 | every round makes the range smaller, or was an exact match whose next probe is none |
| `Stabs.StabBinsearch` | kern/kdebug.c:59-103 | the nested loops compute the search that the lemmas are about |
| `Stabs.MeetsIff` | kern/kdebug.c:65-91 | plain binary search among entries of several types meets an address if and only if an entry of the type is there |
| `Stabs.BinsearchCorrectIff` | kern/kdebug.c:59-103 | it finds the last entry at or below the address, and the index before the next, if and only if no entry one above the address is left in the range in which plain binary search meets it (with what differs for the last two addresses); and what it answers when there is no entry to find |
| `Stabs.BinsearchUsuallyCorrect` | kern/kdebug.c:59-103 | so it does when no entry is one above another at the address |
| `Stabs.OneAboveAnother` | kern/kdebug.c:84-90 | with entries at 10 and 11 it answers the second for address 10 |
| `Stabs.OneAboveAnotherFound` | kern/kdebug.c:84-90 | with a third entry at 12 it answers the first, so that condition is not necessary |
| `Numbers.Sink.Printnum` | lib/printfmt.c:37-52 | the recursion emits the digits, padded on the left to the width |
| `Numbers.Sink.PrintDecimal` | lib/printfmt.c:218-226 | the sign goes first, before the padding |
| `Numbers.Padded` | lib/printfmt.c:37-52 | exactly max(width, digits) characters |
| `Numbers.DigitsDenote` | lib/printfmt.c:37-52 | the digits denote the number |
| `Numbers.DigitsPlain` | lib/printfmt.c:37-52 | they are digits of the base, in lower case, without a leading zero |
| `Numbers.Strtol` | lib/string.c:239-284 | the loops compute the blank, sign, prefix and digit parse, with a value that wraps at 32 bits |
| `Numbers.DigitValues` | lib/string.c:263-272 | digits and letters of either case have their values, and no other character has one |
| `Numbers.StrtolParses` | lib/string.c:239-284 | blanks, a sign, the prefix for the base and digits are read as the digits' value in that base, with the sign, in 32 bits, up to the first character that is no digit |
| `Numbers.RoundTripIff` | lib/string.c:239-284 | strtol reads back and consumes all of what printnum printed, padded with blanks or zeros; the value is the same if and only if it is below 2^31 |
| `Numbers.NegativeRoundTripIff` | lib/printfmt.c:218-226 | a negative number comes back if and only if it was not padded with blanks |

## Left out

- IPC, sfork, MMIO mapping, ELF loading (load_icode, region_alloc), device drivers, the monitor, boot code and boot_alloc.
- Register state across kernel entries: env_tf, sys_exofork's zero result in the child. fork is followed in the parent; set_pgfault_handler is the precondition that the parent's exception page is mapped and writable, and _pgfault_upcall lies in pages of the program that fork copies.
- Instruction fetches, and stores of fork's or dumbfork's parent that end it: in `Fork` its code stores to writable and copy-on-write pages of the range, in `Dumbfork`, whose program has no fault handler, to writable ones.
- ForkLib.Fork: the frames that the parent's faults push on its exception page while fork runs are not stored there, so that the page's words at the end are those of memmove; and in the method other environments are at rest: none is in the middle of its own fork at the start, and none takes or frees pages before the end. That their calls in between do not change what fork's child sees is Cow.DuppageInterleaved, Cow.RunIsEager and Cow.CopyPersists.
- Cow.RunIsEager: calls that break the kernel's own invariant are no events: sys_page_map of a page that is not mapped though its table is there, which maps frame 0, sys_page_unmap of such a page, and a mapping whose count has no room (EnvRuns.StepKeepsIff).
- LibCalls.MapPage: for callers that make a second writable mapping of a frame only through a page below UTEXT, as fork, pgfault and dumbfork do and sfork does not, and whose page's count has room.
- Multi-processor TLB coherence (there is no shootdown), paging-structure caches, and cached translations above UTOP.
- Environments on several processors and memory at once: KernelCalls is one processor, Sched has any number but no memory.
- user_mem_check's reported fault address.
- The accessed and dirty bits that the processor sets in page-table words.
- Segments, privilege levels and the supervisor's own mappings in loads and stores: a user access is decided by the present, writable and user bits of the page-table entry (directory entries of user tables carry all three).
- The head of _pgfault_upcall (push, call of the C handler): UNWIND starts where the handler has returned, and handler code may change anything but the pending frames.
- Store buffers of the processors in SpinLock: every load, store and exchange is one step in one order.
- sched_yield and env_run do not return in C; their methods end where user mode or the halt begins.
- vprintfmt's parsing of formats, and %d of the least 64-bit number, which C cannot negate.
- Pmap.Memory.BootMapRegion: regions that overlap the self-map at UVPT are not covered, because the kernel maps none there.
