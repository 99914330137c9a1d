# Nexus OS, verified models

A Dafny model of the parts of Nexus OS where state is shared and mistakes are expensive: who owns a physical
frame, what a page table translates, what a loaded program sees, which task runs next, what two rings shared
with another party (a device, another core) can show, and four algorithms of the user-space tools. `dafny verify
dfyconfig.toml` checks all of it.

## How it is laid out

The kernel's memory and process core is one machine over four source files.

- `PhysicalMemory` is the store: frame number to 4096 bytes or 512 page-table entries. Frames and pages are numbers
  (address divided by 4096); `PackRoundTrip` ties an entry to its 64-bit word.
- `FrameAllocator` is the allocator (free list, bump pointer over regions, counter), `Paging` and `MmioMapping` the
  four-level tables, `Elf` both ELF loaders with `ElfImage` as the writer they are checked against, `RunQueues` and
  `Scheduling` the ready queue and the task states.
- `Lifecycle` puts them together. A `Kernel` value holds scheduler, allocator, memory, the frames handed out and who
  holds them; its steps are the scheduler's operations plus whatever stores the running task can do. `StepInv`,
  `RunSafe` and `Conservation` are the main results, with `TranslationsKept`, `FramesKeptWhileOthersRun` and
  `ReadOnlyKept` for what a task can rely on while others run.
- `KernelMachine` is the same machine as an object whose methods update allocator, memory, queue and task table in
  place; each method is proved to be one step of `Lifecycle`. `ProgramMemory` states what follows for a program
  reading its own memory.

A page table is followed through *labels*: a ghost map from each table frame to the indices that lead to it. Distinct
labels make the tables a tree, which is what separates one write from every other translation.

Two protocols are modelled as steps.

- `IpcRing` is the byte ring under every interleaving of one producer and one consumer, one index load, byte access or
  index store at a time, and again as an object; `Channels` is the registry around it.
- `NvmeCommands`, `NvmeDevice`, `NvmeQueue`, `NvmeDriver` and `NvmeBlocks` are the NVMe driver: the 64-byte commands, a
  namespace that executes them, one queue pair against a controller that behaves as sections 4.1 and 4.6 of the NVM
  Express Base Specification, revision 1.4, say, the polling calls, and block reads and writes. The controller may
  fetch and complete in any order and at any time; what it does with a command is a parameter. `ReadsSeeNewest` says
  of any sequence of block calls that the device is a map from block number to block.

Four modules stand alone: `CompletionTrie` against a flat map of texts, `DependencyResolver` against reachability,
`ShellParser` with its round trip, and `BspTiling` with the window list it serves.

In each module functions and predicates say what the code computes, methods follow the code's loops and updates and are
proved against them, and lemmas state what callers rely on.

## What the callers must provide

- Memory regions are disjoint and below 2^52, and physical memory lies below 2^47 for `spawn_program`, which maps a user
  stack at its own physical address.
- `free_frame` is called on frames that are handed out; contiguous requests ask for at least one frame.
- An image's program headers, if it has any, are at least 56 bytes each, the sums the loaders form from its
  offsets, addresses and sizes stay below 2^64 (`Sane`), and for `spawn_program` its segments lie in the lower half.
- `spawn` keeps the invariant exactly when the kernel's own page table is active (`SpawnThreadIff`).
- Fewer than 2^32 pids and window ids are handed out.
- One producer and one consumer per channel: `send` and `recv` take a read lock only, so this is the callers' promise.
- Block transfers pass the namespace's own block size, for the data to be what is transferred (`OwnBlockSize`).

## Where code and comments disagree

The model follows the code.

- `free` in the allocator is an upper bound: `init` and a move to the next region leave frames behind that stay
  counted (kernel/src/memory/pmm.rs:38-47, :67-70). `InitExact`, `SkipSlack` and `BumpSlack` say exactly when it is
  the true number.
- `init` without a region above 1 MiB leaves the bump pointer at frame 0 (`InitSpec` gives the exact condition).
- A kernel stack is commented as 64 KiB (kernel/src/scheduler/mod.rs:16); `spawn` allocates four frames, 16 KiB.
- Two segments may share a page; the first one's rights win (kernel/src/fs/elf.rs:163-170). Two overlapping segments
  load differently in the two loaders exactly where a later zero-filled part covers a non-zero file byte
  (`LoadersAgree`, with `LateZeroingDiffers` as an instance).
- The loaders' bounds checks add 64-bit numbers that wrap in a release build, so a header can pass that
  names a segment with an end past 2^64 (`AcceptedIff`; `WrappedImageAccepted` is such an image).
- The page-by-page loader panics on a segment with a file size past its memory size when a file byte needs a page no
  segment touches (kernel/src/fs/elf.rs:174-184, `CopyFile`, `OneSegmentCovered`); the flat loader accepts the same
  image.
- A segment that asks for the page at the user stack's own address loses it to the stack, which is mapped last
  (kernel/src/memory/paging.rs:308).
- One timeout desynchronises an NVMe queue with an in-order controller for good: every later call reads the completion
  of an earlier command and reports UnexpectedCid (`TimeoutDesynchronises`).
- `available` on a ring is exact for the producer and for the consumer; a third party can be told a wrong number when
  the consumer runs between its two loads (`AvailableSpec`, `ThirdPartyMisled`).
- Channel ids are cut to 32 bits; past 2^32 channels a new id finds an older channel (`NewIdIsOwn`).
- `complete` stops its search after the first level with 8 * max matches, so a better but longer text can be missed
  (`ExactIff` says exactly when, `BetterMissed` gives a list).
- `bsp_rects` is documented to give equal slices; where both sides can be halved often enough and no gap is cut, it
  does so exactly for a power of two of windows (`SlicesEqualIff`). A gap of 2 or more cuts a strip, a negative one a
  very large strip (`CoversIff`).
- The shell's documentation lists `2>&1`; the tokeniser reads it as the word `2`, an empty output redirection and a
  background operator, then the word `1` (`DuplicationMisread`), and no input redirects an error stream
  (`EveryScriptIsWellFormed`). A comment swallows its newline (`CommentJoinsCommands`). Redirections and `&` without
  a command stay pending for the next one (`PendingMovesOn`). An argument in quotes that expands to
  nothing vanishes (`QuotedArgument`), and an unset `${name}` outside quotes stays as `$name` (`Variables`).
- `current_token` adds one byte to the position of the last separator (ai_engine/src/trie.rs:231); behind a separator
  of several bytes, and behind no other, that is inside a character and the slice panics (`CurrentToken`,
  `TwoByteSeparator`). `learn` counts bytes, so two letters outside ASCII are enough (`ShortIdentifier`).
- `resolve` is documented as possibly exponential (pkg_manager/main.go:341); no name is fetched twice and the search
  is called once per requested name and listed dependency (`Resolve`).
- Rights read back by `debug_read_pte_flags` are those of the last entry alone (`FlagsAreRightsIff`).

## Model

| member | source | states |
|---|---|---|
| FrameAllocator.AddRegionSpec | kernel/src/memory/pmm.rs:26-36 | a region adds exactly the whole frames inside it to the managed ones, up to 32 regions, and the counter stays an upper bound |
| FrameAllocator.InitSpec | kernel/src/memory/pmm.rs:38-47 | `init` leaves a valid allocator exactly when there is no region, the first region starts at frame 0, or some region ends above 1 MiB; otherwise the next allocation hands out frame 0, which lies in no region |
| FrameAllocator.SkipSpec | kernel/src/memory/pmm.rs:67-70 | moving to the next region never makes a frame available that was not, and loses none when the region is used up |
| FrameAllocator.BumpSpec | kernel/src/memory/pmm.rs:58-71 | a bump allocation of n frames gives n consecutive frames that were available and owned by no one; the counter drops by n |
| FrameAllocator.ReuseSpec | kernel/src/memory/pmm.rs:54-57 | popping the free list gives a frame nobody owns and takes it out of the pool |
| FrameAllocator.AllocFrameSpec | kernel/src/memory/pmm.rs:52-72 | fails exactly when nothing is available; otherwise gives one available, unowned frame, and availability changes for that frame only; the counter drops by one, so no decrement underflows |
| FrameAllocator.ExhaustedStays | kernel/src/memory/pmm.rs:58-60 | once an allocation failed, the next one fails too |
| FrameAllocator.AllocContiguousSpec | kernel/src/memory/pmm.rs:88-105 | a contiguous block consists of available, unowned frames, ignores the free list, and lowers the counter by its length |
| FrameAllocator.BlockIsFirstRoom | kernel/src/memory/pmm.rs:91-104 | a request for n frames in a row fails exactly when the rest of the current region and every later region are shorter than n; otherwise it gets the first room in that order, and the bump pointer ends up behind it |
| FrameAllocator.FrameIsNext | kernel/src/memory/pmm.rs:52-72 | a single frame is the one freed last, or without one the first room for a frame; none exactly when there is neither |
| FrameAllocator.FreedIsReused | kernel/src/memory/pmm.rs:54-126 | a frame that is freed is the next one handed out, and the allocator is then as it was before |
| FrameAllocator.ContiguousStays | kernel/src/memory/pmm.rs:91-104 | a contiguous request that failed fails again |
| FrameAllocator.TakeSpec | kernel/src/memory/pmm.rs:52-72 | n allocations in a row give n distinct, previously unowned frames |
| FrameAllocator.FreeFrameSpec | kernel/src/memory/pmm.rs:107-126 | freeing an owned frame never hits the double-free panic and makes exactly that frame available again |
| FrameAllocator.FreeAllSpec | kernel/src/memory/pmm.rs:107-126 | freeing distinct owned frames one after the other never panics; the counter and the free list grow by exactly them |
| FrameAllocator.InitExact | kernel/src/memory/pmm.rs:38-47 | `init` leaves the free counter exact exactly when there is no region, the first one starts at or above 3 MiB, or it starts at frame 0 and no region ends above 1 MiB |
| FrameAllocator.KernelIsSkipped | kernel/src/memory/pmm.rs:41-45 | in the region `init` chooses, no frame below 3 MiB is handed out fresh |
| FrameAllocator.SkipSlack | kernel/src/memory/pmm.rs:67-70 | moving to the next region never brings the counter closer, and keeps it as exact as it was exactly when the region is used up |
| FrameAllocator.BumpSlack | kernel/src/memory/pmm.rs:88-105 | a contiguous request keeps the counter as exact as it was if and only if every frame it did not hand out can still be handed out |
| FrameAllocator.SingleFramesKeepSlack | kernel/src/memory/pmm.rs:52-126 | allocating and freeing single frames changes the distance between counter and truth in neither direction |
| FrameAllocator.Pmm.AddRegionBytes | kernel/src/memory/pmm.rs:26-36 | in place, the new state is that of the specification |
| FrameAllocator.Pmm.Start | kernel/src/memory/pmm.rs:38-47 | the scan for the first region above 1 MiB computes the specified start |
| FrameAllocator.Pmm.Alloc | kernel/src/memory/pmm.rs:52-72 | the loop over regions ends and computes the specified allocation |
| FrameAllocator.Pmm.AllocBlock | kernel/src/memory/pmm.rs:88-105 | the loop over regions ends and computes the specified contiguous allocation |
| FrameAllocator.Pmm.Free | kernel/src/memory/pmm.rs:107-126 | zeroes the frame first; panics exactly when it already is in the free list, leaving the list alone; otherwise appends it |
| FrameAllocator.Pmm.constructor | kernel/src/memory/pmm.rs:20-24 | the empty allocator |
| PhysicalMemory.PackRoundTrip | kernel/src/memory/paging.rs:219-349 | address and the six flags of a page-table word never overlap and stand in the bits the processor reads them from: 0, 1, 2, 4, 7, 63, and 12 to 51 |
| Paging.OffsetInHugePage | kernel/src/memory/paging.rs:98-113 | inside a huge page the frames follow each other: 512 of them in 2 MiB, 0x40000 in 1 GiB |
| Paging.IndicesInjective | kernel/src/memory/paging.rs:223-245 | two page numbers below 2^36 with the same four table indices are equal |
| Paging.GraftTree | kernel/src/memory/paging.rs:223-279 | linking a fresh zeroed table into an absent entry keeps the structure a tree |
| Paging.GraftWalk | kernel/src/memory/paging.rs:223-279 | linking a fresh zeroed table changes no translation |
| Paging.LeafWalk | kernel/src/memory/paging.rs:223-279 | writing one leaf entry changes the walk of that one path and of no other |
| Paging.LeafRemaps | kernel/src/memory/paging.rs:223-279 | after the leaf write, the page translates to exactly the requested frame and rights, everything else as before |
| Paging.WalkFrame | kernel/src/memory/paging.rs:219-349 | translations through a tree depend on its own tables only |
| Paging.EnsureChild | kernel/src/memory/paging.rs:223-279 | finds or allocates the next table; one newly taken frame at most, the tree and every translation kept |
| Paging.MapUserPage | kernel/src/memory/paging.rs:223-279 | one mapping: exactly this page is remapped, the upper half of the root is untouched, the list of tables grows by the frames taken |
| Paging.WalkStaysOwnIff | kernel/src/memory/paging.rs:238-251 | from the root of a new table a mapping's walk enters a table of its own exactly for a root index below 256, and otherwise the kernel's own table |
| Paging.NewRoot | kernel/src/memory/paging.rs:281-293 | a fresh root translates nothing in the lower half and shares the 256 upper entries of the live root |
| Paging.CreateUserTable | kernel/src/memory/paging.rs:219-315 | on every lower-half address the four-level walk gives exactly the requested frame and rights, or nothing; the upper half is the kernel's; the list of tables names each frame taken exactly once; nothing outside those frames changed; it panics only when the allocator is out of frames |
| Paging.CreateIdentityTable | kernel/src/memory/paging.rs:133-217 | the older builder: each listed page maps to itself, read-only and executable, the stack to itself, writable and not executable, nothing else |
| Paging.ReadFlags | kernel/src/memory/paging.rs:317-342 | on any walk through tables, the bits of the last entry, or nothing when a level is absent |
| Paging.FlagsAreRightsIff | kernel/src/memory/paging.rs:317-342 | without huge pages these are the rights the hardware applies if and only if no level above takes away one that the last entry grants |
| Paging.UserFlagsAreRights | kernel/src/memory/paging.rs:317-342 | in a user table they are, on the whole lower half |
| Paging.GraftAbove | kernel/src/memory/paging.rs:92-119 | a table that is added takes the right to write away from no page |
| Paging.UserChild | kernel/src/memory/paging.rs:223-279 | one level of a user mapping: the child is a table of this tree, every translation kept |
| Paging.Descend | kernel/src/memory/paging.rs:223-279 | the three upper levels lead to the last-level table of the page, without changing any translation |
| MmioMapping.MapDevicePage | kernel/src/memory/paging.rs:64-131 | the page translates to its frame uncached, not executable, for the kernel only, and writable unless a table entry from before is not; no other address changes |
| MmioMapping.DeviceLeaf | kernel/src/memory/paging.rs:64-131 | below present tables the last entry decides the frame and caching of its own page and of no other |
| MmioMapping.IndicesDiffer | kernel/src/memory/paging.rs:64-131 | different pages of one range never share a table slot, even where the direct map wraps |
| MmioMapping.MapMmio | kernel/src/memory/paging.rs:64-131 | every byte asked for lies on a page, counted from the returned first one, that translates to its own frame uncached, not executable, for the kernel only, and writable unless a table entry that was there before is not; other addresses as before; fails only for want of a frame or when a huge page is in the way |
| MmioMapping.DeviceChild | kernel/src/memory/paging.rs:64-131 | one level of a device mapping: present tables are used as they are, a huge page in the way is the panic |
| MmioMapping.RangeGrows | kernel/src/memory/paging.rs:64-131 | one more page of the range keeps the pages already mapped |
| Elf.Load | kernel/src/fs/elf.rs:57-108 | reports the first bad header field; fails exactly on a header or segment out of the file; otherwise memory is the old memory with the segments written over it in order |
| Elf.AcceptedIff | kernel/src/fs/elf.rs:69-87 | for a header whose own end does not wrap: the two checks, in wrapping 64-bit sums, accept it exactly when it and its segment lie in the file or it lies in the file and the end of its segment wraps into it, never both |
| Elf.HeaderEndsDoNotWrap | kernel/src/fs/elf.rs:69-72 | with the first header in a file of at most 2^64 - 2^32 bytes, no header's end wraps |
| Elf.WrappedImageAccepted | kernel/src/fs/elf.rs:69-87 | a 120-byte image the checks accept although its segment lies outside the file |
| Elf.AddPages | kernel/src/fs/elf.rs:159-172 | one fresh zeroed frame for each page of the segment not listed yet; fails only when no frame is left |
| Elf.TouchesIff | kernel/src/fs/elf.rs:155-160 | a segment touches exactly the pages with a byte of its memory; without memory, the page of an address inside one |
| Elf.CopyFile | kernel/src/fs/elf.rs:174-184 | the chunked copy ends; its page lookup panics exactly when some page of the file part is touched by no segment up to this one; otherwise every file byte is in its place |
| Elf.OneSegmentCovered | kernel/src/fs/elf.rs:174-184 | for an image of one segment the lookup succeeds exactly when there is no file byte or the last one is on a page the segment touches; `LookupFails` is an instance of a panic |
| Elf.LoadFresh | kernel/src/fs/elf.rs:119-188 | same header errors as the flat loader; on success one page per touched page with the rights of the first segment there, holding the file bytes and zeros, in frames taken from the allocator in order; a failed load keeps the frames it took; it panics only on an image with a file part on untouched pages, and never returns Ok on one |
| Elf.WellSizedLoads | kernel/src/fs/elf.rs:142-184 | an image whose file sizes are at most its memory sizes, as chapter 5 of the System V gABI demands, never makes it panic |
| Elf.LoadersAgree | kernel/src/fs/elf.rs:57-188 | at an address some segment occupies both loaders leave the same byte exactly when no later zero-filled part covers a non-zero file byte there; everywhere else the flat one writes nothing and the other leaves zero |
| Elf.NonOverlappingSuffices | kernel/src/fs/elf.rs:57-188 | segments that do not overlap never zero a byte late, so the loaders agree on them |
| Elf.LateZeroingDiffers | kernel/src/fs/elf.rs:101-104 | an instance: two well-sized overlapping segments on which the loaders disagree |
| Elf.UntouchedIsZero | kernel/src/fs/elf.rs:159-184 | no file byte lands on a page outside every segment |
| Elf.NoWritableExecutable | kernel/src/fs/elf.rs:148-170 | if no segment is both writable and executable, no page is |
| Elf.AddressSpace.Copy | kernel/src/fs/elf.rs:94-104 | exactly the bytes copied change |
| Elf.FindPage | kernel/src/fs/elf.rs:163-179 | finds the page with this address if it is listed |
| ElfImage.HeaderReads | kernel/src/fs/elf.rs:57-72 | for every file header, written field by field at the offsets of chapter 4 of the System V gABI, each field is read back and the error is that of the first field that does not fit |
| ElfImage.ImageRoundTrip | kernel/src/fs/elf.rs:57-90 | the image of any entry and any parts, written as a linker does, has no header error, only good headers, that entry and exactly the PT_LOAD segments written, with PF_X as the right to execute and PF_W as the right to write |
| ElfImage.LoadWritten | kernel/src/fs/elf.rs:119-188 | on such an image the page-by-page loader returns that entry and pages that hold exactly those segments with their rights; it panics only if a file part lies on untouched pages and fails only for want of a frame |
| RunQueues.MaskBits | kernel/src/scheduler/mod.rs:159-172 | setting or clearing the bit of one level leaves the bits of the others |
| RunQueues.TrailingZerosSpec | kernel/src/scheduler/mod.rs:168-168 | the count of trailing zeros is the lowest marked level |
| RunQueues.PushSpec | kernel/src/scheduler/mod.rs:159-163 | the pid goes to the end of its level; bit i stays set exactly while level i is non-empty |
| RunQueues.PopSpec | kernel/src/scheduler/mod.rs:166-172 | takes the oldest pid of the most urgent non-empty level, or none exactly when all are empty |
| RunQueues.RunQueue.Enqueue | kernel/src/scheduler/mod.rs:159-163 | in place, the queue becomes the specified one |
| RunQueues.RunQueue.Dequeue | kernel/src/scheduler/mod.rs:166-172 | in place, the queue and the result are the specified ones |
| RunQueues.RunQueue.constructor | kernel/src/scheduler/mod.rs:153-156 | the empty queue is consistent |
| Scheduling.SpawnInv | kernel/src/scheduler/mod.rs:199-275 | a new task is queued behind all ready ones, runnable, with the next pid, the live CR3 and its stack; no other task changes and the invariant is kept |
| Scheduling.YieldInv | kernel/src/scheduler/mod.rs:278-375 | the oldest ready task becomes the running one, the one that ran goes to the back, no zombie is touched |
| Scheduling.ExitInv | kernel/src/scheduler/mod.rs:532-583 | the exiting task is a zombie, the oldest ready task runs; panics exactly when none is ready |
| Scheduling.ReapInv | kernel/src/scheduler/mod.rs:472-482 | only a zombie is removed, and it was neither running nor queued |
| Scheduling.NextInv | kernel/src/scheduler/mod.rs:199-583 | every step keeps: the mask matches the queues, a pid is queued once exactly when its task is runnable, one running task which is `current`, and CR3 is that task's |
| Scheduling.BoundedWaiting | kernel/src/scheduler/mod.rs:159-172 | in every run of spawns, yields, ticks, exits and reaps, a task at queue position k moves up one place per switch and runs at switch k + 1 |
| Scheduling.DeadForever | kernel/src/scheduler/mod.rs:472-583 | a zombie or reaped task is never queued and never runs again, in any run |
| Lifecycle.AllocProgramSpec | kernel/src/scheduler/mod.rs:424-457 | all frames `spawn_program` takes are distinct and were owned by no one |
| Lifecycle.SpawnProgramInv | kernel/src/scheduler/mod.rs:424-457 | the whole step keeps every ownership and address-space invariant |
| Lifecycle.SpawnFailedInv | kernel/src/scheduler/mod.rs:426-430 | a failed load leaks its frames but breaks no invariant |
| Lifecycle.ReapFrees | kernel/src/scheduler/mod.rs:484-497 | the frames of a task can be freed one by one: the double-free panic never fires |
| Lifecycle.ReapStepInv | kernel/src/scheduler/mod.rs:472-498 | `reap` keeps every invariant and gives back exactly the frames the task owned, scrubbed |
| Lifecycle.ComputeStepInv | kernel/src/scheduler/mod.rs:424-457 | whatever a running task stores, through its writable pages or on its kernel stack, no page table and no free frame changes |
| Lifecycle.LeavesAreOwn | kernel/src/memory/paging.rs:295-308 | every user translation of a task leads to a frame it owns, never to one of its tables or its kernel stack |
| Lifecycle.LeavesArePrivate | kernel/src/scheduler/mod.rs:424-457 | no frame mapped by one task is owned by another |
| Lifecycle.LeavesKeepWX | kernel/src/memory/paging.rs:295-308 | if no page was requested writable and executable, no user translation is both |
| Lifecycle.StepInv | kernel/src/scheduler/mod.rs:199-583 | every step keeps the whole invariant: each live frame has one owner, free frames are zeroed, tables translate as requested; free plus live frames stays constant |
| Lifecycle.RunSafe | kernel/src/scheduler/mod.rs:199-583 | so does every run |
| Lifecycle.Conservation | kernel/src/scheduler/mod.rs:424-498 | once every task spawned during a run is reaped and no load failed, the set of live frames and the free counter are exactly the old ones |
| Lifecycle.SpawnThreadInv | kernel/src/scheduler/mod.rs:199-275 | a kernel thread's step keeps every invariant |
| Lifecycle.SpawnThreadIff | kernel/src/scheduler/mod.rs:199-275 | `spawn` keeps the invariant exactly when the caller runs on the kernel's own page table, because the new task copies the live CR3 |
| Lifecycle.StepContinues | kernel/src/scheduler/mod.rs:199-583 | pids are never reused, and of an old task only its state changes: frames, tables and image pages stay what they were |
| Lifecycle.TranslationsKept | kernel/src/scheduler/mod.rs:424-457 | in every run, as long as a user task exists, every lower-half page translates as requested at the spawn |
| Lifecycle.StepIsolates | kernel/src/scheduler/mod.rs:199-512 | a frame a task owns changes only in steps taken while that task runs, or in its reap |
| Lifecycle.FramesKeptWhileOthersRun | kernel/src/scheduler/mod.rs:199-512 | the same over any part of a run in which the task does not run |
| Lifecycle.ReadOnlyKept | kernel/src/scheduler/mod.rs:424-457 | an image page mapped without the right to write holds the same bytes in every later state until its task is reaped |
| KernelMachine.Kernel.constructor | kernel/src/scheduler/mod.rs:189-196 | the state before the first task satisfies the invariant |
| KernelMachine.Kernel.SwitchTo | kernel/src/scheduler/mod.rs:301-375 | updates `current`, the two states, the queue and CR3 as specified, missing tasks included |
| KernelMachine.Kernel.YieldNow | kernel/src/scheduler/mod.rs:782-794 | is the yield step and keeps the invariant |
| KernelMachine.Kernel.TryPreempt | kernel/src/scheduler/mod.rs:752-764 | is the tick step: nothing with a lock contended, otherwise a yield |
| KernelMachine.Kernel.ExitCurrent | kernel/src/scheduler/mod.rs:532-583 | is the exit step; panics exactly when no task is ready, so the missing-task panic is unreachable |
| KernelMachine.Kernel.FreeFrames | kernel/src/memory/paging.rs:344-349 | frees the list in order; panics exactly when the specification does |
| KernelMachine.Kernel.Reap | kernel/src/scheduler/mod.rs:472-498 | panics exactly when there is no such zombie; otherwise it is the reap step |
| KernelMachine.Kernel.AddTask | kernel/src/scheduler/mod.rs:199-275 | takes a contiguous kernel stack, adds the task and queues it; it panics exactly when no region has room for four frames in a row |
| KernelMachine.Kernel.SpawnKernelThread | kernel/src/scheduler/mod.rs:199-275 | on any live page table: a new task with the live CR3, or a panic exactly when no region has room for four frames in a row; it is the thread step and keeps the invariant exactly when the kernel's own page table is live |
| KernelMachine.Kernel.SpawnProgram | kernel/src/scheduler/mod.rs:424-457 | loader, stack, page tables and task together are one program step: the invariant is kept and the image is loaded faithfully; a load error is a failed-load step; it fails only for a bad image or when no frame is left, and panics only when no frame or no room for a kernel stack is left half way, or a file part needs a page that no segment touches |
| KernelMachine.LowerHalfIff | kernel/src/scheduler/mod.rs:424-457 | for 48-bit addresses, an image lies in the lower half exactly when every page it touches has a root index below 256 |
| KernelMachine.LoadedKept | kernel/src/scheduler/mod.rs:424-457 | a loaded image stays as loaded while its frames are left alone |
| ProgramMemory.ProgramReadsItsImage | kernel/src/scheduler/mod.rs:424-457 | through its own page tables a program reads at every lower-half address of any image, overlapping or not, the last file byte loaded there, zero on the rest of a touched page, and faults elsewhere; only the page at the stack's own address is the stack's |
| ProgramMemory.ImageByteIsFlat | kernel/src/fs/elf.rs:57-188 | in a segment's memory that byte is the flat loader's exactly unless a later zero-filled part covers a non-zero file byte there |
| ProgramMemory.ProgramKeepsWX | kernel/src/scheduler/mod.rs:424-457 | in one state: with no segment both writable and executable, no translation of the program is |
| ProgramMemory.WXInEveryRun | kernel/src/scheduler/mod.rs:424-457 | in every run, at every state after the spawn and as long as the task exists, a program laid out from segments of which none is both writable and executable has no translation that is |
| ProgramMemory.ReadOnlyImageInEveryRun | kernel/src/scheduler/mod.rs:424-457 | in every run a program reads its read-only pages as loaded, whatever it and all others did since |
| ProgramMemory.MemoryIsPrivate | kernel/src/scheduler/mod.rs:424-457 | everything a program can read is unchanged after any steps in which it did not run |
| IpcRing.Distance | kernel/src/ipc/mod.rs:35-56 | wrapped 64-bit indices give the true number of waiting bytes |
| IpcRing.StepInv | kernel/src/ipc/mod.rs:35-59 | every atomic step of producer or consumer keeps the ring invariant |
| IpcRing.PoppedIsPrefix | kernel/src/ipc/mod.rs:35-59 | in every interleaving the popped bytes, and those of a pop in progress, are a prefix of the pushed ones, never more than 4095 behind |
| IpcRing.NoRace | kernel/src/ipc/mod.rs:40-56 | producer and consumer are never at the same slot, and no store hits an unread byte |
| IpcRing.CallsTakeAllTheyCan | kernel/src/ipc/mod.rs:36-52 | a push takes exactly what fits when it loads `tail`, a pop exactly what is there when it loads `head` |
| IpcRing.AvailableSpec | kernel/src/ipc/mod.rs:61-65 | the reported number is always the distance between the two loads modulo 4096, and is that distance exactly when the consumer has not overtaken the loaded head |
| IpcRing.AvailableForProducer | kernel/src/ipc/mod.rs:61-65 | with no push completing between the two loads, as when the producer asks, the number is exact for the second one |
| IpcRing.AvailableForConsumer | kernel/src/ipc/mod.rs:61-65 | with no pop completing in between, as when the consumer asks, it is exact for the first one |
| IpcRing.ThirdPartyMisled | kernel/src/ipc/mod.rs:61-65 | a run of one push and one pop in which a third party is told that 4095 bytes wait, although never more than one does |
| IpcRing.RingBuffer.Push | kernel/src/ipc/mod.rs:35-46 | undisturbed: appends as many bytes as fit and says how many |
| IpcRing.RingBuffer.Pop | kernel/src/ipc/mod.rs:48-59 | undisturbed: returns and removes the oldest bytes |
| IpcRing.RingBuffer.Available | kernel/src/ipc/mod.rs:61-65 | undisturbed: the number of waiting bytes |
| IpcRing.RingBuffer.constructor | kernel/src/ipc/mod.rs:27-33 | an empty ring |
| Channels.AccessIffGranted | kernel/src/ipc/mod.rs:97-139 | over every sequence of calls a uid may use a channel exactly when it created it or its creator granted it |
| Channels.DeniedChangesNothing | kernel/src/ipc/mod.rs:143-178 | a call by a uid without access changes neither the channel nor its bytes |
| Channels.LookupSays | kernel/src/ipc/mod.rs:143-176 | NotFound exactly when no channel has the id, PermissionDenied exactly when the first one with it does not let the caller in |
| Channels.NewIdIsOwn | kernel/src/ipc/mod.rs:99-111 | a new channel is found under the id its creator got exactly while fewer than 2^32 exist |
| Channels.Registry.CreateChannel | kernel/src/ipc/mod.rs:99-111 | appends an empty channel owned by the caller |
| Channels.Registry.GrantTo | kernel/src/ipc/mod.rs:116-135 | NotFound, PermissionDenied or Ok by the first channel with that id and its owner; the allow list grows without duplicates |
| Channels.Registry.SendTo | kernel/src/ipc/mod.rs:143-159 | checks access, then pushes into that channel's ring; every other ring is unchanged |
| Channels.Registry.RecvFrom | kernel/src/ipc/mod.rs:162-178 | checks access, then pops from that channel's ring; every other ring is unchanged |
| Channels.Registry.constructor | kernel/src/ipc/mod.rs:86-87 | no channels, the first id is 1 |
| NvmeCommands.DecodeInjective | kernel/src/drivers/nvme.rs:642-652 | the field layout covers all 64 bytes |
| NvmeCommands.Put | kernel/src/drivers/nvme.rs:645-650 | a little-endian field reads back as written and no other field changes |
| NvmeCommands.BuildRw | kernel/src/drivers/nvme.rs:642-652 | decodes to opcode, identifier, namespace, PRP1, 64-bit block address and zero-based count, everything else zero |
| NvmeCommands.BuildIdentify | kernel/src/drivers/nvme.rs:376-384 | decodes to an Identify command with the given fields, everything else zero |
| NvmeCommands.BuildCreateIoCq | kernel/src/drivers/nvme.rs:614-624 | decodes to the queue's identifier, size and address, contiguous, no interrupts |
| NvmeCommands.BuildCreateIoSq | kernel/src/drivers/nvme.rs:626-636 | decodes to the queue's identifier, size, address and completion queue |
| NvmeCommands.EntryReadsBack | kernel/src/drivers/nvme.rs:414-422 | the shifts and masks recover identifier, phase and status of a posted entry |
| NvmeQueue.SeesExactlyUnread | kernel/src/drivers/nvme.rs:751-757 | the phase bit under the head matches exactly when a posted entry is unread, and that entry is the oldest unread one |
| NvmeQueue.LockstepStep | kernel/src/drivers/nvme.rs:730-785 | submit, poll, give up, fetch and post all keep head, tail and phase equal to the counts |
| NvmeQueue.NoStaleEntry | kernel/src/drivers/nvme.rs:730-785 | in every run, with any timeouts and any controller timing: indices are counts modulo the depth, phase is the parity of passes, no old entry is ever consumed, submitted minus consumed is the number of timeouts |
| NvmeQueue.FetchableIff | kernel/src/drivers/nvme.rs:747-748 | the controller finds work exactly while 1 to depth - 1 commands are not fetched |
| NvmeQueue.FaithfulStep | kernel/src/drivers/nvme.rs:730-785 | with at most depth - 2 timeouts, every command fetched or completed is one that was submitted, each once |
| NvmeQueue.ReplyIsOwn | kernel/src/drivers/nvme.rs:757-778 | with late, lost or reordered completions: UnexpectedCid exactly for another command's completion, otherwise success with the own result or failure with the own status code and type |
| NvmeQueue.OkIsOwnInEveryRun | kernel/src/drivers/nvme.rs:730-785 | in every run with at most depth - 2 timeouts and recent outstanding commands, a poll replies UnexpectedCid exactly for another command's completion and Success exactly for its own successful one |
| NvmeQueue.TimeoutDesynchronises | kernel/src/drivers/nvme.rs:757-783 | with a controller that completes in order, a found entry is answered UnexpectedCid exactly when some earlier call timed out: one timeout and the queue never recovers |
| NvmeQueue.SlotIsRemainder | kernel/src/drivers/nvme.rs:405-426 | slot and phase of a count are its remainder modulo the depth and the parity of its quotient |
| NvmeDevice.ReadAfterWrite | kernel/src/drivers/nvme.rs:801-862 | written blocks are read back and no other block changes |
| NvmeDevice.NewestWriteWins | kernel/src/drivers/nvme.rs:801-862 | after any sequence of writes each block holds the newest data written to it |
| NvmeDevice.ExecuteFrame | kernel/src/drivers/nvme.rs:642-652 | only a successful Write changes the disk, only a successful Read changes memory, and only its one page |
| NvmeDriver.WaitSpec | kernel/src/drivers/nvme.rs:750-784 | whatever the controller's timing, a call that does not time out had its command executed exactly once, returns that execution's status, and leaves nothing behind; at a timeout the command had no effect or was executed once |
| NvmeDriver.ReplyIsStatus | kernel/src/drivers/nvme.rs:765-778 | the reply to an execution is success with its result exactly for status 0, and otherwise names its status code type and status code |
| NvmeDriver.PromptWait | kernel/src/drivers/nvme.rs:750-784 | if the controller fetches the command and completes it later, perhaps before different polls, and does nothing faulty, the call does not time out and returns the status of the fault-free execution |
| NvmeDriver.QueuePair.SubmitAndWait | kernel/src/drivers/nvme.rs:730-785 | the polling loop computes the specified outcome on the rings in memory |
| NvmeDriver.QueuePair.constructor | kernel/src/drivers/nvme.rs:340-351 | zeroed rings and the first-pass phase bit are a valid, quiet pair |
| NvmeDriver.QueuePair.Enqueue | kernel/src/drivers/nvme.rs:735-748 | the command goes to the slot under the tail, then the tail and the identifier advance |
| NvmeDriver.QueuePair.PollOnce | kernel/src/drivers/nvme.rs:752-778 | one look at the entry under the head: it is consumed and judged exactly when its phase matches |
| NvmeBlocks.FaultFree | kernel/src/drivers/nvme.rs:642-652 | a fault-free Read or Write succeeds exactly on the right namespace, within its blocks and within one page |
| NvmeBlocks.HistoryDisk | kernel/src/drivers/nvme.rs:801-862 | after any sequence of block calls without a timeout, failed ones included, the disk is the first one with the acknowledged writes replayed in order |
| NvmeBlocks.ReadsSeeNewest | kernel/src/drivers/nvme.rs:801-862 | in any such sequence every successful read returns, block by block, the newest data acknowledged before it |
| NvmeBlocks.Driver.EnsureAdmin | kernel/src/drivers/nvme.rs:320-353 | brings the controller up on first use only and never touches a live pair |
| NvmeBlocks.Driver.EnsureIo | kernel/src/drivers/nvme.rs:658-724 | the I/O pair exists only beside an admin pair; created once, and for certain if frames are there and both commands are answered in time. Otherwise `IoCreation` says what happened: bring-up error, no frames, or both creation commands sent in order (opcode 5, then 1, queue 1, 16 entries, contiguous, each with its ring), the second only after the first succeeded, and the error is the reply that was not a success; memory and disk are not touched |
| NvmeBlocks.Driver.CreateIo | kernel/src/drivers/nvme.rs:684-697 | both creation commands with their replies, and a fresh 16-entry pair exactly when both succeeded |
| NvmeBlocks.CreationsLogged | kernel/src/drivers/nvme.rs:684-697 | when it succeeds, exactly those two commands were sent on the admin queue |
| NvmeBlocks.CreatedReply | kernel/src/drivers/nvme.rs:730-785 | on a quiet admin pair the reply is a timeout or the status with which the controller executed that very command once |
| NvmeBlocks.Driver.Invalidate | kernel/src/drivers/nvme.rs:600-603 | both singletons are empty again, so the next call starts afresh |
| NvmeBlocks.Driver.WriteBlocks | kernel/src/drivers/nvme.rs:801-828 | with any block size, an acknowledged write updated exactly as many blocks as that size makes; a failed one updated none, and one that timed out none or all of them so far; bad sizes are InvalidTransferSize; with a controller that answers in time without a fault, the first call that creates the queues included, it succeeds exactly on the right namespace, within its blocks and one page; every error names its cause: bad size, no buffer, the creation that failed, or the reply to the command sent |
| NvmeBlocks.OwnBlockSize | kernel/src/drivers/nvme.rs:801-828 | with the namespace's block size an acknowledged write puts exactly the data on exactly its blocks |
| NvmeBlocks.Driver.ReadBlocks | kernel/src/drivers/nvme.rs:833-862 | the disk never changes; with any block size, a successful read returns the start of a page with the blocks read, which are the blocks asked for if the size is the namespace's; with a controller that answers in time without a fault, the first call that creates the queues included, it succeeds exactly on the right namespace, within its blocks and one page; every error names its cause: bad size, no buffer, the creation that failed, or the reply to the command sent |
| NvmeBlocks.Driver.CreateQueue | kernel/src/drivers/nvme.rs:684-697 | exactly one creation command is sent on the admin pair and its reply decides the result; the disk is not touched; it succeeds on a quiet pair with a controller that answers in time |
| NvmeBlocks.Driver.Transfer | kernel/src/drivers/nvme.rs:822-827 | on a settled pair and short of a timeout, exactly the built command was executed once and the pair is settled again; at a timeout it had no effect or was executed once |
| NvmeBlocks.Driver.PrepareBuffer | kernel/src/drivers/nvme.rs:814-820 | a zeroed page with the data at its start; the queues are unaffected |
| CompletionTrie.BestScoreKept | ai_engine/src/trie.rs:64-70 | after any insertions each text carries its maximum score and the category of the first insertion with it |
| CompletionTrie.DepthBound | ai_engine/src/trie.rs:52-63 | children lie behind their parents in the arena, so depth is at most the index |
| CompletionTrie.NoChildNoText | ai_engine/src/trie.rs:84-89 | a missing child means no stored text continues that prefix |
| CompletionTrie.LevelDown | ai_engine/src/trie.rs:96-106 | the next queue lists each node of the next level once |
| CompletionTrie.CurrentToken | ai_engine/src/trie.rs:220-233 | the longest suffix of token characters; it panics exactly when the character before that suffix has more than one byte in UTF-8 |
| CompletionTrie.SliceBehind | ai_engine/src/trie.rs:231-232 | the byte behind the start of a character is a character boundary if and only if that character has one byte |
| CompletionTrie.TwoByteSeparator | ai_engine/src/trie.rs:231-232 | a line with a two-byte separator on which the slice panics |
| CompletionTrie.TypedToken | ai_engine/src/trie.rs:220-233 | behind a blank, any text of letters, digits and `_ : . / ! (` is the token |
| CompletionTrie.TokenEnds | ai_engine/src/trie.rs:220-233 | any other ASCII character ends it |
| CompletionTrie.TypedPrefixFinds | ai_engine/src/trie.rs:78-111 | a stored text over that alphabet is found by typing any non-empty prefix of it behind a blank, when at most `max` stored texts continue the prefix |
| CompletionTrie.Trie.Insert | ai_engine/src/trie.rs:52-71 | refines the flat map from text to best entry |
| CompletionTrie.Trie.Complete | ai_engine/src/trie.rs:78-111 | terminates and returns the best `max` of the matches up to the level where the search stops, best first, ties by text, for any order of children; it panics exactly where the current token does |
| CompletionTrie.Trie.Learn | ai_engine/src/trie.rs:115-121 | accepts exactly letters, digits and underscores of three or more bytes together |
| CompletionTrie.ShortIdentifier | ai_engine/src/trie.rs:115-121 | two characters are accepted exactly when one of them lies outside ASCII |
| CompletionTrie.LongIdentifier | ai_engine/src/trie.rs:115-121 | three characters are always enough |
| CompletionTrie.FewMatchesExact | ai_engine/src/trie.rs:94-110 | with fewer than 8 * max matches the answer is the best `max` of all of them |
| CompletionTrie.ExactIff | ai_engine/src/trie.rs:94-110 | the answer is the best `max` of all matches if and only if every match at or past the cutoff has `max` better ones before it: a condition on the list and the cutoff alone |
| CompletionTrie.BetterMissed | ai_engine/src/trie.rs:94-110 | a list of nine texts on which the query for one completion returns a worse one than the best |
| CompletionTrie.RankRanked | ai_engine/src/trie.rs:108-108 | sorting distinct items gives a strictly ranked list |
| CompletionTrie.AnswerUnique | ai_engine/src/trie.rs:91-110 | the answer does not depend on the order of children |
| CompletionTrie.Trie.constructor | ai_engine/src/trie.rs:43-46 | an index of nothing |
| CompletionTrie.Trie.Walk | ai_engine/src/trie.rs:82-89 | finds the node that spells the token; fails only if no stored text continues it |
| CompletionTrie.Trie.Descend | ai_engine/src/trie.rs:96-106 | one level: its matches are collected once each, the next level listed once each |
| DependencyResolver.Resolver.Dfs | pkg_manager/main.go:346-359 | lists each newly reached package after the dependencies it waited for, and fails by reaching a name that cannot be fetched; each newly visited name is fetched once |
| DependencyResolver.Resolve | pkg_manager/main.go:342-365 | succeeds exactly when every reachable name can be fetched, and lists the duplicate-free closure; no name is fetched twice, and the search is called once for each requested name and each dependency listed by a fetched package |
| DependencyResolver.TopologicalIffAcyclic | pkg_manager/main.go:354-357 | dependencies come first exactly when the listed packages have no cycle |
| ShellParser.Tokens | shell/src/parser.rs:53-147 | no word token is ever empty |
| ShellParser.Tokenise | shell/src/parser.rs:53-147 | the loop over the iterator computes the specified tokens |
| ShellParser.Chars.ReadVarName | shell/src/parser.rs:149-161 | the specified name is consumed, nothing more |
| ShellParser.Chars.ReadWord | shell/src/parser.rs:163-169 | the longest run without a stop character is consumed |
| ShellParser.Parse | shell/src/parser.rs:186-250 | the loop over the tokens computes the specified script |
| ShellParser.EveryScriptIsWellFormed | shell/src/parser.rs:186-250 | for every input each command has non-empty words, every stage but the last writes to the pipe, every other but the first reads from the pipe or a file, and no command has its error stream redirected or a stream sent to a descriptor |
| ShellParser.LexScript | shell/src/parser.rs:53-147 | a rendered canonical script tokenises to its own tokens |
| ShellParser.RoundTrip | shell/src/parser.rs:186-250 | parsing the rendering of a canonical script returns that script, in every environment |
| ShellParser.RenderInjective | shell/src/parser.rs:186-250 | different canonical scripts never render alike |
| ShellParser.PlainCharacter | shell/src/parser.rs:142-142 | any character that is none of the specials stands for itself |
| ShellParser.BlankEndsWord | shell/src/parser.rs:70-70 | blanks and tabs end a word |
| ShellParser.ContinuedLine | shell/src/parser.rs:135-140 | a backslash before a newline joins the lines |
| ShellParser.TrailingBackslash | shell/src/parser.rs:135-140 | a backslash at the very end is dropped |
| ShellParser.SingleQuotes | shell/src/parser.rs:79-86 | everything in single quotes stands for itself, dollar signs included |
| ShellParser.DoubleQuotes | shell/src/parser.rs:88-102 | a text in double quotes, however it mixes characters, `$name` and `$`-brace names, adds its characters and the values of its variables, nothing for an unset one |
| ShellParser.UnclosedQuotes | shell/src/parser.rs:79-102 | a quote that is never closed reaches to the end of the input |
| ShellParser.Variables | shell/src/parser.rs:129-133 | outside quotes a variable adds its value, an unset one its name behind a dollar sign, without braces |
| ShellParser.AsciiName | shell/src/parser.rs:149-161 | a name consists of letters, digits and underscores, and any other ASCII character ends it |
| ShellParser.TargetReads | shell/src/parser.rs:104-121 | a redirection ends the word before it, and its target is the name behind the operator and any blanks |
| ShellParser.TargetEnds | shell/src/parser.rs:163-169 | six characters end a target, and no other does |
| ShellParser.QuotedArgument | shell/src/parser.rs:186-250 | a last argument in double quotes is its expansion as one word, and vanishes when that is empty |
| ShellParser.DuplicationTokens | shell/src/parser.rs:76-114 | wherever it stands, `>&` is an empty output redirection and a background operator |
| ShellParser.DuplicationMisread | shell/src/parser.rs:186-250 | after any words, `2>&1` makes a background command with the extra word 2 and an empty output file, and a command 1 |
| ShellParser.CommentSwallowsNewline | shell/src/parser.rs:123-127 | a comment consumes the newline behind it without a token |
| ShellParser.CommentJoinsCommands | shell/src/parser.rs:123-250 | two lines are two commands, and with a comment at the end of the first one they are one |
| ShellParser.PendingMovesOn | shell/src/parser.rs:198-245 | a redirection and an `&` without a command are given to the next command |
| ShellParser.Chars.TakeUntil | shell/src/parser.rs:79-86 | everything up to the delimiter is consumed, the delimiter with it |
| ShellParser.Chars.TakeQuoted | shell/src/parser.rs:89-102 | the quoted text with variables replaced, unset ones by nothing |
| ShellParser.Chars.SkipSpaces | shell/src/parser.rs:171-173 | blanks are consumed, nothing else |
| ShellParser.ReadRedirect | shell/src/parser.rs:105-121 | operator and target of a redirection |
| ShellParser.LexOne | shell/src/parser.rs:68-143 | every arm of the tokeniser's match computes the specified step |
| BspTiling.TilesApart | compositor/src/main.rs:159-181 | n tiles, each inside the area, no two sharing a point |
| BspTiling.CoversIff | compositor/src/main.rs:159-181 | they cover the area exactly when no gap is cut: gap 0 or 1, one window, or an area too small to cut |
| BspTiling.ExactlyOneTile | compositor/src/main.rs:159-181 | in that case every point belongs to exactly one tile |
| BspTiling.LongerSideIsCut | compositor/src/main.rs:163-176 | the longer side is cut in half: neither part is longer than the shorter side or what the half leaves |
| BspTiling.StripBetween | compositor/src/main.rs:163-176 | what the cut leaves out is a strip of half the gap in front of the middle; a negative gap counts as a very large one |
| BspTiling.WindowsShared | compositor/src/main.rs:177-181 | the first n / 2 windows lie in the first part, the others in the second |
| BspTiling.SlicesEqualIff | compositor/src/main.rs:157-181 | without a gap, for up to 2^d windows on an area with sides that are multiples of 2^d, all tiles have the same area if and only if the number of windows is a power of two |
| BspTiling.RetiledIsTiled | compositor/src/main.rs:283-298 | after a retile the targets of the active desktop's windows lie in the screen and never overlap |
| BspTiling.RetiledInOrder | compositor/src/main.rs:283-298 | the k-th active window goes from where it is to the k-th tile of the screen and stops floating; nothing else changes |
| BspTiling.IndicesSpec | compositor/src/main.rs:287-290 | the positions of the active windows, each once, in order |
| BspTiling.Compositor.Retile | compositor/src/main.rs:283-298 | the two loops send each active window to the tile of its rank and leave the others alone |
| BspTiling.Compositor.CreateWindow | compositor/src/main.rs:220-227 | a fresh id, the only focused window, and with tiling on a tiled desktop |
| BspTiling.Compositor.CloseWindow | compositor/src/main.rs:229-235 | removes exactly that window, keeps the order, and with tiling on leaves a tiled desktop |
| BspTiling.WithoutInOrder | compositor/src/main.rs:229-235 | the windows that stay keep their order |
| BspTiling.Compositor.ToggleTiling | compositor/src/main.rs:277-280 | switching tiling on tiles the desktop |
| BspTiling.Compositor.Focus | compositor/src/main.rs:237-243 | exactly the window with that id is focused |
| BspTiling.Compositor.constructor | compositor/src/main.rs:207-218 | no windows, tiling off |
| BspTiling.Compositor.ActiveIndices | compositor/src/main.rs:287-290 | the positions of the visible windows of the active desktop, in order |
| BspTiling.Compositor.RetileIfOn | compositor/src/main.rs:225-234 | with tiling on the desktop is tiled afterwards; which windows there are does not change |
| BspTiling.Compositor.SwitchDesktop | compositor/src/main.rs:300-304 | only an existing desktop becomes active |

## Left out

- Register contexts, the contents of kernel stacks, TLB and cache behaviour, port and register access: the model keeps
  CR3 as a field and nothing else of the hardware.
- Interrupts inside a scheduler function: `spawn`, `yield_now`, `try_preempt`, `exit_current` and `reap` are single
  steps. `switch_to` publishes `current` before it saves a context and `spawn_isolated` queues a task before it sets
  its CR3 (kernel/src/scheduler/mod.rs:302, :410-420); what an interrupt there sees is not modelled.
- More than one CPU: the locks of the kernel core are not part of the model.
- Wrap-around of pids at 2^32.
- Elf.Load: an image with a sum that wraps into the file before its first bad header, or with headers of less than 56
  bytes, is outside the contract; `AcceptedIff` says which headers the checks then let through, and what is read
  outside the file is not modelled.
- Elf.LoadFresh: the same.
- Names, capabilities, uids, working directories, open files and arguments of tasks.
- The printed page rights in `spawn_program` (kernel/src/scheduler/mod.rs:448-450); `ReadFlags` covers the function.
- Paging.ReadFlags: a walk through an entry that maps a huge page, as `spawn_program` makes for an unchecked entry point
  in the upper half: the code reads the mapped data as a table.
- `identity_map_region` (kernel/src/memory/paging.rs:351-395), `validate` in the loader, `HardenedAllocator`.
- Memory ordering on the ring: loads and stores take effect in the order of the program; the acquire and release
  pairs are taken to give that.
- Audit records of the channel registry.
- Admin queue bring-up (registers, CAP, CSTS) and parsing of Identify data; bring-up is a parameter that succeeds or
  fails. Doorbell addresses. Frames of NVMe buffers and queues are parameters too: the driver never frees them, so
  nothing is claimed about their conservation.
- The clock: a poll's deadline is the end of a list of controller moves.
- The controller executes a command and posts its completion in one step.
- NvmeBlocks.Driver.WriteBlocks: after a CommandTimeout nothing is promised about later calls until the queue state is
  invalidated, because the command may still be executed.
- NvmeBlocks.Driver.ReadBlocks: the same.
- KernelMachine.Kernel.SpawnProgram: says nothing about the state after a panic, at which the kernel stops, and nothing
  about an image with a page in the upper half, which the source does not reject; `WalkStaysOwnIff` says which tables
  its mapping enters.
- Which characters outside ASCII are letters or digits is a parameter, of `Trie` and of `Env`.
- Scores that are not numbers.
- BspTiling.SlicesEqualIff: areas with sides that leave remainders, where the code rounds and slices differ by
  what is rounded.
- Fetching package metadata over the network: a fixed map stands for the mirrors.
- Window titles, opacity and animation progress, pointer moves, snapping and its zones: easy members that do not touch
  the tiling.
- The virtual file system, network clients, security modules, fault handling, the boot loader, configuration and the
  other user-space services.
