# ZeOS: memory, processes, and the small algorithms around them

A Dafny model of the kernel in `zeos/`: a single-CPU x86 kernel with ten task
slots that is entered with interrupts off, so every system call, clock tick and
page fault is one atomic step. The code is modelled as it is written, including
the places where it departs from what it is evidently for; for those the exact
condition under which it does what it should is proved.

Code that works by changing things in place is imperative Dafny: the linked lists
at pointer level (`Ring`, `TaskLists`), the PCB array and queues (`Scheduler`), the
reference bytes, page tables and frames (`MemoryManager`), the generator, the
printers, the keyboard buffer, the block copies and the grid searches. Each method
is proved equal to a function of the old state, and the properties below are proved
of those functions, over all runs.

## What is proved

**Memory** (`Paging`, `PagingInvariant`, `PagingSteps`, `PagingEager`, `UserMemory`,
`PagingRefinement`, `PagingRuns`, `PagingBoot`, `PagingDepartures`, `SharedPages`,
`MemoryLaws`, `MemoryManager`, `Frames`). `UserMemory` is what programs are promised:
twenty private data pages per process, one code image, ten shared pages - no frames,
counts or write bits. Both settings of `USE_COW` refine it, step by step and over
every run, forks that run out of logical pages included, so they agree with each
other. Reference bytes are conserved and never wrap, a writable data entry is the only
entry on its frame, and frames never run out. `MemoryLaws` says it once more in terms
of loads alone: what is stored is read back and read by nobody else, a child reads
what its parent reads, and attachments of one page share it.

**Processes** (`Processes`, `ProcessInvariant`, `ProcessSteps`, `ProcessExit`,
`ProcessRuns`, `ProcessLaws`, `Semaphore`, `RoundRobin`, `FamilyTree`, `Scheduler`).
Every step keeps the partition of the PCBs, the states, the PIDs and the family tree -
exactly unless it is one of three steps of the code as written. Over every run without
those, block and unblock are a counting semaphore, a ready process waits a bounded
number of ticks, and a process that makes no call has the CPU for its quantum.
`ProcessLaws` gives the whole new state after each entry.

**Algorithms** (`Lcg`, `Digits`, `Blocks`, `Keyboard`, `GridMap`, `Discovery`,
`GridSearch`, `PriorityQueue`, `ShortestPath`, `LossyQueue`, `Dijkstra`). Full period
of the generator; round trip of the printers; FIFO order of the keyboard; what `bfs`
and `dijkstra` answer, on every map, and exactly when that is a shortest way.

## Where the code departs from its purpose

- `needs_sched_rr` looks at the quantum before the blocked state
  (`zeos/sched.c:206-212`). A process whose quantum is over and that blocks while
  nobody is ready stays on the CPU and in the blocked queue. Exactly then the
  invariant and the semaphore count break (`BlockKeepsIff`, `StepBalancedIff`).
- `sys_exit` leaves the `parent` of the exiting task set (`zeos/sys.c:225-244`). A
  parent that outlives a son and then exits deletes the son's unlinked node through
  null pointers. Page 0 is not mapped, so the kernel faults and loops. Exactly then
  exit hangs (`ExitKeepsIff`); it happens from boot in five steps (`HangFromBoot`).
- An eager fork that runs out of logical pages returns without undoing anything
  (`zeos/sys.c:159`). It succeeds exactly when the parent has twenty empty logical
  pages (`EagerFork`); process 1 can make its own fork fail (`ForkFailsFromBoot`). The
  PCB it had taken is on no queue afterwards (`FailedForkLosesPcb`), and every logical
  page the parent had left stays mapped. Programs notice nothing else (`FailSim`), and
  counts and exclusiveness survive it.
- `is_frame_shared` answers 0 for "not shared" (`zeos/mm.c:241-247`), which is also
  the id of the first shared page: that page can be attached and never detached
  (`DetachIff`, `PageZeroOnlyGrows`; from boot, `PageZeroStays`).
- `sys_fork` and `sys_exit` ask it about `frame << 12` (`zeos/sys.c:187`, `:253`),
  which is no frame number: a child inherits no attachments and an exit releases
  none (`ShiftedNeverShared`). The specification says so, too.
- `sys_shmrm` is documented as zeroing a page (`README.md:34`); it marks it, and the
  page is zeroed when its last attachment is detached (`DropsOnDetach`).
- Code pages are read-only, mapped by everybody and counted once, so a write to one
  is taken for copy-on-write of a private page and the write bit is set: stores are
  isolated from other processes exactly when they go to data pages
  (`StoreIsolatedIff`; from boot, `CodeStoreSeen`).
- `sys_numbros` of process 1, whose sibling node was never initialised, walks into a
  null pointer (`zeos/list.c:8-12`): it hangs exactly for a caller on no sibling list,
  which is exactly process 1 (`NumBros`, `NoListIff`).
- `bfs` returns the direction from its first step to the target instead of from the
  start to its first step (`zeos/pacman.c:563`). It answers NONE for an adjacent target
  (`NoneIff`), LEFT or RIGHT for a target two columns off or more whatever the map, and
  can lead into a wall (`IntoTheWall`). Its answer is a first step of a shortest way
  exactly when one starts in that direction, spelled out by where the target lies
  (`BfsExactIff`). Taken from the start the direction is always right
  (`RepairedExact`).
- `dequeue` shifts its entries and also advances `front` (`zeos/pacman.c:19-23`), so
  it skips one entry and doubles the last unless those are the same
  (`DequeueExactIff`). `dijkstra` inherits it: its directions always lead to the
  target (`AnswerLeads`), but not always by a shortest way (`DetourTaken`), and it may
  find no way where there is one (`NextToTheStart`). It is right for all free starts and
  all targets on exactly the maps where no free cell has more than two free neighbours
  (`DijkstraExactIff`); with an exact queue it is right on every map and starts as
  `bfs` does (`AnswerExact`).
- `itodeca` and `itohexa` print nothing for negative numbers (`RoundTripIff`).
- `rand_range` over the whole 32-bit range divides by zero (`RandRange`).
- A negative `maxchars` of `sys_read` compares as a large unsigned number.

## Model

| member | source | states |
|---|---|---|
| PagingRuns.RunRefines | zeos/interrupt.c:139-196 | over every run of forks, failed ones too, exits, loads, stores and shared-page calls, with or without copy-on-write, every load and every result is what private memory would give |
| PagingRuns.StepRefines | zeos/sys.c:136-180 | one step, under either setting of USE_COW, is the specified step on what programs can see, with the promised answer |
| PagingRuns.StepStuckIff | zeos/interrupt.c:158-196 | a step never returns exactly when the access has no page, or a shared page is written with no empty logical page left; never for lack of frames |
| PagingRuns.DataFaultIff | zeos/interrupt.c:150-165 | on a data page the handler gives up exactly when the page is writable anyway, or its frame has other references and no logical page is empty |
| PagingRuns.RunSucceeds | zeos/sys.c:136-180 | whatever the specification allows both machines do, while the pages in use leave 20 empty logical pages |
| PagingRuns.LazyEagerAgree | zeos/sys.c:18 | the two settings of USE_COW give the same observations on every such run |
| PagingRuns.ReachableCounts | zeos/mm.c:210-239 | in every reachable state a frame's count is 1 for a shared page, plus 1 for a code frame, plus its data entries over all ten tables; counts stay within 0..9, at most 198 frames are in use, and the allocator finds one |
| PagingRuns.ReachableExclusive | zeos/interrupt.c:158-175 | in every reachable state two data entries on one frame are the same logical page, and a writable one is alone with count 1 |
| PagingRuns.StoreIsolatedIff | zeos/mm.c:287-289 | what one process stores in its image is invisible to another exactly when it stores in a data page |
| PagingEager.EagerFork | zeos/sys.c:149-180 | an eager fork succeeds exactly with 20 empty logical pages; then the child has the parent's contents in its own frames and the parent's page table is restored exactly; otherwise every empty page of the parent is left mapped on the child's frames and nothing else changes |
| PagingRefinement.FailSim | zeos/sys.c:155-170 | a failed fork changes nothing programs are promised but the task slot and the empty pages of the caller |
| PagingRefinement.LeakWriteSim | zeos/sys.c:159 | what is stored in a page a failed fork left mapped, no live process sees |
| PagingEager.LazyFork | zeos/sys.c:137-148 | a copy-on-write fork always succeeds and gives the child the parent's data contents, changing nobody's |
| PagingEager.ReserveRounds | zeos/sys.c:155-170 | the reservation loop takes distinct logical pages and unmapped frames, and goes on exactly as long as pages are left |
| PagingEager.CopyRounds | zeos/sys.c:174-179 | the copy loop copies page by page and takes the temporary mappings away again, touching no other frame |
| PagingSteps.ShareDataCore | zeos/sys.c:140-147 | sharing keeps conservation and exclusiveness; both entries end read-only on one frame |
| PagingSteps.FreeDataCore | zeos/mm.c:224-232 | freeing data pages keeps conservation and exclusiveness and empties exactly those entries |
| PagingSteps.FaultCore | zeos/interrupt.c:150-181 | the handler makes the page writable with the same contents and touches no other entry and no frame anybody else maps |
| PagingRefinement.HandlerSim | zeos/interrupt.c:150-181 | when the handler returns, on any page, the page is writable and nothing a program can see has changed |
| PagingRefinement.StoreSim | zeos/interrupt.c:139-196 | a store that faults and is retried does the specified write |
| PagingRefinement.ForkSim | zeos/sys.c:126-195 | a completed fork copies the specified memory |
| PagingRefinement.ExitSim | zeos/sys.c:246-271 | exit takes away the process's private pages and nothing else; attachments stay |
| PagingRefinement.ShmatSim | zeos/sys.c:371-401 | attaching answers and maps as specified, at the asked page if it is empty and otherwise at the first empty one |
| PagingRefinement.ShmdtSim | zeos/sys.c:403-429 | detaching answers, unmaps and clears as specified |
| PagingRefinement.ShmrmSim | zeos/sys.c:431-437 | shmrm only marks the page |
| PagingRefinement.SharedIdOf | zeos/mm.c:241-247 | the answer is the id of the owner of the frame, and 0 if nobody owns it |
| PagingRefinement.AccessSim | zeos/mm.c:269-275 | what a page table lets a process reach, and finds there, is what the specification says |
| PagingInvariant.FramesInUse | zeos/mm.c:210-222 | at most 10 + 8 + 20 * 9 frames are in use |
| PagingInvariant.AllocSucceeds | zeos/mm.c:210-222 | the allocator always finds a frame, and nobody maps it |
| PagingInvariant.RefsFitByte | zeos/mm.c:210-239 | counts stay within 0..9, so the byte never wraps |
| PagingInvariant.MappersMove | zeos/interrupt.c:173-175 | moving one entry moves it from the mappers of one frame to those of another |
| Paging.FirstFreeRange | zeos/mm.c:210-222 | the search returns the least free frame at even distance, and -1 exactly when there is none |
| Paging.FreePageRange | zeos/mm.c:249-262 | the search returns the least empty logical page, and -1 exactly when there is none |
| PagingBoot.BootRefines | zeos/system.c:79-92 | the boot state meets every invariant and shows one process with its pages |
| PagingDepartures.ForkFailsFromBoot | zeos/sys.c:158-159 | after 721 attachments from boot a fork of process 1 answers -ENOMEM |
| PagingDepartures.PageZeroStays | zeos/sys.c:412-425 | from boot, process 1 attaches shared page 0 and is told that what it got is not shared |
| PagingDepartures.CodeStoreSeen | zeos/interrupt.c:150-158 | from boot, a byte process 1 stores in its code is found there by its child |
| SharedPages.ReachableRefs | zeos/sys.c:371-429 | after every run `num_refs` is the number of entries, over all ten tables, that map the page |
| SharedPages.DetachIff | zeos/sys.c:403-429 | detach succeeds exactly on attached pages other than page 0 |
| SharedPages.DropsOnDetach | zeos/sys.c:415-418 | a count falls only by one and by a detach; the last detach of a marked page leaves it zero |
| SharedPages.PageZeroOnlyGrows | zeos/sys.c:413-425 | over every run page 0 never loses an attachment |
| MemoryLaws.BootLayout | zeos/system.c:79-92 | at boot, in numbers: frames taken, shared pages on 256 to 274, read-only code on 276 to 290, writable data on 292 to 330, nothing else mapped above the kernel |
| MemoryLaws.KernelMapped | zeos/mm.c:61-69 | after every run every table maps page pg below 256 on frame pg, writable and not for users, and page 0 not at all |
| MemoryLaws.StoreReadBack | zeos/interrupt.c:139-196 | a byte stored is read back and the others of its page are as they were |
| MemoryLaws.StorePrivate | zeos/interrupt.c:150-180 | a store in a data page changes no load of another process or another page |
| MemoryLaws.StoreShared | zeos/sys.c:394-398 | two attachments of one shared page read the same, before and after a store through one of them |
| MemoryLaws.ForkReads | zeos/sys.c:128-180 | after a fork the child reads in its image what its parent reads, and everybody else what they read before |
| MemoryLaws.OthersRead | zeos/sys.c:246-271 | after an exit or a failed fork everybody left reads what they read before |
| MemoryLaws.AttachReads | zeos/sys.c:371-401 | an attachment is a page that was not there and reads the shared page, at the address asked for if that was empty |
| MemoryLaws.AttachTakesFirst | zeos/sys.c:377-381 | attaching anywhere takes the first empty page |
| MemoryLaws.DetachReads | zeos/sys.c:420-421 | after a detachment its page is gone |
| MemoryLaws.DetachClears | zeos/sys.c:415-418 | it clears the shared page exactly when that was the last attachment and the page is marked, and no other memory |
| MemoryLaws.AttachErrors | zeos/sys.c:372-390 | the error answers in numbers |
| MemoryLaws.DetachErrors | zeos/sys.c:404-425 | the error answers in numbers; an error changes nothing |
| MemoryLaws.RemoveErrors | zeos/sys.c:431-437 | the answers in numbers, and the mark |
| MemoryManager.Memory.constructor | zeos/mm.c:132-140 | booting in place gives the boot state, which meets the refinement relation |
| MemoryManager.Memory.InitTablePages | zeos/mm.c:54-71 | every table maps the kernel onto itself, page 0 excepted |
| MemoryManager.Memory.InitFrames | zeos/mm.c:194-205 | the kernel's frames have one reference, the others none |
| MemoryManager.Memory.InitSharedPages | zeos/mm.c:122-129 | the shared pages get the first ten frames, 256 first |
| MemoryManager.Memory.SetUserPages | zeos/mm.c:74-97 | the first task gets the next 8 code frames, read-only, and 20 data frames |
| MemoryManager.Memory.AllocFrame | zeos/mm.c:210-222 | the loop finds the first free frame from 256 in steps of two and takes one reference to it |
| MemoryManager.Memory.FreeFrame | zeos/mm.c:234-239 | one reference less, in a byte, except for frame 256 and below |
| MemoryManager.Memory.GetUserFreePage | zeos/mm.c:249-262 | the loop finds the first empty logical page |
| MemoryManager.Memory.IsFrameShared | zeos/mm.c:241-247 | the loop finds the id |
| MemoryManager.Memory.SetSsPag | zeos/mm.c:269-275 | maps one page, changing nothing else |
| MemoryManager.Memory.DelSsPag | zeos/mm.c:278-280 | unmaps one page, changing nothing else |
| MemoryManager.Memory.FreeUserPages | zeos/mm.c:224-232 | in place, the state function whose conservation FreeDataCore proves |
| MemoryManager.Memory.Fork | zeos/sys.c:122-198 | both forks in place are the functions LazyFork and EagerFork are about; the shared-memory loop changes nothing |
| MemoryManager.Memory.Exit | zeos/sys.c:246-271 | the memory side of exit releases the data pages and no attachment |
| MemoryManager.Memory.PageFault | zeos/interrupt.c:139-196 | the handler in place is the function FaultCore is about |
| MemoryManager.Memory.ShmAttach | zeos/sys.c:371-401 | in place, with the error answers |
| MemoryManager.Memory.ShmDetach | zeos/sys.c:403-429 | in place, with the error answers and the clearing |
| MemoryManager.Memory.ShmRemove | zeos/sys.c:431-437 | in place, with the error answer |
| MemoryManager.ShiftedNeverShared | zeos/sys.c:187-190 | a frame number shifted by 12 never belongs to a shared page |
| Ring.AddBetween | zeos/list.c:32-40 | inserts into a cycle between two neighbours |
| Ring.RemoveBetween | zeos/list.c:76-80 | takes an entry out of a cycle |
| Ring.Add | zeos/list.c:50-53 | prepends |
| Ring.AddTail | zeos/list.c:64-67 | appends |
| Ring.Del | zeos/list.c:88-93 | removes, and leaves the entry with null pointers |
| Ring.IsEmpty | zeos/list.c:110-113 | true exactly for the empty list |
| Ring.Size | zeos/list.c:3-16 | the walk ends and the count is exact |
| Ring.ListHead.Init | zeos/list.c:20-24 | the empty list |
| Ring.RingUnique | zeos/list.c:32-40 | the pointers determine the list |
| Ring.RingRotates | zeos/sys.c:326-328 | seen from an entry, a ring is the ring of the others and the head |
| TaskLists.TaskLists.Append | zeos/list.c:64-67 | appends to one list of a family and leaves every other ring and unlinked node as it was |
| TaskLists.TaskLists.Prepend | zeos/list.c:50-53 | prepends, likewise |
| TaskLists.TaskLists.Remove | zeos/list.c:88-93 | removes, likewise |
| TaskLists.TaskLists.TakeFirst | zeos/sched.c:70-73 | takes the first task off a list |
| TaskLists.TaskLists.SizeFrom | zeos/sys.c:326-328 | the size seen from a member is the length of its list |
| TaskLists.TaskLists.TaskAfter | zeos/sys.c:301-302 | the walk visits the tasks of a list in order and ends at the head |
| ProcessRuns.StepKeepsIff | zeos/sched.c:158-256 | a kernel entry keeps partition, states, PIDs and family tree exactly unless it blocks in vain, exits over a dead son, or forks with a free PCB and no memory |
| ProcessRuns.RunKeepsIff | zeos/sched.c:158-256 | over every run the invariant holds in all states exactly when no step is one of those three |
| ProcessRuns.OnePlaceEach | zeos/sched.c:217-233 | every user PCB is in exactly one queue or on the CPU, once, and its state says where |
| ProcessRuns.BootInv | zeos/sched.c:168-179 | the boot state meets the invariant |
| ProcessRuns.BlockInVainFromBoot | zeos/sched.c:206-212 | two ticks and a block of process 1 leave it running, blocked and queued |
| ProcessRuns.OutlivedChildHangs | zeos/sys.c:237-244 | a process that forks, loses the CPU to its child and exits after it hangs the kernel |
| ProcessRuns.HangFromBoot | zeos/sys.c:225-244 | that happens from boot |
| ProcessRuns.FailedForkLosesPcb | zeos/sys.c:107-159 | after a fork that ran out of memory its PCB is on no queue and not running |
| ProcessLaws.UnblockWakes | zeos/sys.c:303-310 | a blocked son that is unblocked is ready, last in the ready queue and off the blocked queue, and nothing else has changed |
| ProcessLaws.UnblockNotifies | zeos/sys.c:311-313 | any other son has one unblock more pending, and nothing else has changed |
| ProcessLaws.UnblockNobody | zeos/sys.c:316-317 | with no such son nothing changes |
| ProcessLaws.TickSwitchesIff | zeos/sched.c:199-215 | a tick takes the CPU away exactly when somebody is ready and the quantum is over |
| ProcessLaws.TickSwitched | zeos/sched.c:246-254 | then the first ready process runs from tick 0 and the other one goes to the end of the queue |
| ProcessLaws.TickKept | zeos/interrupt.c:118-123 | otherwise only the counters move |
| ProcessLaws.QuantumServed | zeos/sched.c:192-215 | from its dispatch on, with somebody ready, a process that makes no call has the CPU for the ticks of its quantum and loses it at the next |
| ProcessLaws.SwitchResets | zeos/sched.c:240-252 | whoever gets the CPU gets it with no ticks used |
| ProcessLaws.BlockConsumes | zeos/sys.c:291 | a pending unblock is used up and the caller goes on |
| ProcessLaws.BlockParked | zeos/sys.c:283-290 | with none pending the caller is last in the blocked queue and the first ready process runs, or idle |
| ProcessLaws.ForkStarts | zeos/sys.c:200-219 | the child's PCB in full, its place last in the ready queue and among its brothers, and nothing else changed |
| ProcessLaws.FirstForks | zeos/sched.c:168-179 | from boot eight forks fill the PCBs 7 down to 0 with the PIDs 2 to 9 |
| ProcessLaws.ExitLeaves | zeos/sys.c:225-274 | exit in full: its PCB last in the free queue, its sons at the end of idle's list in the order of their PCBs, the next process running from tick 0 |
| ProcessSteps.BlockKeepsIff | zeos/sys.c:280-294 | block keeps the invariant exactly unless it is in vain |
| ProcessSteps.UnblockKeeps | zeos/sys.c:296-318 | unblock keeps the invariant |
| ProcessSteps.ForkKeepsIff | zeos/sys.c:107-219 | fork keeps the invariant exactly unless its memory part fails after a PCB was taken |
| ProcessSteps.ScheduleKeeps | zeos/sched.c:158-165 | schedule keeps the invariant |
| ProcessSteps.SwitchRunning | zeos/sched.c:235-256 | preempting and dispatching keeps the invariant and runs the first ready task |
| ProcessExit.ExitKeepsIff | zeos/sys.c:225-274 | exit hangs exactly over a dead son, and otherwise keeps the invariant, frees the PCB and runs the first ready task or idle |
| ProcessExit.ReparentRounds | zeos/sys.c:237-244 | the loop hangs exactly when it meets a PCB that names the exiting task and is not its live son; otherwise it moves the sons to idle |
| Processes.FindPid | zeos/sys.c:301-303 | finds a task on the list with that PID, and none exactly if there is none |
| Semaphore.StepBalancedIff | zeos/sys.c:280-318 | counting a block call as returned when its caller goes on or comes out of the blocked state, a step that neither hangs the kernel nor loses a PCB keeps "delivered = returned + pending" for every live process exactly unless it blocks in vain |
| Semaphore.RunBalanced | zeos/sys.c:280-318 | over every run without such a step no wakeup is lost or duplicated, and a blocked process has none pending |
| Semaphore.BlockSwitchesIff | zeos/sched.c:199-215 | a block with nothing pending leaves the CPU exactly unless it is in vain |
| RoundRobin.BoundedWaiting | zeos/sched.c:192-256 | with quanta of at most q the process at index k of the ready queue runs before (k + 1) * (q + 1) ticks are over, whatever happens in between |
| RoundRobin.TickAdvances | zeos/interrupt.c:118-123 | every tick brings a ready process one tick closer |
| RoundRobin.CallAdvances | zeos/sched.c:235-256 | no system call takes a ready process further away |
| RoundRobin.IdleForEver | zeos/sched.c:237-243 | once idle runs it runs for ever: nothing else can make a process ready |
| RoundRobin.IdleMeansAllBlocked | zeos/sched.c:237-243 | going idle loses nobody: every live process is blocked |
| FamilyTree.BrothersCounted | zeos/sys.c:326-328 | the ring of a process holds exactly it and the live processes with the same parent |
| FamilyTree.NoListIff | zeos/sched.c:116-117 | exactly a process without a parent, which is process 1, is on no sibling list |
| FamilyTree.AncestorsAreOlder | zeos/sys.c:217-219 | PIDs fall from son to parent, so the family has no cycles |
| FamilyTree.ExitReparents | zeos/sys.c:237-244 | exit makes exactly the sons of the exiting task sons of idle |
| Scheduler.Scheduler.constructor | zeos/sched.c:168-179 | booting on the real lists gives the boot state |
| Scheduler.Scheduler.InitSched | zeos/sched.c:168-179 | all PCBs are free, the last one first |
| Scheduler.Scheduler.StartTasks | zeos/sched.c:67-138 | idle and process 1 take the first two free PCBs |
| Scheduler.Scheduler.NeedsSchedRr | zeos/sched.c:199-215 | the decision on the real ready queue, which TickSwitchesIff is about |
| Scheduler.Scheduler.SchedNextRr | zeos/sched.c:235-256 | dispatching on the real lists |
| Scheduler.Scheduler.ClkRoutine | zeos/interrupt.c:118-123 | the tick on the real lists |
| Scheduler.Scheduler.Block | zeos/sys.c:280-294 | block on the real lists |
| Scheduler.Scheduler.FindSon | zeos/sys.c:301-303 | the walk through the sons finds the first with that PID |
| Scheduler.Scheduler.Unblock | zeos/sys.c:296-318 | unblock on the real lists, with its answer; UnblockWakes says what that does |
| Scheduler.Scheduler.Fork | zeos/sys.c:106-222 | the process side of fork on the real lists, with its answers, whether its memory part succeeds or not |
| Scheduler.Scheduler.Exit | zeos/sys.c:225-274 | the process side of exit on the real lists |
| Scheduler.Scheduler.Enter | zeos/sys.c:104-318 | from a consistent state every entry, on the pointers, is the model's step, and stays consistent exactly unless it is one of the three that break it |
| Scheduler.Scheduler.NumBros | zeos/sys.c:326-328 | the length of the caller's list less one, and a hung kernel exactly if it is on none |
| Lcg.NextIsAffine | zeos/libc.c:155-158 | wrapping at 2^32 does not change the recurrence modulo 2^31 |
| Lcg.FullPeriod | zeos/libc.c:155-158 | from every seed two outputs are equal exactly when they are a multiple of 2^31 calls apart |
| Lcg.LowBitsPeriod | zeos/libc.c:155-158 | the low k bits have period exactly 2^k |
| Lcg.EveryValue | zeos/libc.c:155-158 | every 31-bit value comes up within 2^31 calls |
| Lcg.RangeCovered | zeos/libc.c:159-161 | every value of a range of at most 2^31 values comes up |
| Lcg.Generator.Srand | zeos/libc.c:152-154 | sets the seed |
| Lcg.Generator.Rand | zeos/libc.c:155-158 | one step of the recurrence modulo 2^31 |
| Lcg.Generator.RandRange | zeos/libc.c:159-161 | the answer lies in the range, counting around the word if it is given backwards; division by zero exactly for the whole word |
| Digits.RoundTripIff | zeos/libc.c:70-125 | reading the text back gives the number exactly for non-negative numbers |
| Digits.WellFormed | zeos/libc.c:70-125 | only the digits 0 to 9, and A to F in base 16, and no leading zero |
| Digits.DigitIsItsChar | zeos/libc.c:110-113 | each digit is printed as its own character, and read as itself |
| Digits.NegativeIsNothing | zeos/libc.c:81-93 | exactly the negative numbers are printed as nothing |
| Digits.TextFits | zeos/libc.c:70-125 | at most ten decimal or eight hexadecimal digits |
| Digits.Itodeca | zeos/libc.c:70-93 | division loop and reversal leave the decimal text, terminated |
| Digits.Itohexa | zeos/libc.c:95-125 | the same in base 16 |
| Digits.ReverseAndEnd | zeos/libc.c:87-92 | reverses in place and terminates |
| Blocks.CopyData | zeos/utils.c:6-20 | after the word loop and the byte loop the destination holds the source and nothing else changed, for blocks that do not overlap or are copied downwards |
| Blocks.CopiedBlocks | zeos/utils.c:6-20 | the copy as three blocks of the old memory |
| Blocks.ZeroOut | zeos/utils.c:23-36 | the block is zero and nothing else changed |
| Frames.CopyPageBytes | zeos/interrupt.c:171 | copying the bytes of a page copies its frame and no other |
| Frames.ClearPageBytes | zeos/sys.c:418 | clearing the bytes of a page clears its frame and no other |
| Keyboard.FirstInFirstOut | zeos/sys.c:331-355 | over every interleaving of keys and reads the accepted characters are those returned, in order, and then those waiting, at most 31 |
| Keyboard.KeyTaken | zeos/circular.c:21-32 | a key is accepted exactly while fewer than 31 characters wait |
| Keyboard.FetchDelivers | zeos/sys.c:340-354 | a read delivers exactly the smaller of what it asks for and what waits, and with a negative count everything |
| Keyboard.CircularBuffer.constructor | zeos/circular.c:3-7 | nothing waits |
| Keyboard.CircularBuffer.IsFull | zeos/circular.c:9-11 | true exactly when 31 characters wait |
| Keyboard.CircularBuffer.IsEmpty | zeos/circular.c:13-15 | true exactly when none waits |
| Keyboard.CircularBuffer.Put | zeos/circular.c:21-32 | appends while fewer than 31 characters wait, and otherwise changes nothing |
| Keyboard.CircularBuffer.Get | zeos/circular.c:34-44 | takes the oldest character, if there is one |
| Keyboard.CircularBuffer.Read | zeos/sys.c:331-355 | delivers exactly the smaller of maxchars and the number waiting, oldest first, or everything for a negative maxchars |
| Keyboard.Handle | zeos/interrupt.c:125-136 | a key or a read does to the real buffer what it does in the history FirstInFirstOut is about |
| GridSearch.Bfs | zeos/pacman.c:544-577 | on any map the answer is NONE if there is no way, and otherwise points to the target from the first neighbour, in the order left, right, up, down, that a shortest way starts with |
| GridSearch.BfsExactIff | zeos/pacman.c:563 | the answer is a first step of a shortest way, or NONE for want of a way, exactly when there is no way or, by where the target lies, a shortest way starts in the direction the last line computes; two columns off it is LEFT or RIGHT on every map |
| GridSearch.RepairedExact | zeos/pacman.c:608 | taken from the start to the first step the direction is exact |
| GridSearch.NoneIff | zeos/pacman.c:563 | the answer is NONE exactly when there is no way or the target is next to the start |
| GridSearch.IntoTheWall | zeos/pacman.c:563 | round the corner of a wall the answer leads into the wall |
| GridMap.FirstStepDirection | zeos/pacman.c:480-486 | taken from the start, the first cell of a shortest way gives a direction that leads to it |
| Discovery.QueueFits | zeos/pacman.c:546 | distinct cells never outnumber the queue |
| Discovery.FirstStepFirst | zeos/pacman.c:558-562 | backtracking ends at the first neighbour, in the order of the search, that a shortest way starts with |
| Discovery.SearchedNext | zeos/pacman.c:554-574 | a round of the search keeps distances shortest and the order of discovery |
| GridSearch.Arrive | zeos/pacman.c:558-563 | the answer points from there to the target |
| GridSearch.Expand | zeos/pacman.c:566-574 | the four moves in order, each free and new cell enqueued once with where it came from |
| GridMap.MovesAreNeighbours | zeos/pacman.c:474-478 | unsigned wrap-around never makes a far cell a legal move |
| PriorityQueue.Enqueue | zeos/pacman.c:5-9 | writes one entry and leaves the others |
| PriorityQueue.Dequeue | zeos/pacman.c:11-25 | returns the first least entry; what stays queued is what the shift and the step leave |
| PriorityQueue.MinIndex | zeos/pacman.c:12-17 | the first position with the least priority |
| PriorityQueue.DequeueExactIff | zeos/pacman.c:19-23 | exactly one entry is removed exactly when the entry stepped over equals the last one |
| PriorityQueue.DequeueLoses | zeos/pacman.c:19-23 | of three different entries the second is lost and the third doubled |
| Dijkstra.Dijkstra | zeos/pacman.c:579-624 | the loops on the arrays compute the answer of the search as a function; no cell is enqueued twice and the queue never overflows |
| ShortestPath.AnswerLeads | zeos/pacman.c:603-608 | every direction it answers is the first step of a real way to the target |
| ShortestPath.AnswerExact | zeos/pacman.c:579-624 | with an exact queue always, and as written while at most two entries wait, the answer is the first step of a shortest way - the one `bfs` finds - and NONE exactly when there is none |
| LossyQueue.DijkstraExactIff | zeos/pacman.c:579-624 | as written it is exact for all free starts and all targets on exactly the maps where no free cell has more than two free neighbours |
| LossyQueue.DetourTaken | zeos/pacman.c:19-23 | on a map of seven free cells it sends its caller on a way twice as long as the shortest |
| LossyQueue.NextToTheStart | zeos/pacman.c:19-23 | for a target next to the start the answer is its direction, and NONE exactly for the second of three or more free neighbours |
| Dijkstra.NearerIffNew | zeos/pacman.c:616 | the distance test succeeds exactly for cells not found before |
| ShortestPath.RestIff | zeos/pacman.c:19-23 | taking one of different waiting cells loses nothing exactly when at most two wait |
| ShortestPath.AfterKeeps | zeos/pacman.c:600-622 | a round keeps the queue in order of discovery, so its first entry stays the nearest, and distances count steps from the start |

## Left out

- The two machines are separate: memory has no scheduler and processes have no pages;
  whether the memory part of a fork succeeds is an argument of the process side.
- Scheduler.Scheduler.Fork: the PCB a failed fork loses also holds a copy of its
  parent's list links; what a later exit of the grandparent does through that copy is
  not modelled, and every run is out of order by then.
- Ring.Del, TaskLists.TaskLists.Remove: an entry deleted twice writes through null
  pointers; the model stops there with a hung kernel instead of writing to page 0.
- Page tables are values in an array of ten, so two names for one table do not
  arise; the page directories and the TLB are not modelled.
- MemoryManager.Memory.PageFault: addresses above the one page table a process has
  (4 MB) index past it and are outside the model. The error branch of the handler
  prints and loops for ever; it is a single outcome here, without the text.
- MemoryManager.Memory.ShmAttach: addresses above 4 MB index past the page table.
- MemoryManager.Memory.ShmDetach: addresses above 4 MB index past the page table.
- Kernel writes into user pages (`copy_to_user`) do not take part in copy-on-write;
  `sys_read` fills the caller's buffer directly.
- Stack contents, kernel_esp, CR3, TSS and MSR: a task switch changes who is current.
- PIDs, tick counts and attachment counts do not wrap at 32 bits.
- `dead_sons` is never used by the code; `sys_numsons` subtracts one from a count
  that is exact already and is not modelled.
- `access_ok`, `perror`, file descriptors, the screen and the clock of the game.
- The scan codes and character table of the keyboard interrupt: a key is a character.
- `size` of the keyboard buffer is never updated by the code.
- `dfs` marks `visited` with its coordinates swapped and adds nothing to breadth-first
  search; the game itself (ghosts, scores, rendering) is not modelled.
- GridSearch.Bfs: with the start for a target it reads a cell of `previous` it never
  wrote; the model asks for different cells.
- Dijkstra.Dijkstra: with the start for a target it reads outside `previous`; the model
  asks for different cells.
- Digits.Itodeca, Digits.Itohexa: the caller's buffer has room for the longest text.
- Blocks.CopyData: a destination that overlaps the source from above is not promised
  anything, as the copy goes upwards.
