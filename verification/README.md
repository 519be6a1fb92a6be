# A model of the Pintos kernel

This project models, in Dafny, the parts of the Pintos kernel whose correctness rests on invariants that span
several functions, and proves those invariants for every input, every run and every reachable state.  Where the
kernel changes data step by step, the model is a method that does the same and is proved against a specification
function; the properties are then lemmas about that function.  `dafny verify dfyconfig.toml` checks everything.

- `Arithmetic`: 64-bit division from a 64-by-32-bit divide.
- `Words`, `Lists`, `Bitmaps`, `Bytes`: what the rest shares of machine integers, kernel lists, bitmaps and memory.
- `Threads`, `Donation`, `DonationSteps`, `DonationResults`, `DonationLinks`, `SchedulerLaws`, `RoundRobin`, `Kernel`:
  the scheduler, locks and priority donation of project 1.  A step is the code between two points where a thread can
  lose the processor.
- `Inodes`, `Directory`: file data one sector at a time as a flat byte array, and a directory as a finite map.
- `FileSystems`, `FileSteps`, `FileRuns`, `FileLaws`, `FileSys`: who owns which disk sector and which file a handle is
  for, while files are created, opened, removed and closed.
- `Malloc`, `Heap`: the size-class allocator on top of the page allocator.
- `Processes`, `ProcessResults`, `ProcessRuns`, `ProcessLaws`, `ProcessTable`: exec, wait and exit of project 2.
- `PageTables`, `PageDirs`: two-level page tables as a flat map, and what the processor lets user code do.
- `Synch`, `SynchSteps`, `SynchResults`, `SynchLaws`, `SynchCode`: semaphores, locks and condition variables of
  project 2, with interrupts possible between any two statements that do not run with interrupts off.
- `Sorting`, `Printf`, `PrintfLaws`, `Conversions`, `Atoi`, `Octal`, `Ustar`, `Tokens`: library algorithms.
- `InitStack`, `LoadSegment`: a new process's stack and segments.
- `Timer`: sleeping until a tick.

Nine results say where the code does not do what its comments promise, and exactly when it does:

- `umod64` and `smod64` return 32 bits; they return the remainder for every dividend exactly for divisors of at most
  2^32 and 2^31 in magnitude (`Arithmetic.UMod64Exact`, `Arithmetic.SMod64Exact`), and `sdiv64` is wrong for one pair
  (`Arithmetic.SDiv64Exact`).
- A waiter's beneficiary field is cleared only when it finally gets the lock, so after a release it can name the old
  holder; a later `lock_acquire` can then close a cycle that donation would follow for ever, although nothing is
  deadlocked (`DonationResults.CycleWithoutDeadlock`; `DonationSteps.AcquireKeepsIff` gives the exact condition).
- `filesys_create` loses the file's data sectors for ever exactly when the inode is made, the size is not 0 and the
  name cannot be added, for instance because it exists (`FileRuns.LeakIff`, `FileRuns.FirstCreateLeaks`,
  `FileRuns.LostForEver`); this is where no read of a directory entry fails.
- `malloc` returns a block smaller than asked for exactly for the last 11 sizes (`Heaps.PageCntHolds`), and `realloc`
  then copies past it exactly if the old block has more than one page (`Heaps.CopyInsideIff`).
- A lock taken while another thread still waits for it leaves that thread's donation behind, so the new holder can
  run below it (`DonationLinks.InversionAfterHandOver`); only such a step does so, and without one no holder ever runs
  below a waiter (`DonationLinks.LinkedNextIff`, `DonationLinks.NoInversion`).
- A read of a directory entry that fails for want of memory ends a scan, and `dir_add` can then enter a name twice or
  overwrite another one (`Directory.AddedIff`, `Directory.NameTwice`, `Directory.NameLost`).
- `init_stack` writes past its page of pointers for some command lines of more than 1023 words
  (`InitStack.PointersFitIff`, `InitStack.ManyWords`).
- A field is padded on both sides, to more than its width, exactly when "0" comes with a width that is a negative
  argument (`Conversions.ParsedWidthIff`, `Conversions.PaddedTwice`).
- `list_max` with the kernel's <= comparison picks the last of several equal threads (`Lists.LastOfTheLargest`): the
  ready list, to which threads are added at the front, is first in, first out among equal priorities, and a
  semaphore's waiters, which are added at the back, are last in, first out.

## Model

| member | source | states |
|---|---|---|
| `Arithmetic.Nlz` | proj1/src/lib/arithmetic.c:42-73 | for a nonzero 32-bit word the five tests count exactly the leading zero bits: shifting left by that many brings a 1 to the top and loses nothing |
| `Arithmetic.EstimateTight` | proj1/src/lib/arithmetic.c:121-123 | when the divisor has more than 32 bits, `divl` gets a quotient that fits 32 bits, and the shifted estimate is floor(n/d) or floor(n/d)+1 |
| `Arithmetic.CorrectionExact` | proj1/src/lib/arithmetic.c:124 | the correction neither wraps nor is wrong: the remainder test is below d exactly when the estimate was one too large |
| `Arithmetic.ShortDivision` | proj1/src/lib/arithmetic.c:106-111 | for a one-word divisor the plain quotient and that of `divl` fit 32 bits and the two digits together are floor(n/d) |
| `Arithmetic.UDiv64` | proj1/src/lib/arithmetic.c:78-127 | the whole algorithm returns floor(n/d) for every 64-bit n and nonzero d |
| `Arithmetic.UMod64` | proj1/src/lib/arithmetic.c:132-135 | the 32-bit result is the remainder modulo 2^32 |
| `Arithmetic.UMod64Exact` | proj1/src/lib/arithmetic.c:132-135 | it is the remainder for every n if and only if d is at most 2^32 |
| `Arithmetic.SDiv64Exact` | proj1/src/lib/arithmetic.c:140-146 | signed division truncates toward zero if and only if the operands are not INT64_MIN and -1 |
| `Arithmetic.SMod64Exact` | proj1/src/lib/arithmetic.c:151-154 | signed remainder is that of truncating division for every n if and only if the divisor is at most 2^31 in magnitude |
| `Arithmetic.TruncModBounds` | proj1/src/lib/arithmetic.c:148-154 | the truncating remainder has the magnitude of the remainder of the magnitudes |
| `Lists.ListMax` | proj1/src/lib/kernel/list.c:493-508 | the loop returns the index that the comparison picks: the specification function MaxIndex |
| `Lists.LastOfTheLargest` | proj1/src/lib/kernel/list.c:493-508 | with a comparison by <=, `list_max` picks the last of the largest elements and no other |
| `Lists.FirstOfTheLargest` | proj1/src/lib/kernel/list.c:493-508 | with a comparison by <, it picks the first of the largest |
| `Lists.WithoutContents` | proj1/src/lib/kernel/list.c:249-255 | removing an element of a duplicate-free list removes that element, keeps all others and leaves no duplicates |
| `Donation.PathDistinct` | proj1/src/threads/thread.c:409-414 | a chain of beneficiaries that ends never meets a thread twice, so the recursion terminates |
| `Donation.PathUnique` | proj1/src/threads/thread.c:366-374 | the chain from a thread is determined |
| `Donation.AcyclicExtend` | proj1/src/threads/synch.c:208-221 | setting a beneficiary keeps the graph acyclic if and only if the donor is not on the chain that starts at the holder |
| `Donation.PropagateSettles` | proj1/src/threads/thread.c:366-405 | on an acyclic chain of any length, propagation leaves every thread on it at the maximum of its own priority and the donations linked to it, and every element on it at its donor's current priority; nothing else changes |
| `Donation.ScheduleChooses` | proj1/src/threads/thread.c:595-605 | the thread chosen has maximal priority among the ready ones (the last of them), and the idle thread runs exactly when no thread is ready |
| `Donation.ScheduleKeeps` | proj1/src/threads/thread.c:661-674 | after a switch exactly one thread is running, the ready list holds exactly the ready non-idle threads once each, and all donation invariants hold |
| `Donation.YieldKeeps` | proj1/src/threads/thread.c:331-344 | the same holds after a yield |
| `DonationSteps.AcquireKeepsIff` | proj1/src/threads/synch.c:202-229 | `lock_acquire` keeps the beneficiary graph acyclic, and all other invariants, if and only if the lock is free or the caller is not on its holder's beneficiary chain |
| `DonationSteps.ReleaseKeeps` | proj1/src/threads/synch.c:257-267 | `lock_release` up to the yield inside `sema_up` keeps all invariants |
| `DonationSteps.FinishReleaseKeeps` | proj1/src/threads/synch.c:269-273 | and so does its end, where the releaser's priority is recomputed |
| `DonationSteps.SetPriorityKeeps` | proj1/src/threads/thread.c:378-386 | `thread_set_priority` keeps all invariants, whatever the new base priority |
| `DonationSteps.BlockKeeps` | proj1/src/threads/thread.c:243-250 | `thread_block` keeps all invariants |
| `DonationSteps.UnblockKeeps` | proj1/src/threads/thread.c:261-272 | `thread_unblock` of a blocked thread keeps all invariants |
| `DonationSteps.CreateKeeps` | proj1/src/threads/thread.c:168-210 | `thread_create` keeps all invariants |
| `DonationSteps.StepKeeps` | proj1/src/threads/thread.c:243-674 | every step keeps all invariants if and only if it is not the one that closes a beneficiary cycle |
| `DonationSteps.RunKeeps` | proj1/src/threads/thread.c:243-674 | all invariants hold in every state of every run without such a step |
| `DonationSteps.BootGood` | proj1/src/threads/thread.c:88-118 | the state with a main and an idle thread satisfies them |
| `DonationResults.AtLeastEveryDonor` | proj1/src/threads/thread.c:366-405 | a thread runs at no less than the current and the base priority of every thread that donates to it, directly or through others |
| `DonationResults.AttainedByADonor` | proj1/src/threads/thread.c:391-405 | and its priority is the base priority of itself or of some such donor: donation never overshoots |
| `DonationResults.ReleaseDropsDonations` | proj1/src/threads/synch.c:257-273 | after `lock_release` the releaser keeps only donations for locks it still holds |
| `DonationResults.HolderNext` | proj1/src/threads/synch.c:202-273 | in any step a lock loses its holder only by that holder's own release, and gets one only while it has none: the thread whose acquiring goes through |
| `DonationLinks.LinkedNextIff` | proj1/src/threads/synch.c:202-273 | while every thread inside `lock_acquire` for a held lock is linked to the holder, any step keeps it so if and only if it does not take a free lock that another thread still waits for |
| `DonationLinks.NoInversion` | proj1/src/threads/synch.c:202-273 | over every run from boot without such a step, each lock holder runs at no less than every thread that waits for the lock |
| `DonationLinks.InversionAfterHandOver` | proj1/src/threads/synch.c:202-273 | a reachable state after such a step in which a holder at priority 1 keeps a waiter at 31 waiting |
| `DonationResults.ElementUnlinked` | proj1/src/threads/synch.c:223-229 | a thread that is not waiting for a lock has its donation element in no list, even where its beneficiary field still names a thread |
| `DonationResults.UpWakes` | proj1/src/threads/synch.c:109-130 | `sema_up` wakes the last waiter of the highest priority, and only it |
| `DonationResults.CycleWithoutDeadlock` | proj1/src/threads/synch.c:202-229 | a reachable state in which a legal `lock_acquire` closes a cycle of two beneficiaries because a stale beneficiary field is still set, although the holder of the other lock goes on running |
| `SchedulerLaws.SetPriorityIs` | proj1/src/threads/thread.c:378-386 | `thread_set_priority (p)` sets the caller's base priority to p and its priority to the maximum of p and its donations, raised or lowered, and no other thread's; afterwards nobody ready is above the running thread, and the caller runs or is ready |
| `SchedulerLaws.StepProfile` | proj1/src/threads/thread.c:168-386 | over every step: a base priority changes only by the thread's own `thread_set_priority`, to its argument, a new thread starts with the one it was given, and where a thread continues changes only by its own step or when it is unblocked |
| `SchedulerLaws.HighestNext` | proj1/src/threads/thread.c:243-344 | over every step: nobody ready is above the running thread after a step that schedules, and this lasts unless a thread above it is unblocked |
| `SchedulerLaws.StepWaiters` | proj1/src/threads/synch.c:61-130 | over every step: a lock's waiters change only when the running thread joins at the back to sleep, or its release takes out the last of those of the highest priority |
| `SchedulerLaws.PromisedNext` | proj1/src/threads/synch.c:61-273 | every step keeps this: if a lock is free and threads sleep on it, a thread that waits for it is awake |
| `SchedulerLaws.NeverForgotten` | proj1/src/threads/synch.c:61-273 | and so it holds throughout every safe run: no lock is left free with its waiters asleep and nobody woken |
| `RoundRobin.ScheduleTurn` | proj1/src/threads/thread.c:595-605 | the scheduler never passes over a thread that has been ready longer for one of no higher priority |
| `RoundRobin.TurnNext` | proj1/src/threads/thread.c:243-344 | over every step: a thread of no higher priority than w that is not running and behind w stays so as long as w waits, and a running one gives way to w in the first step that schedules |
| `RoundRobin.NotOvertaken` | proj1/src/threads/thread.c:243-344 | over every safe run: while w waits, a thread of no higher priority that gave way to it does not run again |
| `Kernels.Kernel.ThreadUpdatePriority` | proj1/src/threads/thread.c:391-405 | sets the current maximum of base priority and linked donations |
| `Kernels.Kernel.ThreadUpdateDonation` | proj1/src/threads/thread.c:366-374 | the recursion terminates and changes the state as propagation along the chain does |
| `Kernels.Kernel.DonateToHolder` | proj1/src/threads/synch.c:208-221 | links the donor's element and propagates, or does nothing when the lock is free |
| `Kernels.Kernel.ThreadReleasePriorities` | proj1/src/threads/thread.c:419-439 | unlinks exactly the donations for locks no longer held |
| `Kernels.Kernel.NextThreadToRun` | proj1/src/threads/thread.c:595-605 | takes the chosen thread off the ready list, or answers the idle thread |
| `Kernels.Kernel.ThreadYield` | proj1/src/threads/thread.c:331-344 | the caller goes to the front of the ready list (unless idle) and the chosen thread runs, as the specification function Yield says; all invariants hold |
| `Kernels.Kernel.ThreadBlock` | proj1/src/threads/thread.c:243-250 | the caller is blocked and the chosen thread runs, as the specification function Block says; all invariants hold |
| `Kernels.Kernel.ThreadUnblock` | proj1/src/threads/thread.c:261-272 | the thread is ready and at the front of the ready list, and all invariants hold |
| `Kernels.Kernel.ThreadSetPriority` | proj1/src/threads/thread.c:378-386 | the caller's base priority is the argument, every thread on the beneficiary chain is recomputed, the processor is yielded and nobody ready is above who runs; all invariants hold (SchedulerLaws.SetPriorityIs says the rest) |
| `Kernels.Kernel.SemaUp` | proj1/src/threads/synch.c:109-130 | the waiter picked by `list_max` becomes ready, and the value grows by one |
| `Kernels.Kernel.SemaDown` | proj1/src/threads/synch.c:61-76 | one turn of the loop: joins the waiters and blocks at value 0, else takes the unit and the lock |
| `Kernels.Kernel.LockAcquire` | proj1/src/threads/synch.c:202-229 | the new state is the one the specification gives, with all invariants exactly when the step was safe |
| `Kernels.Kernel.LockAcquireRetry` | proj1/src/threads/synch.c:223-229 | after a wakeup: takes the lock or waits again, keeping all invariants |
| `Kernels.Kernel.LockRelease` | proj1/src/threads/synch.c:257-267 | holder cleared, donations for this lock unlinked, the best waiter made ready and the processor yielded; all invariants hold |
| `Kernels.Kernel.LockReleaseFinish` | proj1/src/threads/synch.c:269-273 | the releaser's priority becomes the maximum of its base and its remaining donations, and it yields; all invariants hold |
| `Inodes.Inode.ReadAt` | proj1/src/filesys/inode.c:201-250 | the sector-by-sector loop returns min(size, length - offset), clipped at 0, and copies exactly those bytes of the flat file; the rest of the buffer stays (with the exact count when the bounce buffer cannot be allocated) |
| `Inodes.Inode.WriteAt` | proj1/src/filesys/inode.c:258-318 | writes exactly those bytes, none while writes are denied, and changes no other byte of the disk |
| `Inodes.Inode.WriteChunk` | proj1/src/filesys/inode.c:284-308 | one chunk; the branch that would start from a sector of zeros is never taken |
| `Inodes.ReadAfterWrite` | proj1/src/filesys/inode.c:201-318 | a read after a write gives the written bytes where the two overlap and the old ones elsewhere |
| `Inodes.OtherFileUntouched` | proj1/src/filesys/inode.c:258-318 | a file that shares no byte with the bytes written keeps its contents |
| `Directory.Dir.Lookup` | proj1/src/filesys/directory.c:92-112 | finds the first entry in use with the name, exactly when no read up to it fails for want of memory |
| `Directory.Dir.Add` | proj1/src/filesys/directory.c:142-179 | writes a valid name that the lookup did not see into the slot where the scan ended, whichever reads failed; otherwise no slot changes |
| `Directory.AddedExactly` | proj1/src/filesys/directory.c:142-179 | when no read fails, an add succeeds exactly for a name of 1 to 14 characters that is not there, when a slot is free and can be written; then the directory is the old map with the name added, else the old map |
| `Directory.AddedIff` | proj1/src/filesys/directory.c:156-175 | whatever reads failed, a successful add yields the old map with the name added if and only if the chosen slot is free or the name's own and no other slot in use has the name |
| `Directory.NameTwice` | proj1/src/filesys/directory.c:152-175 | adding a name again while the first read of the lookup fails leaves it in the directory twice |
| `Directory.NameLost` | proj1/src/filesys/directory.c:156-175 | adding a name while the first read of the scan for a slot fails overwrites another |
| `Directory.Dir.Erase` | proj1/src/filesys/directory.c:185-207 | succeeds exactly when the name is seen before a read fails and its entry can be written, and then the directory is the old map without it |
| `Directory.Dir.ReadDir` | proj1/src/filesys/directory.c:222-236 | returns the next name in use and skips none; it stops only at the end or at a read that fails |
| `Directory.ListsTheMap` | proj1/src/filesys/directory.c:222-236 | from position 0 each name in use is listed exactly once, and nothing else |
| `Directory.AddedMap` | proj1/src/filesys/directory.c:171-175 | rewriting a free slot adds one name and affects no other |
| `Directory.RemovedMap` | proj1/src/filesys/directory.c:204-207 | clearing a slot removes its name and affects no other |
| `Directory.RoomMeansSlot` | proj1/src/filesys/directory.c:159-169 | a slot is free exactly when there are fewer names than slots |
| `Bitmaps.Scan` | proj1/src/lib/kernel/bitmap.c:296-310 | finds the first run of cnt equal bits at or after the start, or shows that there is none |
| `Bitmaps.ScanIsFirstRun` | proj1/src/lib/kernel/bitmap.c:296-310 | that determines the result |
| `FileSystems.Allocate` | proj1/src/filesys/free-map.c:28-41 | takes a run of free sectors, or leaves the map as it was, also when the map cannot be written |
| `FileSteps.InodeOpenKeeps` | proj1/src/filesys/inode.c:112-142 | opening a linked inode keeps one in-memory inode per open sector and adds one reference; the map is untouched |
| `FileSteps.InodeCloseKeeps` | proj1/src/filesys/inode.c:164-186 | closing keeps the invariant; sectors are freed only by the last close of a removed inode, and then exactly its own |
| `FileSteps.MayClose` | proj1/src/filesys/free-map.c:45-50 | the assertion in `free_map_release` never fails |
| `FileSteps.UnlinkedKeeps` | proj1/src/filesys/inode.c:191-195 | removing a name leaves the file alive for those who have it open |
| `FileSteps.DenyAllowKeeps` | proj1/src/filesys/file.c:119-141 | the count of denials is the number of handles that deny, and the assertions on it never fail |
| `FileSteps.FileOpenKeeps` | proj1/src/filesys/file.c:18-34 | a handle takes over the reference; without memory the reference is given back |
| `FileRuns.CreateCases` | proj1/src/filesys/filesys.c:46-59 | `filesys_create` has three outcomes: nothing at all has changed, the file is there, or it was made and could not be named |
| `FileRuns.CreateKeeps` | proj1/src/filesys/filesys.c:46-59 | in all three every linked or open inode has all its sectors marked and shares none with another |
| `FileRuns.LeakIff` | proj1/src/filesys/filesys.c:46-59 | it leaves marked sectors without an owner if and only if the inode was made, the size is not 0 and the name could not be added |
| `FileRuns.StepSettles` | proj1/src/filesys/filesys.c:67-91 | every other operation frees exactly the sectors of inodes that have lost their last name and handle, and marks none |
| `FileRuns.StepKeeps` | proj1/src/filesys/filesys.c:46-91 | every operation keeps the ownership invariant |
| `FileRuns.StepTight` | proj1/src/filesys/filesys.c:46-91 | every operation keeps "marked means owned" if and only if it is not such a create |
| `FileRuns.LostForEver` | proj1/src/filesys/filesys.c:46-91 | a sector lost that way is never allocated or freed again |
| `FileRuns.RunKeeps` | proj1/src/filesys/filesys.c:46-91 | the ownership invariant holds throughout every run |
| `FileRuns.RunTight` | proj1/src/filesys/filesys.c:46-91 | marked is owned throughout every run without such a create |
| `FileRuns.LiveMeans` | proj1/src/filesys/inode.c:164-195 | an inode is in use exactly while it has a name or an open handle |
| `FileRuns.OthersKeepTheirBytes` | proj1/src/filesys/inode.c:258-318 | writing inside one open file leaves the bytes of every other open file alone |
| `FileRuns.FormatGood` | proj1/src/filesys/filesys.c:95-103 | formatting succeeds exactly on a device of at least four sectors, and the file system it makes satisfies the invariant, with every marked sector owned |
| `FileRuns.FirstCreateLeaks` | proj1/src/filesys/filesys.c:45-103 | on any formatted device of at least six sectors, creating a file of one byte with an invalid name leaves a marked sector without an owner |
| `FileLaws.AllocateIs` | proj1/src/filesys/free-map.c:28-41 | an allocation succeeds exactly when there is a run of free sectors and the map can be written, and then takes the first such run and marks it and nothing else |
| `FileLaws.CreateIs` | proj1/src/filesys/filesys.c:46-59 | `filesys_create` succeeds exactly when the name can be added, there are a free sector and then a run of free ones, and no memory or write fails; then the name stands for a new inode of that length, in sectors that were all free, and nobody else's name, inode or handle is touched |
| `FileLaws.OpenIs` | proj1/src/filesys/filesys.c:67-77 | `filesys_open` gives a handle exactly when the name exists and memory suffices; it is a new one, for the file of that name, and every other handle, the directory and the disk stay; otherwise nothing has changed |
| `FileLaws.ReopenIs` | proj1/src/filesys/file.c:39-42 | `file_reopen` gives a second handle on the same file exactly when there is memory, and touches no other |
| `FileLaws.CloseIs` | proj1/src/filesys/file.c:46-54 | after `file_close` that handle is gone and every other stands for the file it did |
| `FileLaws.DenyIs` | proj1/src/filesys/file.c:119-141 | after `file_deny_write` that handle denies writes and the inode counts it, after `file_allow_write` it does not; nothing else differs |
| `FileLaws.DeniedIff` | proj1/src/filesys/file.c:119-141 | writes to a file are denied exactly while some handle on it denies them |
| `FileLaws.RemoveIs` | proj1/src/filesys/filesys.c:84-91 | `filesys_remove` succeeds exactly when the name exists, memory suffices and the entry can be written; then that name is gone and no other, and every handle, also one on that file, stands for what it did |
| `FileLaws.HandleNext` | proj1/src/filesys/filesys.c:46-91 | over every operation: a handle stands for its file until its own close, and only its own deny and allow change whether it denies writes |
| `FileLaws.HandleBorn` | proj1/src/filesys/filesys.c:67-77 | over every operation: a handle appears only by an open, for the file of that name, or a reopen, for the same file |
| `FileLaws.DirectoryNext` | proj1/src/filesys/filesys.c:46-91 | over every operation: names come and go only by a create and a remove that succeed |
| `FileLaws.HandleStays` | proj1/src/filesys/filesys.c:46-91 | over a whole run: as long as a handle is not closed it stands for the same file, whatever is created, removed or opened |
| `FileSys.FileSystem.FreeMapAllocate` | proj1/src/filesys/free-map.c:28-41 | scan and flip, then flip back when the map cannot be written: the net effect is that of the specification function Allocate |
| `FileSys.FileSystem.CreateInode` | proj1/src/filesys/inode.c:73-106 | the new inode's extent is allocated and recorded, or nothing happens |
| `FileSys.FileSystem.OpenAt` | proj1/src/filesys/inode.c:112-142 | the search loop finds the open inode if there is one, else a new one goes to the front of the list |
| `FileSys.FileSystem.CloseInode` | proj1/src/filesys/inode.c:164-186 | drops a reference; the last one unlinks the inode and, if removed, releases both its sector and its extent |
| `FileSys.FileSystem.OpenFile` | proj1/src/filesys/file.c:18-34 | a new handle, or the inode closed again |
| `FileSys.FileSystem.ReopenFile` | proj1/src/filesys/file.c:39-42 | a second handle on the same inode |
| `FileSys.FileSystem.CloseFile` | proj1/src/filesys/file.c:46-54 | allows writes again and closes the inode, keeping the invariant |
| `FileSys.FileSystem.FilesysCreate` | proj1/src/filesys/filesys.c:46-59 | inode sector, extent and name in turn, with the inode sector given back on any failure, as the specification function Create says; the invariant holds |
| `FileSys.FileSystem.FilesysOpen` | proj1/src/filesys/filesys.c:67-77 | a handle exactly when the name exists and memory suffices; it is a new one for the file of that name, with its contents, and all others stay; otherwise no reference is kept; the invariant holds |
| `FileSys.FileSystem.FilesysRemove` | proj1/src/filesys/filesys.c:84-91 | the name goes exactly when it exists and its entry can be written; sectors go too if nobody has the file open; the invariant holds |
| `Malloc.LiveBlocksApart` | proj1/src/threads/malloc.c:90-154 | live blocks share no byte and lie inside their arena, clear of its header |
| `Malloc.NewArenaSound` | proj1/src/threads/malloc.c:124-146 | a new arena's blocks go on the free list once each and are not live |
| `Malloc.PopSound` | proj1/src/threads/malloc.c:148-153 | taking the front block makes exactly that block live, and free counts stay exact |
| `Malloc.PushSound` | proj1/src/threads/malloc.c:236-242 | freeing makes exactly that block not live, and free counts stay exact |
| `Malloc.DropSound` | proj1/src/threads/malloc.c:241-253 | dropping a wholly free arena takes its blocks off the list and concerns no live block |
| `Malloc.NewBigSound` | proj1/src/threads/malloc.c:107-119 | a block of whole pages is live and apart from all others |
| `Malloc.ArenaAdded` | proj1/src/threads/malloc.c:107-146 | an arena on pages that were free: the pages allocated to others stay exactly what they were |
| `Malloc.ArenaDropped` | proj1/src/threads/malloc.c:241-264 | an arena that is given back takes along its own pages and no others |
| `Heaps.PageCntHolds` | proj1/src/threads/malloc.c:107-110 | the pages computed for a big block hold the request if and only if the size is at most 2^32 - 12 |
| `Heaps.Heap.PallocGetMultiple` | proj1/src/threads/palloc.c:71-101 | the first run of free pages, or none exactly when there is no such run |
| `Heaps.Heap.PallocFreeMultiple` | proj1/src/threads/palloc.c:118-142 | exactly those pages become free, so it undoes the allocation that took them; they must all be in use |
| `Heaps.Heap.FindDesc` | proj1/src/threads/malloc.c:100-104 | the smallest size class that fits |
| `Heaps.Heap.Malloc` | proj1/src/threads/malloc.c:90-154 | null exactly for size 0 or when memory is out, and then nothing changed; else one more live block, large enough unless the size is one of the last 11; pages allocated to others are not touched and none is lost |
| `Heaps.Heap.Free` | proj1/src/threads/malloc.c:219-264 | exactly that block stops being live; pages return exactly when it was the last live block of its arena, or a big block, and only its own |
| `Heaps.Heap.Realloc` | proj1/src/threads/malloc.c:195-214 | the new block begins with the first min(old, new) bytes, the old one is gone and every other live block keeps its bytes; it fails exactly for size 0 or when memory is out, and then nothing has changed; no page is lost or taken from others |
| `Heaps.CopyInsideIff` | proj1/src/threads/malloc.c:195-214 | for every size, what is copied fits the new block if and only if the size is not one of the last 11 or the old block has at most 4084 bytes |
| `Heaps.CopyOverrun` | proj1/src/threads/malloc.c:195-214 | growing a block of two pages to the largest size copies 8180 bytes into a block of 4084 |
| `ProcessRuns.StepKeeps` | proj2/src/userprog/process.c:40-270 | every step of exec, load, exit, kill and wait keeps the invariant on processes and records |
| `ProcessRuns.RunKeeps` | proj2/src/userprog/process.c:40-270 | it holds throughout every interleaving |
| `ProcessRuns.NothingDangles` | proj2/src/userprog/process.c:40-270 | every record that a live process is about to read exists; one that sleeps can go on, or its child is still loading (exec) or alive (wait) |
| `ProcessRuns.SomeoneCanGo` | proj2/src/userprog/process.c:40-270 | there is no waiting in circles: while a process is alive, some process can take a step |
| `ProcessRuns.WaitFindsChildren` | proj2/src/userprog/process.c:138-164 | `process_wait` blocks exactly for a child whose status has not been collected, and otherwise returns -1 at once |
| `ProcessRuns.WaitableNext` | proj2/src/userprog/process.c:40-174 | exactly the own exec makes a process one's child, and exactly the own completed wait ends that |
| `ProcessRuns.EndedNext` | proj2/src/userprog/process.c:178-270 | the status recorded is the one passed to exit, or -1 for a killed process or a failed load, and it never changes |
| `ProcessRuns.WaitReturnsStatus` | proj2/src/userprog/process.c:165-174 | a wait that completes returns the child's status, and afterwards no record of that child exists |
| `ProcessRuns.ExitStatusDelivered` | proj2/src/userprog/process.c:138-270 | over a whole run: what a child passed to exit is what any later wait for it returns |
| `ProcessRuns.CollectedOnce` | proj2/src/userprog/process.c:138-174 | over a whole run: once a wait for a child has completed, every later wait for it, by anyone, returns -1 at once |
| `ProcessRuns.FreedOnce` | proj2/src/userprog/process.c:165-214 | a record is freed only by its wait or by its owner's exit, and never again |
| `ProcessRuns.StartUppedOnce` | proj2/src/userprog/process.c:83-249 | `sema_start` is upped in the one step that settles whether the load succeeded, which never changes |
| `ProcessRuns.ExecReturnsChild` | proj2/src/userprog/process.c:70-78 | exec returns the child's id exactly when it was loaded, and the child can then be waited for |
| `ProcessLaws.AliveNext` | proj2/src/userprog/process.c:40-270 | over every step: a process is born by an exec, with the next id and still to be loaded, and ends only by its own exit, kill or failed load |
| `ProcessLaws.StepPlace` | proj2/src/userprog/process.c:40-270 | over every step: a process changes its place only by its own step, and then runs on unless it has to sleep on the record it has just made (exec) or on that of the child it waits for (wait) |
| `ProcessLaws.ReturnsRunning` | proj2/src/userprog/process.c:70-174 | exec and wait come back to a caller that can exec, wait and exit, with its children as they were but the one collected |
| `ProcessLaws.RecordNext` | proj2/src/userprog/process.c:40-270 | over every step: a record stays about the same child, and its owner keeps it until it collects it or ends |
| `ProcessLaws.WaitCollects` | proj2/src/userprog/process.c:138-174 | over a whole run: a wait that slept comes back about the child it was called for |
| `ProcessLaws.ExecReturnsItsChild` | proj2/src/userprog/process.c:40-118 | over a whole run: exec comes back with the id of the child it made if and only if that child was loaded in between |
| `ProcessResults.ExecKeeps` | proj2/src/userprog/process.c:40-70 | creating a record and a thread keeps the invariant |
| `ProcessResults.LeaveKeeps` | proj2/src/userprog/process.c:178-253 | `process_exit` keeps it: children lose their pointer to the freed records, the own record is marked |
| `ProcessResults.ReturnWaitKeeps` | proj2/src/userprog/process.c:165-174 | freeing the record after a wait keeps it |
| `ProcessTable.Table.Execute` | proj2/src/userprog/process.c:40-70 | a fresh record, a new thread tied to it, and the caller asleep on `sema_start`, as the specification says |
| `ProcessTable.Table.CreateThread` | proj2/src/threads/thread.c:169-202 | the new thread takes the record at the back of its creator's list |
| `ProcessTable.Table.FinishExecute` | proj2/src/userprog/process.c:70-78 | takes the unit of `sema_start` and returns the child's id if it was loaded, else TID_ERROR, to a caller that can exec, wait and exit; the invariant holds |
| `ProcessTable.Table.Started` | proj2/src/userprog/process.c:83-118 | records the outcome of the load, then ups `sema_start`, itself or through its exit; the invariant holds |
| `ProcessTable.Table.Await` | proj2/src/userprog/process.c:138-164 | the search loop finds the record with that id and the caller sleeps on it, or -1 is returned at once; the invariant holds |
| `ProcessTable.Table.FinishWait` | proj2/src/userprog/process.c:165-174 | the status is read, then the record leaves the list and is freed; the invariant holds |
| `ProcessTable.Table.ProcessExit` | proj2/src/userprog/process.c:178-234 | the loop over the children frees each record and clears exactly the pointer to it; then the own record is marked and the semaphores upped |
| `ProcessTable.Table.SyscallExit` | proj2/src/userprog/process.c:256-270 | the status is stored in the own record before the process leaves; the invariant holds |
| `PageTables.SamePage` | proj1/src/threads/pte.h:32-39 | two addresses use the same entry exactly when they are in the same page |
| `PageTables.RawInjective` | proj1/src/threads/pte.h:60-68 | the fields of an entry determine and are determined by its 32-bit word |
| `PageTables.StoredLookup` | proj1/src/userprog/pagedir.c:57-119 | storing an entry changes the lookup of that page and of no other address |
| `PageTables.TableAdded` | proj1/src/userprog/pagedir.c:69-81 | hanging a zeroed page table under the directory changes no lookup |
| `PageTables.CreatedRaw` | proj1/src/threads/pte.h:71-98 | the words made for a table, a kernel page and a user page: the physical address with bits 0 (present), 1 (writable) and 2 (user) as asked |
| `PageTables.RightsLookup` | proj1/src/threads/pte.h:58-98 | the processor grants a right only if the directory entry and the page table entry both do; in a valid directory, whose entries leave all rights, the page table entry decides |
| `PageTables.FlatRights` | proj1/src/threads/pte.h:58-98 | user code may use and write a user address exactly as the flat map says of its page |
| `PageTables.OwnedMeans` | proj1/src/userprog/pagedir.c:28-48 | what the nested loops visit is exactly the user page tables and the frames that user pages are mapped to |
| `PageDirs.Paging.Create` | proj1/src/userprog/pagedir.c:17-23 | the new directory maps no user page and the kernel's pages as before, with the same rights to every address |
| `PageDirs.Paging.LookupPage` | proj1/src/userprog/pagedir.c:57-86 | finds the entry, creating a page table if asked to and possible; no entry changes its value |
| `PageDirs.Paging.SetPage` | proj1/src/userprog/pagedir.c:99-119 | the flat map gains exactly this page with this frame, for user code, writable if asked; what the processor allows changes to just that on this page and nowhere else; it fails only for want of a page for the table |
| `PageDirs.Paging.GetUserPage` | proj1/src/userprog/pagedir.c:126-137 | frame plus offset if the flat map has the page, else null |
| `PageDirs.Paging.ClearPage` | proj1/src/userprog/pagedir.c:144-157 | the page leaves the flat map and may no longer be used; every other bit of every entry and the rights to every other address stay |
| `PageDirs.Paging.IsDirty` | proj1/src/userprog/pagedir.c:164-168 | the dirty flag of the page's line in the flat map, or of its entry if it is not mapped |
| `PageDirs.Paging.SetDirty` | proj1/src/userprog/pagedir.c:173-186 | sets the dirty flag of this page's entry, if there is one, be it user or kernel; every other entry and the rest of the flat map stay |
| `PageDirs.Paging.IsAccessed` | proj1/src/userprog/pagedir.c:193-197 | the accessed flag of the page's line in the flat map, or of its entry if it is not mapped |
| `PageDirs.Paging.SetAccessed` | proj1/src/userprog/pagedir.c:202-215 | sets the accessed flag of this page's entry in the same way |
| `PageDirs.Paging.Destroy` | proj1/src/userprog/pagedir.c:28-48 | gives back each mapped frame, each user page table and the directory exactly once, and nothing else |
| `SynchResults.NoLostWakeup` | proj2/src/threads/synch.c:61-121 | a thread sleeps on a semaphore with a positive value only if a woken thread is on its way to it |
| `SynchResults.MutualExclusion` | proj2/src/threads/synch.c:193-236 | at most one thread is between `lock_acquire` and `lock_release` |
| `SynchResults.FreeLockIsTaken` | proj2/src/threads/synch.c:193-236 | a lock nobody is inside has value 1, and if threads wait for it one of them is on its way |
| `SynchResults.SignalNotLost` | proj2/src/threads/synch.c:288-302 | a signal that came between `cond_wait`'s release and its down makes that down go through at once |
| `SynchResults.NotOvertaken` | proj2/src/threads/synch.c:287-338 | over a whole run, while a waiter has not been signalled no thread that began to wait after it has been |
| `SynchResults.SignalNext` | proj2/src/threads/synch.c:288-338 | each wait is queued, signalled, delivered and consumed once, in this order, by these steps and no other |
| `SynchResults.StepKeeps` | proj2/src/threads/synch.c:61-338 | every step of every thread keeps the invariant |
| `SynchResults.RunKeeps` | proj2/src/threads/synch.c:61-338 | it holds throughout every interleaving |
| `SynchLaws.SemNext` | proj2/src/threads/synch.c:61-121 | over every step: which semaphore it downs or ups; a down takes a unit or, if there is none, waits at the back unless it only tries; an up adds a unit and takes off the first waiter; nothing else changes a semaphore |
| `SynchLaws.StepThread` | proj2/src/threads/synch.c:61-338 | over every step: where each thread goes on, by its own step or because it was the first waiter of an upped semaphore, and that it holds a lock from setting to clearing the holder |
| `SynchLaws.WaitReturnsHolding` | proj2/src/threads/synch.c:288-302 | over a whole run: when `cond_wait` comes back its caller holds the lock, and has been signalled in between |
| `SynchLaws.AcquireReturnsHolding` | proj2/src/threads/synch.c:193-203 | over a whole run: when `lock_acquire` comes back its caller holds the lock |
| `SynchLaws.DownReturns` | proj2/src/threads/synch.c:61-76 | over a whole run: `sema_down` comes back in a step that takes one unit |
| `SynchLaws.WokenInOrder` | proj2/src/threads/synch.c:61-121 | over a whole run: while a thread that sleeps on a semaphore has not been woken, none that came after it has been |
| `SynchLaws.BroadcastSignalsAll` | proj2/src/threads/synch.c:331-338 | over a whole run: when `cond_broadcast` comes back every thread that was waiting has had its signal, and nobody is left in the queue |
| `SynchLaws.SignalSignalsFirst` | proj2/src/threads/synch.c:312-323 | over a whole run: when `cond_signal` comes back the longest waiter has had its signal |
| `SynchSteps.UpSems` | proj2/src/threads/synch.c:109-121 | an up keeps "no more units than threads on their way" on every semaphore with waiters, and value = initial + ups - downs |
| `SynchSteps.DownKeeps` | proj2/src/threads/synch.c:61-76 | a down, blocking or not, keeps the invariant |
| `SynchCode.Synchronizer.SemaDown` | proj2/src/threads/synch.c:61-76 | one turn of the loop: joins the waiters and blocks at value 0, else takes the unit and goes on: back to the caller, on to set the lock's holder, or in a wait to acquire the condition's lock; the invariant holds |
| `SynchCode.Synchronizer.SemaUp` | proj2/src/threads/synch.c:109-121 | the longest waiter is unblocked and the value grows by one |
| `SynchCode.Synchronizer.LockRelease` | proj2/src/threads/synch.c:229-236 | the `sema_up` of a release, after which nobody is inside the lock; the invariant holds |
| `SynchCode.Synchronizer.CondWait` | proj2/src/threads/synch.c:288-300 | the waiter's semaphore is initialised and queued last before the lock is released; the invariant holds |
| `SynchCode.Synchronizer.CondSignal` | proj2/src/threads/synch.c:312-338 | the longest waiter is taken off the queue for the caller to wake, if there is one; the invariant holds |
| `Sorting.RootIsLargest` | proj1/src/lib/stdlib.c:94-123 | the root of a heap is at least every other element |
| `Sorting.Heapify` | proj1/src/lib/stdlib.c:97-123 | sinking one element restores the heap below it and only rearranges |
| `Sorting.Sort` | proj1/src/lib/stdlib.c:132-152 | any array ends up in order, as a permutation of what it was |
| `Sorting.BinarySearch` | proj1/src/lib/stdlib.c:185-207 | terminates, and returns a match if and only if one exists |
| `Printf.BufferFits` | proj1/src/lib/stdio.c:475-524 | no 64-bit value overflows the 64-byte buffer, in any base, grouping, precision or flags |
| `Printf.Aux.Output` | proj1/src/lib/stdio.c:46-52 | keeps the text so far up to the limit and counts all of it |
| `Printf.Aux.OutputDup` | proj1/src/lib/stdio.c:551-555 | writes the character that many times |
| `Printf.Aux.FormatInteger` | proj1/src/lib/stdio.c:470-547 | writes exactly the field: padding, sign, prefix, zeros and digits |
| `Printf.Aux.Terminate` | proj1/src/lib/stdio.c:37-41 | the buffer holds the longest prefix that fits and a null; the full length is returned |
| `PrintfLaws.NumeralIs` | proj1/src/lib/stdio.c:502-515 | the digits read as the number, start with no zero and, if grouped, have a comma at every fourth place from the right (every fifth in hexadecimal) and nowhere else |
| `PrintfLaws.DigitsIs` | proj1/src/lib/stdio.c:517-526 | before them come just as many zeros as the precision needs, and one at least for "%#o" |
| `PrintfLaws.TextIs` | proj1/src/lib/stdio.c:470-547 | the field is sign and prefix by the flags, zeros and digits, filled up to the width with blanks on the left, on the right with "-", or with zeros after the prefix with "0" |
| `PrintfLaws.TextWidth` | proj1/src/lib/stdio.c:528-547 | it has its width, or is just as long as it must be, unless both "-" and "0" are given |
| `PrintfLaws.ReadsBack` | proj1/src/lib/stdio.c:470-547 | for every value, base, flags, grouping, width and precision, a reader that knows only the base gets back the number and whether it was negative |
| `Conversions.ShowRead` | proj1/src/lib/stdio.c:340-460 | parsing the text of any flags, width, precision and length gives them back, except that "-" and a precision override "0" and "+" overrides a space; it stops at the conversion character and takes no argument |
| `Conversions.LongestPrefix` | proj1/src/lib/stdio.c:340-460 | what is parsed has the form of a conversion, and no longer prefix of the text has, however it is divided into flags, width, precision and length |
| `Conversions.ParseConversion` | proj1/src/lib/stdio.c:340-460 | the loops parse as the specification function does; `*` takes its number from the arguments and the others are left |
| `Conversions.ParsedWidthIff` | proj1/src/lib/stdio.c:370-546 | the field for a parsed conversion misses its width exactly when "0" is given without "-", the width is a negative argument, there is no precision or a negative argument for it, and there is something to pad |
| `Conversions.BothIff` | proj1/src/lib/stdio.c:370-417 | parsing leaves both "-" and "0" exactly when "0" is given without "-", the width is a negative argument, and there is no precision or it is a negative argument too |
| `Atoi.RoundTrip` | proj1/src/lib/stdlib.c:10-41 | for every 32-bit v and any width, precision and flags but grouping, reading the formatted text gives v, with no overflow on the way |
| `PrintfLaws.AtoiIs` | proj1/src/lib/stdlib.c:10-41 | on any string `atoi` reads past white space, takes a sign if there is one, and gives the number that the following decimal digits denote |
| `Atoi.Atoi` | proj1/src/lib/stdlib.c:10-41 | returns the value of the string, with an accumulator that stays in the range of int |
| `Ustar.StripTwice` | proj1/src/lib/ustar.c:66-73 | the stripped name has no such prefix and stripping it again changes nothing |
| `Ustar.StripAntisocialPrefixes` | proj1/src/lib/ustar.c:66-73 | the loop terminates with the stripped name |
| `Ustar.SumOutside` | proj1/src/lib/ustar.c:37-54 | the checksum does not depend on its own field |
| `Ustar.CalculateChksum` | proj1/src/lib/ustar.c:37-54 | the loop returns the sum of all bytes with the checksum field counted as spaces |
| `Ustar.MakeHeader` | proj1/src/lib/ustar.c:83-118 | succeeds exactly when the stripped name has at most 99 bytes, with every field of the header as required; else the header is untouched |
| `Ustar.RoundTrip` | proj1/src/lib/ustar.c:83-227 | parsing what was written returns the stripped name, the type, and the size (0 for a directory); for a negative size it reports that the file is too large |
| `Ustar.AcceptedIff` | proj1/src/lib/ustar.c:182-227 | a block is accepted exactly if it has the magic, the version, its own checksum, a name that ends in its field, no prefix, a known type and, for a file, a size of at most INT_MAX; then these are returned, with the name stripped |
| `Ustar.OneByteDetected` | proj1/src/lib/ustar.c:37-54 | changing any one byte of an accepted block outside the checksum field makes it an error |
| `Ustar.ParseBlock` | proj1/src/lib/ustar.c:182-227 | the loops and checks return what ParseHeader says, and so end of archive, the file, or the first failure that applies |
| `Octal.FieldText` | proj1/src/lib/ustar.c:83-118 | a value that fits is written as exactly that many octal digits |
| `Octal.ParseField` | proj1/src/lib/ustar.c:130-162 | a field of octal digits for a 32-bit value parses to that value |
| `Octal.ParseIff` | proj1/src/lib/ustar.c:130-162 | a field, whoever wrote it, is accepted with value v exactly if it is one or more octal digits for v up to a space or null inside it, and v fits 32 bits |
| `Octal.ParseOctalField` | proj1/src/lib/ustar.c:130-162 | the loop accepts and rejects fields as the specification function Parse does |
| `Tokens.StrtokR` | proj1/src/lib/string.c:235-275 | returns the next word, cut off in place, or null when none is left; what remains holds the other words |
| `Tokens.WordsAre` | proj1/src/lib/string.c:235-275 | words are not empty and contain no delimiter |
| `Tokens.WordsOfJoined` | proj1/src/lib/string.c:235-275 | words written with delimiters after them are read back as they were |
| `InitStack.Stack.PushWord` | proj2/src/userprog/process.c:849-867 | one word goes below the others, which stay where their pointers say; it fails exactly if it would reach the first byte of the page |
| `InitStack.Stack.PushWords` | proj2/src/userprog/process.c:847-867 | the loop stores exactly as many pointers as words fit the page and touches no other; it fails exactly if the strings alone fill the page |
| `InitStack.PointersFitIff` | proj2/src/userprog/process.c:847-877 | a command line keeps to the page of pointers if and only if it has at most 1023 words, or at most 1025 and strings that fill the stack page to the last byte |
| `InitStack.ManyWords` | proj2/src/userprog/process.c:847-877 | 1024 one-letter words fit the command line and take 1025 pointers |
| `InitStack.Stack.Align` | proj2/src/userprog/process.c:872-875 | pads to a multiple of 4 without leaving the page |
| `InitStack.Stack.PushPointers` | proj2/src/userprog/process.c:877-889 | the null and the pointers, in order; fails exactly if they do not fit |
| `InitStack.Stack.Init` | proj2/src/userprog/process.c:826-922 | success exactly when all of it fits one page (and memory is there); then esp is a multiple of 4, and argc, argv and the strings read back from it are the words of the command line in order, with a null after the last |
| `LoadSegment.ValidMeans` | proj2/src/userprog/process.c:696-736 | a header is accepted exactly when the segment lies in user memory above page 0, without wrapping, and agrees with the file |
| `LoadSegment.ValidArgs` | proj2/src/userprog/process.c:643-663 | every accepted header meets the assertions of `load_segment`, with no 32-bit wrap |
| `LoadSegment.AddressSpace.Load` | proj2/src/userprog/process.c:753-795 | the page loop terminates; it succeeds exactly when the file has the bytes and every page can be allocated, is not mapped yet and can be entered; then every page of the segment is mapped with its bytes; only pages of the segment are new, and pages mapped before are untouched |
| `LoadSegment.AddressSpace.LoadHeader` | proj2/src/userprog/process.c:638-666 | succeeds exactly for a valid header whose bytes the file has and whose pages are all available; then the memory of the segment holds the file's bytes and then zeros, with its permission |
| `Timer.InsertSorted` | proj1/src/devices/timer.c:108-121 | inserting a sleeper keeps the list sorted by deadline |
| `Timer.DueExactly` | proj1/src/devices/timer.c:200-232 | in a sorted list the sleepers that are due are exactly those at the front |
| `Timer.EventExact` | proj1/src/devices/timer.c:200-232 | a tick wakes exactly the sleepers whose deadline it reaches, and nobody is lost or woken twice |
| `Timer.WokenAtFirst` | proj1/src/devices/timer.c:108-232 | over a whole run: a sleeper waits through every tick before its deadline and the first at or after it wakes it |
| `Timer.TicksPass` | proj1/src/devices/timer.c:200-203 | the time is the number of ticks |
| `Timer.SleepsFor` | proj1/src/devices/timer.c:108-232 | over a whole run, with ticks also between reading the time and joining the list: `timer_sleep (n)` is woken by the first tick on the list by which n have been counted since the call, and by none before |
| `Timer.Clock.Begin` | proj1/src/devices/timer.c:108-115 | the deadline is the time of the call plus the ticks asked for |
| `Timer.Clock.Sleep` | proj1/src/devices/timer.c:108-121 | the insertion loop puts the sleeper before the first that waits longer, so equals are first come, first served, and the list stays sorted |
| `Timer.Clock.Interrupt` | proj1/src/devices/timer.c:200-232 | the wake-up loop wakes the due prefix of the list, in order, and stops |

## Left out

- Heaps.Heap.Realloc: for one of the last 11 sizes and an old block of more than one page the source writes past the new block; the model requires that this is not so (`Heaps.CopyInsideIff`).
- InitStack.Stack.Init: a command line that writes past the page of pointers is not modelled; `InitStack.PointersFitIff` says which do.
- PageDirs.Paging.SetPage: as the source asserts, the page must not be mapped yet; remapping is not modelled.
- Atoi.Atoi: where a step of the conversion would overflow an int the C behaviour is undefined, and the model requires that none does.
- FileSys.FileSystem.DenyWrite: as the source asserts, a handle's denial must leave the count at most the number of openers; `FileSteps.DenyAllowKeeps` shows that it always does.
- `thread_exit` and the death of threads in the project 1 scheduler.
- Plain semaphores and condition variables of project 1; those of project 2 are modelled.
- Preemption inside a step of the project 1 scheduler, of `process_exit` and of the file system, which are taken as atomic.
- Address-space switching, TLB flushes, interrupt frames and the assembly behind `switch_threads` and `divl` (taken to be an exact 64-by-32-bit divide).
- Poison fills of freed memory, the link fields inside free blocks, and `calloc`.
- Files and their bytes inside `process_exit` and `start_process`: only the records, semaphores and pointers are modelled there.
- Failures of memory allocation in `process_execute` and `thread_create`, which the source does not handle either.
- The write-back of the free map to its file: that it succeeds or fails is a parameter, its bytes are not modelled.
- The root directory's own open and close around each file system call, which cancel out.
- The file position of a handle, file growth, and the zeroing of a new file's sectors.
- 32-bit overflow in `bytes_to_sectors` for sizes within 511 bytes of 2^31.
- FileSystems.CanAdd: in the file system lifecycle the directory is the finite map that `Directory.Dir` is proved to be, so no read of an entry during an add fails for want of memory; `Directory.AddedIff` says exactly when the directory stays that map.  A lookup that fails in this way counts as one that finds nothing.
- Arithmetic.SDiv64: signed operations wrap, as in two's complement; in C an overflow is undefined.
- Arithmetic.SMod64: likewise.
- Conversions.ParseConversion: widths and precisions are unbounded integers; in C, one past the range of int (or a width argument of INT_MIN) is undefined.
- `format_string` and the dispatch on conversion characters in `__vprintf`.
- `%d` with grouping is formatted but not read back: `atoi` stops at a comma.
- ELF header checks in `load` other than the program header, and `setup_stack`.
- `list_sort`, `list_unique` and the rest of `list.c` and `bitmap.c`, hardware drivers, `intq.c`, `random.c`, `gdt.c`, `partition.c`, user programs and utilities.
