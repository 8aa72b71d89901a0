# Verified model of the 64-bit kernel core

A Dafny model of the stateful core of a small x86-64 kernel: paging with copy-on-write
and frame accounting, the process table, the ext2 driver, the image loader, the window
pool and stacking, the descriptor table, and the QOI encoder of its asset script.  The
model does what the C and Python code does, branch by branch, and the proofs say what that
code achieves on every input, in every reachable state and over every run.

`dafny verify dfyconfig.toml` checks everything.

## How it is built

* **Paging.** `PageTables` is a heap of 512-entry tables and the hardware walk (section 4.5
  of the Intel SDM, volume 3A).  Ghost labels say which space owns a table, its level and
  its prefix; separation is a local fact about labels.  `Vmm.Manager` is the memory manager
  with its bitmap, counts and tables updated in place.  `SpaceCopy`, `CloneShape`,
  `CloneSteps` and `SpaceTear` are the theory behind its recursive clone and teardown;
  `CloneUndo` and `MapUndo` compose operations with their inverses.
* **Address spaces.** `AddressSpaces` is the machine one level up: each section under
  `mem_lock` is one atomic step, and references whose release is deferred past an unlock
  wait in the list of the CPU that owes them.  Exact counts and fork isolation are proved
  over all its runs.  `Refinement` proves that what `Vmm.Manager` does to page tables is a
  step of this machine, `Coverage` that its invariant gives the manager what it asks for, and
  `Machine.Tasks` puts the two together: the page-table code itself, called section by
  section for tasks on several CPUs.  `UserSlots` is the part of a space that boot has no
  directory for, where all of a task's own mappings lie; `MachineSteps` and `MachineSound`
  take the invariant through one section at a time, and `MachineRuns` through whole runs.
  `PagingLimits` holds two spaces at which the code does not do what it promises.
* **Processes.** `Scheduler` makes each section under `sched_lock` one atomic step of one
  CPU and proves its invariants over all interleavings.  `ProcessTable.Table` is the table
  with the scanning loops, each method proved to be the corresponding step.
* **ext2.** `Ext2Layout` (words, bits, geometry), `Ext2Blocks` (pointers, owners, bytes),
  `Ext2Files` (what one edit does), `Ext2Space` (blocks needed and blocks there),
  `Ext2Volume.Volume` (the driver), `Ext2Dirs` and `Ext2Names` (directories), `Ext2Audit` (the mount-time rebuild), and `Ext2Limits`, volumes at
  which the driver does not do what its design promises.
* **The rest.** `Loader.Space`, and `Images`, which writes flat images as the build script and
  ELF files as the ELF-64 object file format do and loads them; `WindowPool` / `Windows` / `WindowServer.Server`,
  `FileDescriptors.OpenFiles`, and `Qoi`, whose decoder follows the QOI specification v1.0
  as the bundled `qoi.h` implements it.

## Results

* Every run of map, fork, CLONE, COW fault, unmap, teardown and deferred put keeps each data
  frame's count equal to the leaves and pending puts that name it; a put frees a frame
  exactly when nothing names it any more (`RunExact`, `PutHeadKeeps`).
* Without CLONE, what every task sees after any run is what it would see had each fork copied
  all its pages at once (`RunRefines`).
* The same holds of the page-table code: from boot on, any sequence of spawning, forking,
  CLONE, faulting, growing, shrinking, storing, ending and flushing sections on any CPUs keeps
  the counts exact and does each call exactly when the state before it allows it; without CLONE
  it makes of the views of tasks what the same calls make of private memories
  (`MachineRuns.Run`), and what a task sees is what its own calls alone make of its memory
  (`MachineRuns.Isolated`).  Once no task is left and every CPU has flushed, CLONE or not,
  exactly the frames boot left in use are in use (`MachineRuns.AllReturned`).
* On every interleaving of the scheduler's sections a task running on a CPU stays the same
  task, running there, until that CPU itself takes a step (`Scheduler.RunningStays`), and no
  sleeper is ever past its deadline (`Scheduler.NeverOversleeps`).  No task stays READY over 32
  passes of a CPU that only preempts (`Scheduler.RoundRobin`), and the status a waiter is given
  is the one that task called exit with (`Scheduler.ExitsFrom`).
* Clone takes no more frames than it reserved; clone followed by teardown restores every bit
  and count, except for display pages (`Reservation`, `CloneUndone`, `CloneThenTeardown`).
* An image, flat or ELF, is loaded exactly when its header and regions are right, no page of
  it is there or barred by a mapping of boot, no two segments share one, and the free frames
  pay for its pages and for the page tables that are missing; then it stands byte for byte,
  and no frame is lost whether it is loaded or not (`Loader.Space.LoadImage`).  What a build
  script packs, or an ELF file says, is what stands in memory (`Images.LoadMct2File`,
  `Images.LoadElfFile`).
* Any run of writes and truncations leaves each file with the bytes the same edits make of a
  plain byte sequence; an edit succeeds exactly when the disk before it admits it, down to the
  number of blocks left, and ownership of blocks holds on every path (`RunEdits`).
* A name is added to a directory exactly when a record of it has room or one more block can be
  had (`Ext2Names.DirAdd`).
* Encoding any RGBA image and decoding the result gives back the same pixels, and which chunk
  stands for which pixels is determined, down to the byte of a colour met again (`Encode`,
  `MetAgain`, `IndexByte`).

Where the code does not do what its comments or design promise, the code is modelled as it
is, an input at which it shows is given, and the exact condition is proved:

* `vmm_teardown_space` hangs, waiting for the lock it holds, exactly when the space has more
  than 256 user pages or more than 63 tables below its root (`Vmm.Manager.Teardown`); a space
  of 257 pages does (`PagingLimits.TeardownOf`).
* A clone followed by a teardown changes a frame that was in use exactly when it is a display
  page the space maps: it is never counted, but it is put (`CloneUndo.CloneUndone`).  With one
  such page the frame ends up free and still mapped (`PagingLimits.DisplayLost`).
* A zombie becomes uncollectable exactly when its parent exits first; it then keeps its slot
  and its space for ever (`Scheduler.StrandedOnly`, `Scheduler.StrandedForever`).  A program
  that forks and exits after its child, without waiting, does it (`Scheduler.StrandedRun`).
* A sleep of delta ticks ends with the tick that makes delta of them, no earlier and no later,
  exactly when its deadline does not wrap to 0, the mark for no deadline; then no tick ends it
  (`Scheduler.SleepExact`).  A sleep of more than 2^63 ticks does not block at all
  (`Scheduler.SleepBlocks`).
* The mount audit establishes the allocator's invariant exactly when each block belongs to one
  pointer and is no metadata, every inode that holds a pointer is one the audit visits (marked
  in use, with a mode, not reserved), and its blocks lie in its own group; any other block
  loses its bit (`Ext2Audit.AuditSound`, `Ext2Audit.CrossGroupLost`).  One file in another
  group suffices (`Ext2Limits.AuditLoses`), or one reserved inode with a block in its own group
  (`Ext2Limits.AuditSkips`).
* Truncation frees every block past the new end exactly when fewer than 12 blocks are kept or
  the table maps nothing past it (`Ext2Volume.CutComplete`); a file of 14 blocks cut to 13
  keeps its last one (`Ext2Limits.CutKeeps`).
* `ex_dir_add` stores up to 64 bytes of a name and `ex_lookup` searches for its first 63, so a
  longer name is not found again: the answer is the old one for its 63-byte prefix
  (`Ext2Names.AddThenLookup`, `Ext2Names.LongNameMissed`).  `fd_open`, the only caller of
  `ex_create`, refuses such names (k64/fd64.c:91).

## Model

| member | source | states |
|---|---|---|
| `Frames.CountFreeUpdate` | k64/mem64.c:156-162 | setting or clearing one bitmap bit moves the number of free frames by exactly one, or not at all |
| `Frames.CountFreeZero` | k64/mem64.c:164-181 | the free count is zero if and only if every frame is in use, so allocation fails only then |
| `PageTables.PathInjective` | k64/mem64.c:294-300 | two pages with the same four 9-bit indices are the same page |
| `PageTables.VaIndices` | k64/mem64.c:294-300 | the walker's shifts and masks are the indices of the page number at each level |
| `PageTables.CanonicalInjective` | k64/mem64.c:265-269 | on canonical page-aligned addresses the page number determines the address, and only then |
| `PageTables.WalkElsewhere` | k64/mem64.c:290-310 | writing one slot changes no walk of another page, nor any walk of another space |
| `PageTables.WalkNewTable` | k64/mem64.c:275-287 | hanging an empty table under an absent slot changes no walk at all |
| `Vmm.Manager.Alloc` | k64/mem64.c:164-181 | the lowest free frame, marked, counted once and zeroed; 0 exactly when none is free; all else unchanged |
| `Vmm.Manager.Put` | k64/mem64.c:190-203 | one reference less, saturating at 0; the bit is cleared exactly at 0 and the free count follows; tables stay well formed when nothing names the frame |
| `Vmm.Manager.FreeRaw` | k64/mem64.c:190-194 | clears the bit and counts it once, leaving the reference count alone |
| `Vmm.Manager.RefInc` | k64/mem64.c:212-215 | one reference more, saturating at 65535 |
| `Vmm.Manager.NextTab` | k64/mem64.c:275-287 | the child table, new and empty where there was none, changing no walk; 0 exactly at a large page or without memory for a missing table |
| `Vmm.Manager.LeafTable` | k64/mem64.c:294-300 | the leaf table of a page on a path owned by one space, exactly if no large page is in the way and the missing tables can be had; on failure no walk has changed |
| `Vmm.Manager.MapPage` | k64/mem64.c:290-310 | succeeds exactly for a canonical aligned absent page with rights the CPU has and frames for the missing tables; then the page walks to the frame with the given rights, and no other page of any space changes; on failure no walk changes |
| `Vmm.Manager.UnmapPage` | k64/mem64.c:319-335 | succeeds exactly for a canonical aligned address mapped by a 4 KB leaf, own or shared; then that page is absent and no other page changes, and for a user page no other space either |
| `Vmm.Manager.Translate` | k64/mem64.c:346-365 | frame and offset at the 4 KB, 2 MB, 1 GB or 512 GB leaf where the walk ends, 0 for non-canonical or absent |
| `MapUndo.MapThenTranslate` | k64/mem64.c:290-365 | after a successful map every byte of the page translates to pa plus its offset |
| `MapUndo.MapThenUnmap` | k64/mem64.c:290-335 | unmap undoes map: no page of any space walks differently afterwards |
| `Vmm.Manager.CowResolve` | k64/mem64.c:649-703 | spurious exactly at a writable page that is not copy-on-write, upgraded exactly at a copy-on-write page with count 1, copied exactly at another one with a frame free, else refused; the page afterwards; every other page and space unchanged; the old frame is owed one put |
| `Vmm.Manager.CountClone` | k64/mem64.c:454-463 | the number of user tables below a table |
| `SpaceCopy.Reservation` | k64/mem64.c:454-531 | clone_space_reserved asks for exactly the frames clone_level takes, and one more for each PML4 entry that leads to user tables or is a large page, in every well-formed space |
| `Vmm.Manager.CloneLevel` | k64/mem64.c:473-520 | copy and source both walk to the source's leaves, writable ones turned copy-on-write on both sides; counts grow by the leaves; other tables unchanged; it fails only without frames or at a user large page |
| `Vmm.Manager.CloneLeaf` | k64/mem64.c:486-511 | one user leaf: display pages shared uncounted, writable pages copy-on-write on both sides, all others counted once more |
| `Vmm.Manager.CloneSpace` | k64/mem64.c:522-558 | without user large pages it succeeds if and only if the reservation is free, so it never runs out midway; refused for want of frames it changes nothing |
| `CloneSteps.AdvanceTable` | k64/mem64.c:473-520 | linking a copied subtree extends the copy by one entry and disturbs none before it |
| `CloneSteps.AdvanceLeaf` | k64/mem64.c:486-511 | copying a leaf extends the copy by one entry, with the count of its frame |
| `CloneSteps.Finish` | k64/mem64.c:473-520 | after 512 entries the copy mirrors the source page for page |
| `CloneShape.TwinStays` | k64/mem64.c:473-520 | a subtree already mirrored stays a mirror while other leaves are marked and links written |
| `SpaceTear.EntryReady` | k64/mem64.c:595-628 | when the collector reaches an entry, the comparison with boot there is right and the frames below it are those of the start |
| `SpaceTear.TearFrees` | k64/mem64.c:574-641 | putting the leaves and freeing the tables of one space leaves every other space well formed and mapping used frames |
| `Vmm.Manager.TearCollect` | k64/mem64.c:595-628 | records exactly the user leaves and private tables of the space in table order, touching no table outside it; stuck exactly when they do not fit |
| `Vmm.Manager.Collect` | k64/mem64.c:630-639 | the first locked section: hangs if and only if the lists do not hold the space; otherwise its leaves and tables are listed, its tables are no longer anyone's, and no other table changes |
| `Vmm.Manager.FlushFree` | k64/mem64.c:574-583 | each data frame loses one reference per listing and is freed at its last; each listed table is freed |
| `Vmm.Manager.Teardown` | k64/mem64.c:630-641 | hangs if and only if there are more than 256 leaves or 63 tables below the root; otherwise exactly the private tables are freed, each leaf drops one reference, no other table changes, and if the counts cover the other spaces all they map stays in use |
| `CloneUndo.TwinLeaves` | k64/mem64.c:473-520 | the copy lists the same user frames as its source, in the same order |
| `CloneUndo.TwinTabs` | k64/mem64.c:473-520 | the copy has exactly as many tables as the clone took frames |
| `CloneUndo.CloneApart` | k64/mem64.c:595-628 | in a fresh clone the comparison with boot tells private from shared correctly |
| `CloneUndo.CloneUndone` | k64/mem64.c:473-641 | after clone and teardown a frame is as before if and only if it is not a display page the space maps |
| `CloneUndo.CloneThenTeardown` | k64/mem64.c:522-641 | refused exactly without the reservation, stuck exactly when the source has more than 256 pages or 64 tables to copy, its root included; otherwise a frame is as before if and only if it is not a display page the space maps, and without such pages the bitmap and the free count are restored |
| `AddressSpaces.StepKeeps` | k64/mem64.c:164-215 | every locked section keeps each data frame's count equal to the leaves and pending puts naming it |
| `AddressSpaces.RunExact` | k64/mem64.c:574-703 | on every run from boot the counts stay exact, so no mapped or owed frame is free |
| `AddressSpaces.PutHeadKeeps` | k64/mem64.c:197-203 | after a put the frame is allocated if and only if a leaf or another pending put names it, even with several resolvers at work |
| `AddressSpaces.CountBound` | k64/mem64.c:212-215 | leaves are bounded by live spaces and pending puts by CPUs, so the 16-bit count never saturates |
| `AddressSpaces.UnmapKeeps` | k64/task64.c:569-596 | a brk batch turns leaves into pending puts without changing any total |
| `AddressSpaces.LoseRaceKeeps` | k64/task64.c:619-648 | a lost demand race leaves its frame owed exactly one put |
| `AddressSpaces.CowCopyKeeps` | k64/mem64.c:683-699 | the copying COW step moves one leaf to the fresh frame and one reference into the pending list |
| `AddressSpaces.TeardownKeeps` | k64/mem64.c:630-641 | the locked half of a teardown turns every leaf of the space into a pending put |
| `AddressSpaces.StepProtects` | k64/mem64.c:486-511 | no step but CLONE makes a frame with two leaves writable through either |
| `AddressSpaces.StepRefines` | k64/isr64.c:96-105 | one step on shared frames is the same step on private memories; only a store needs that no shared frame is writable |
| `AddressSpaces.RunRefines` | k64/mem64.c:473-545 | fork isolation: over any run without CLONE every task sees exactly what eager copying would show it |
| `Refinement.SpaceListed` | k64/mem64.c:595-628 | the frames the collector lists are the leaves the walks denote, each page once |
| `Refinement.CountIsSlots` | k64/mem64.c:473-520 | what a clone adds to a count is the number of pages of the space on that frame |
| `Refinement.SimMap` | k64/mem64.c:290-310 | mapping a fresh frame in the tables is the abstract map step |
| `Refinement.SimUpgrade` | k64/mem64.c:675-682 | the in-place upgrade of a leaf is the abstract upgrade step |
| `Refinement.SimCopy` | k64/mem64.c:683-699 | the copying resolution is the abstract copy step with its pending put |
| `Refinement.SimUnmap` | k64/task64.c:579-588 | unmapping one page more extends a batch: the section so far is the abstract unmap of the pages so far, with one pending put each |
| `Refinement.SimFork` | k64/mem64.c:522-558 | cloning the tables is the abstract fork, or the abstract CLONE, counts included |
| `Refinement.SimTeardown` | k64/mem64.c:595-641 | emptying the tables of a space is the abstract teardown, its list the pending puts |
| `Snapshots.AnchoredNew` | k64/mem64.c:275-287 | linking an empty table keeps every private table hanging below the root of its space, where its label says |
| `Coverage.LeafSlot` | k64/mem64.c:290-310 | then every user leaf of a private table is the one the walk of its own space finds at its page |
| `Coverage.TablesListed` | k64/mem64.c:595-628 | then the collector lists exactly the tables of the space |
| `Coverage.CloneAnchored` | k64/mem64.c:473-520 | a clone keeps all this for every space and establishes it for the copy |
| `Coverage.ExactCovers` | k64/mem64.c:574-641 | with exact counts a teardown frees no frame another space maps, and a clone saturates no count |
| `MachineSteps.DrainIs` | k64/mem64.c:574-583 | all pending puts of a CPU, one by one, leave each count and bit as the list says and the invariant intact |
| `MachineSteps.SimNew` | k64/mem64.c:522-531 | a clone of the boot space is a space without user pages that counts nothing |
| `MachineSteps.SimLose` | k64/task64.c:619-648 | a frame taken for a page that was already there is owed one put |
| `MachineSteps.GoodCollect` | k64/mem64.c:630-639 | the locked half of a teardown, at page-table level, is the abstract teardown; the tables wait to be freed and only the view of the space goes |
| `MachineSteps.GoodFlush` | k64/mem64.c:574-583 | the section after a flush does all the puts its CPU owes and frees the tables it set aside: counts stay exact and no view changes |
| `MachineSteps.FlushedFrame` | k64/mem64.c:197-203 | a frame that was put is in use if and only if a page or another pending put names it |
| `UserSlots.SlotOwns` | k64/mem64.c:275-287 | where boot has no page directory, the tables on the path of a page of a task are all its own |
| `UserSlots.ApartTouched` | k64/mem64.c:595-628 | mapping, unmapping or resolving a page there keeps the collector's comparison with boot right for every space |
| `UserSlots.ApartCow` | k64/mem64.c:486-511 | so does marking leaves copy-on-write |
| `UserSlots.PagedNotLarge` | k64/mem64.c:473-520 | a space whose user mappings are 4 KB pages in those slots has no user large page, so clone never meets one |
| `UserSlots.OrderlyTouched` | k64/mem64.c:290-335 | every task keeps its mappings in those slots and compares rightly with boot, whichever task maps or unmaps a page |
| `UserSlots.OrderlyClone` | k64/mem64.c:522-545 | a clone of boot or of a task keeps this for all tasks and establishes it for the copy |
| `MachineSound.SoundCollect` | k64/mem64.c:630-639 | the first section of the end of a space keeps the whole invariant, the listed tables now waiting on that CPU |
| `MachineSound.SoundFlush` | k64/mem64.c:574-583 | the second section keeps it |
| `MachineSound.AllBack` | k64/mem64.c:574-641 | with no task left and nothing pending a frame is in use if and only if boot reserved it or it is a shared table |
| `Machine.Tasks.constructor` | k64/mem64.c:712-885 | a manager with only shared tables and the display reserved, as boot leaves it, is a sound state with no tasks; what boot holds is recorded |
| `Machine.Tasks.Spawn` | k64/task64.c:380-382 | from any sound state: succeeds if and only if a space and the reservation are free; the new task sees an empty memory, the others what they saw |
| `Machine.Tasks.Fork` | k64/task64.c:754-782 | for any task in any sound state: succeeds if and only if a space and the reservation are free; the child sees exactly what the parent sees, all others what they saw; both keep each page in its frame with its right to execute, read-only, and copy-on-write where it was writable |
| `Machine.Tasks.Share` | k64/mem64.c:547-558 | CLONE, for any task in any sound state: succeeds if and only if a space and the reservation are free; the child sees what the parent sees, in the very same frames and with the same rights, all others what they saw; counts stay exact |
| `Machine.Tasks.Fault` | k64/isr64.c:96-101 | a write fault at any page of any task: not refused exactly if the page is writable afterwards, spurious exactly if it was before; a copy-on-write page is refused exactly with no frame free and a count other than 1; no task's view changes |
| `Machine.Tasks.Demand` | k64/task64.c:626-647 | at any page of user space: a zeroed page with the rights asked for appears in that task's view only, exactly if it was absent, the address and rights are allowed and there are frames for it and the missing tables; -1 exactly without a frame; otherwise no view changes and the frame is owed one put |
| `Machine.Tasks.Shrink` | k64/task64.c:574-588 | one section of brk_shrink removes exactly the first pages of the range from that task's view and owes each frame one put; it covers the range or stops at 64 frames |
| `Machine.Tasks.Store` | k64/isr64.c:96-105 | a store to a page the walk finds writable keeps the invariant; with no frame shared by CLONE it changes that word in the writer's view and nothing in any other task's |
| `Machine.Tasks.Collect` | k64/mem64.c:630-639 | hangs if and only if the space has more than 256 pages or 63 tables below its root; otherwise its view goes, no other view changes, and its frames wait on this CPU |
| `Machine.Tasks.Flush` | k64/mem64.c:574-583 | no view changes; a frame put stays in use if and only if a page or another pending put names it; the listed tables are free |
| `MachineRuns.Step` | k64/mem64.c:164-703 | one call on any CPU is done exactly when the state before it enables it, with the effect it has on private memories as long as CLONE shared nothing, and hangs exactly at an oversized space |
| `MachineRuns.Run` | k64/mem64.c:164-703 | any run keeps the invariant; each call in it is done exactly when the state before it enables it, and it stops early exactly at a teardown that hangs; without CLONE what the tasks see at its end is what the same calls make of private memories |
| `MachineRuns.TracedPlays` | k64/mem64.c:473-545 | a run whose steps each have their effect, from a state without sharing and with no CLONE done, is a run on private memories and shares nothing at its end |
| `MachineRuns.Isolated` | k64/mem64.c:473-545 | a task there from start to end sees what its own calls alone make of its memory, whatever the others do |
| `MachineRuns.AllReturned` | k64/mem64.c:574-641 | after any run, CLONE included, that leaves no task and nothing pending, the frames in use are exactly those boot left in use |
| `PagingLimits.TeardownOf` | k64/mem64.c:585-593 | a space of n pages in one table: its teardown hangs if and only if n is more than 256 |
| `PagingLimits.DisplayLost` | k64/mem64.c:491-499 | clone and teardown of a space that maps one display page leave its frame marked free and still mapped |
| `Scheduler.StepKeeps` | k64/task64.c:464-561 | every locked section keeps every invariant: ownership, work in progress, parents, waiters, spaces, deliveries |
| `Scheduler.RunInv` | k64/task64.c:173-224 | the invariants hold in every state of every run from task64_init |
| `Scheduler.OneOwner` | k64/task64.c:682-749 | a RUNNING task is current on exactly the CPU in its last_cpu, and no CPU owns two |
| `Scheduler.RunningStays` | k64/task64.c:682-749 | on every run, whatever other CPUs do and their hints say, a task running on a CPU stays the same task, RUNNING there, until that CPU takes a step |
| `Scheduler.ScheduleRuns` | k64/task64.c:682-749 | a CPU idles if and only if nothing is READY and it gave up nothing; otherwise it runs the READY slot that comes first going round from the one it gave up, its own task last |
| `Scheduler.RoundRobin` | k64/task64.c:682-749 | on every run, while a CPU does nothing but pass from task to task, no task stays READY over 32 of its passes |
| `Scheduler.PickReadyComplete` | k64/task64.c:712-717 | the cyclic scan finds nothing if and only if nothing is READY |
| `Scheduler.NoLostWakeup` | k64/task64.c:464-561 | in every run a task blocked in waitpid has a matching child neither free nor zombie, and no parent link leads to a dead task |
| `Scheduler.ExactlyOnce` | k64/task64.c:513-561 | in every run each exit status is delivered at most once and unaltered, each space is torn down at most once, and never while a task uses it |
| `Scheduler.ExitsGrow` | k64/task64.c:464-507 | recorded statuses, deliveries and teardowns are never rewritten or withdrawn |
| `Scheduler.ExitsFrom` | k64/task64.c:464-507 | on every run the status recorded for a task, and given to its waiter, is the argument of its own exit |
| `Scheduler.NeverOversleeps` | k64/task64.c:785-803 | in every state of every run no blocked task with a deadline is past it |
| `Scheduler.SleepDeadline` | k64/task64.c:660-676 | with wrapping 64-bit ticks the signed comparison is true exactly when the interval, up to half the range, has elapsed |
| `Scheduler.SleepBlocks` | k64/task64.c:660-676 | in every run a fresh sleep blocks if and only if it asks for at most 2^63 ticks; more returns at once |
| `Scheduler.SleepExact` | k64/task64.c:785-803 | in every run the tick that ends a sleep is the one with which delta have passed, if and only if the deadline did not wrap to 0; with deadline 0 no tick ends it |
| `Scheduler.ZombieStep` | k64/task64.c:464-561 | what any section can do to a zombie: nothing, hand it to task 0, or free it |
| `Scheduler.StrandedOnly` | k64/task64.c:477-480 | a zombie becomes uncollectable exactly when its parent exits without having collected it |
| `Scheduler.StrandedForever` | k64/task64.c:477-480 | such a zombie keeps its slot and its space in every continuation of the run |
| `Scheduler.StrandedRun` | k64/task64.c:464-507 | from task64_init: fork, the child exits, the parent exits without waiting; the child is stranded |
| `ProcessTable.Table.constructor` | k64/task64.c:173-224 | the table task64_init leaves is the initial state |
| `ProcessTable.Table.AllocSlot` | k64/task64.c:88-115 | the scan reserves the first free slot above 0, or reports -1 |
| `ProcessTable.Table.Publish` | k64/task64.c:117-121 | a reserved slot becomes READY |
| `ProcessTable.Table.Exit` | k64/task64.c:474-488 | the loops of exit perform the exit step: zombie, orphans to 0, waiting parent woken, whether to reap now |
| `ProcessTable.Table.Reap` | k64/task64.c:501-504 | the second section of exit performs the reap step |
| `ProcessTable.Table.WaitPid` | k64/task64.c:520-558 | the scan performs the wait step; returns the lowest zombie child that matches with its own status and space, -10 exactly without a matching child, else 0, blocking exactly without nohang |
| `ProcessTable.Table.Sleep` | k64/task64.c:663-673 | performs the sleep step and says whether the interval has passed |
| `ProcessTable.Table.OnTick` | k64/task64.c:785-803 | the loop wakes exactly the sleepers whose deadline passed |
| `ProcessTable.Table.Schedule` | k64/task64.c:682-749 | revalidating the hint, demoting, scanning and switching perform the schedule step, which is round robin by `ScheduleRuns` and `RoundRobin` |
| `Ext2Layout.Put16` | k64/ext64.c:64-67 | storing a 16-bit word byte by byte reads back as the word and touches no other byte |
| `Ext2Layout.Put32` | k64/ext64.c:59-63 | storing a 32-bit word byte by byte reads back as the word and touches no other byte |
| `Ext2Layout.BitOfBlock` | k64/ext64.c:506-510 | group and slot of the block a bit stands for are the ones it came from |
| `Ext2Layout.BlockOfBit` | k64/ext64.c:506-510 | every block after 0 has a bit in range that stands for it |
| `Ext2Layout.MetaCovers` | k64/ext64.c:466-493 | every block the driver reads as superblock, descriptor, bitmap or part of an inode table is metadata, and so are the backups in front of a block bitmap |
| `Ext2Layout.MetaOnly` | k64/ext64.c:466-493 | and no other block is |
| `Ext2Blocks.PtrOrder` | k64/ext64.c:134-152 | logical blocks run through direct pointers, table entries and double-indirect entries in order, without a gap |
| `Ext2Blocks.OwnedInjective` | k64/ext64.c:134-152 | under the ownership invariant two pointers to the same block are the same pointer of the same inode |
| `Ext2Blocks.UnmarkedUnused` | k64/ext64.c:495-550 | under the invariant no pointer of any inode names an unmarked block |
| `Ext2Blocks.CountsFlip` | k64/ext64.c:495-590 | flipping a bit and adjusting group and superblock counts keeps both equal to the clear bits |
| `Ext2Blocks.OwnedRetarget` | k64/ext64.c:634-681 | dropping a pointer, or aiming it at a block nobody names, keeps ownership |
| `Ext2Blocks.BytesRetarget` | k64/ext64.c:634-681 | filling a hole with a zeroed block changes no byte of any file |
| `Ext2Files.LinkPtr` | k64/ext64.c:636-663 | hanging a fresh block under a direct pointer or as an empty table keeps ownership and all bytes |
| `Ext2Files.LinkEntry` | k64/ext64.c:664-677 | hanging a fresh block under a table entry keeps ownership and all bytes |
| `Ext2Files.PatchBlock` | k64/ext64.c:822-834 | rewriting a file's block changes that file's bytes in that block, and no other file, table or metadata |
| `Ext2Files.SplicedView` | k64/ext64.c:807-839 | when all chunks are written the file is the old one with the buffer spliced in, and every other file is unchanged |
| `Ext2Files.DroppedUnused` | k64/ext64.c:704-731 | a block whose pointer was cleared is named by nobody, so freeing it is safe |
| `Ext2Space.NeedsOne` | k64/ext64.c:634-681 | mapping one block takes none if it is mapped, two if the table is missing too, else one |
| `Ext2Space.NeedsNext` | k64/ext64.c:634-681 | what a range needs is what its first block needs and what the rest needs once it is mapped |
| `Ext2Space.SpareTake` | k64/ext64.c:495-550 | a block taken is one block less to give out |
| `Ext2Volume.Volume.IsMeta` | k64/ext64.c:466-493 | whether a block is boot, superblock, descriptor, bitmap or inode-table block of any group |
| `Ext2Volume.Volume.AllocBlock` | k64/ext64.c:495-550 | the first block neither metadata nor marked, marked, counted and zeroed; fails exactly when there is none, changing nothing |
| `Ext2Volume.Volume.FreeBlock` | k64/ext64.c:552-590 | refuses metadata; otherwise clears exactly that bit and keeps the counts right |
| `Ext2Volume.Volume.GetBlock` | k64/ext64.c:634-681 | the block behind a logical block, allocated on request, exactly if the blocks it needs are there; no byte of any file and no other block's mapping changes, ownership kept, also when the disk fills up midway |
| `Ext2Volume.Volume.ReadIno` | k64/ext64.c:330-349 | exactly the file's bytes from the offset on, holes as zeros, cut at the size; the error for each refusal |
| `Ext2Volume.Volume.CountBlocks` | k64/ext64.c:684-698 | two sectors for each direct block, for the table and for each of its entries |
| `Ext2Volume.Volume.WriteData` | k64/ext64.c:807-839 | when each refusal is answered; complete if and only if the inode is a file without double-indirect map, the offset is within it, the end is in reach and there are blocks for what is not mapped; then the file is spliced and no other changes; incomplete: inodes on disk unchanged; ownership and counts hold on every path |
| `Ext2Volume.Volume.Truncate` | k64/ext64.c:734-803 | each refusal if and only if its condition holds; otherwise the file is cut to its prefix and other inodes are unchanged; the bits cleared are exactly those of the direct blocks from the new end on and, if and only if fewer than 12 blocks are kept, of the table and all it maps; those pointers become 0 and no others change |
| `Ext2Volume.CutComplete` | k64/ext64.c:750-803 | every block past the new end is among those freed if and only if fewer than 12 blocks are kept or the table maps nothing past it |
| `Ext2Volume.Volume.RunEdits` | k64/ext64.c:734-839 | over any run each write or truncation succeeds exactly when the disk before it admits it, and every file equals the byte sequence the same edits produce; bytes once cut off never reappear |
| `Ext2Dirs.InsertHole` | k64/ext64.c:938-953 | filling a hole keeps the tiling and adds one entry in front |
| `Ext2Dirs.InsertSlack` | k64/ext64.c:954-971 | splitting the slack of a record keeps the tiling and adds one entry behind it |
| `Ext2Dirs.InsertKeeps` | k64/ext64.c:928-973 | insertion at the first place with room keeps the tiling and every old entry, in order, and adds exactly the new one |
| `Ext2Dirs.FreshKeeps` | k64/ext64.c:910-927 | a block with one record is tiled and lists just it |
| `Ext2Dirs.PlaceRoom` | k64/ext64.c:928-973 | the scan finds a place exactly when some record of the block has room behind its own entry |
| `Ext2Dirs.RecordBytes` | k64/ext64.c:954-969 | a stored record byte by byte: inode number, record length, name length, kind |
| `Ext2Dirs.BindingInserted` | k64/ext64.c:288-312 | adding an entry: a component that does not match it is bound as before, one that matches is bound to it or to an entry met earlier |
| `Ext2Names.Lookup` | k64/ext64.c:256-318 | one component, cut to 63 bytes: `.` is the directory itself, any other gives the inode of the first entry that matches, or which of ENOENT, ENOTDIR, EFBIG and EIO applies |
| `Ext2Names.ReadDir` | k64/ext64.c:352-411 | entry number k of the listing with its kind and its name cut to 63 bytes, 0 past the end |
| `Ext2Names.DirAdd` | k64/ext64.c:891-975 | each refusal if and only if its condition holds; succeeds if and only if some record of the directory has room or the directory can grow by a block; then it lists exactly one entry more, is still well formed, and no other file changed; on failure it lists what it did |
| `Ext2Names.AllocInode` | k64/ext64.c:842-888 | the first free inode from 12 on, only its bit set, exact free counts kept exact; fails only when none is free |
| `Ext2Names.Create` | k64/ext64.c:978-1015 | succeeds if and only if the directory takes the name and an inode is free, with the error for each other case; then a fresh empty inode is bound in the directory, else the directory is as it was; exact free inode counts stay exact |
| `Ext2Names.AddedFound` | k64/ext64.c:891-975 | after an insertion a component other than the stored name is bound as before, the stored name of at most 63 bytes to the new inode unless it was bound, and the entry of a longer name is found by no component |
| `Ext2Names.AddThenLookup` | k64/ext64.c:256-318 | insert, which succeeds exactly if the directory takes the name, then lookup: a name of at most 63 bytes that was not bound is found; for a longer one the answer is the old one for its first 63 bytes, ENOENT if and only if they were unbound |
| `Ext2Names.LongNameMissed` | k64/ext64.c:260-263 | a listing where a name of 64 bytes is inserted and its lookup answers the inode of the 63-byte name |
| `Ext2Audit.PtrListIs` | k64/ext64.c:1154-1175 | the audit's traversal of an inode visits exactly the blocks its pointers name |
| `Ext2Audit.AuditGroup` | k64/ext64.c:1106-1213 | one pass marks exactly the group's metadata, the blocks of its visited inodes and padding, and counts the clear bits; any volume whose visited tables can be read |
| `Ext2Audit.RowPads` | k64/ext64.c:1177-1213 | bits past the last block are set |
| `Ext2Audit.Audit` | k64/ext64.c:1082-1222 | skipped exactly when a triple-indirect map exists; else all bitmaps are rebuilt and all counts equal the clear bits |
| `Ext2Audit.RebuiltMarks` | k64/ext64.c:1106-1213 | after it a block is marked if and only if it is metadata or a visited inode of the same group points at it |
| `Ext2Audit.CrossGroupLost` | k64/ext64.c:1144-1176 | a block in use keeps its mark if and only if its inode is marked in use, has a mode, is neither 1 nor 3 to 10, and lies in the block's group |
| `Ext2Audit.AuditSound` | k64/ext64.c:1082-1222 | the rebuild establishes the ownership invariant if and only if each block belongs to one pointer and is no metadata, every inode that holds a pointer is visited, and its blocks lie in its own group |
| `Ext2Audit.AuditExact` | k64/ext64.c:1082-1222 | if every inode that holds a pointer is visited and its blocks lie in its group, a block is marked exactly if it is metadata or in use |
| `Ext2Limits.AuditLone` | k64/ext64.c:1082-1222 | a valid two-group volume with one file at any inode and any data block: after the audit the block is marked, and the volume valid, if and only if the inode is not reserved and the block lies in its group |
| `Ext2Limits.AuditLoses` | k64/ext64.c:1144-1176 | inode 12, of group 0, with its block in group 1: after the audit the block is marked free |
| `Ext2Limits.AuditSkips` | k64/ext64.c:1144-1152 | reserved inode 8 with a block in its own group: after the audit the block is marked free |
| `Ext2Limits.CutKeeps` | k64/ext64.c:750-803 | a valid volume with a file of 14 blocks cut to 13: the block past the end stays marked and mapped |
| `Qoi.ChunkRoundTrip` | third_party/qoi.h:544-575 | reading back the bytes of any chunk gives the chunk, whatever surrounds them |
| `Qoi.Delta` | scripts/mkassets.py:52-67 | the chunk chosen for a pixel makes a decoder at the previous pixel produce exactly it, under any table |
| `Qoi.AgreesRun` | scripts/mkassets.py:33-46 | a flushed run keeps encoder and decoder tables equal up to slot 53 |
| `Qoi.AgreesIndex` | scripts/mkassets.py:48-50 | an index chunk names the same pixel in both tables |
| `Qoi.AgreesNew` | scripts/mkassets.py:51-68 | a spelled-out pixel enters both tables in the same slot |
| `Qoi.DecodePlays` | third_party/qoi.h:533-587 | a decoder run over the bytes of a chunk list produces what the chunks denote, from any chunk on |
| `Qoi.DecodeStream` | third_party/qoi.h:488-590 | a stream that denotes a picture decodes to it, unless its size is one the decoder refuses |
| `Qoi.EncodePixels` | scripts/mkassets.py:33-68 | the encoder's loop emits chunks that denote exactly the input pixels, each the fitting one: the longest run, the slot if it holds the pixel, else the difference |
| `Qoi.Encode` | scripts/mkassets.py:22-70 | decoding the output gives back exactly the input pixels, for every image the decoder accepts; header and end marker byte by byte; each chunk is the fitting one for its pixels |
| `Qoi.MetAgain` | scripts/mkassets.py:47-50 | a colour met again, not displaced from its slot and not a repeat, is written as the one byte (3r + 5g + 7b + 11a) mod 64 |
| `Qoi.IndexByte` | third_party/qoi.h:558-560 | after two colours an index byte shows the one whose 3r + 5g + 7b + 11a it equals modulo 64, the empty colour at any other byte |
| `Qoi.DiffByte` | third_party/qoi.h:561-565 | what a difference byte makes of the pixel before it |
| `Qoi.LumaBytes` | third_party/qoi.h:566-572 | what a luma pair makes of the pixel before it |
| `Qoi.FirstRun` | third_party/qoi.h:573-575 | a stream that begins with a run shows opaque black |
| `Qoi.DeltaShortest` | scripts/mkassets.py:52-67 | no chunk that reaches the pixel without a channel wrapping around is shorter |
| `Loader.Space.MapRange` | k64/loader64.c:77-90 | succeeds if and only if the range is canonical, aligned and of legal size, every page is absent and not barred by boot's large pages or kernel mappings, and the free frames pay for the pages and the missing tables; then exactly those pages and tables appear; no frame is lost either way |
| `Loader.Space.MapPage` | k64/mem64.c:275-310 | one page: fails exactly if it is there, barred, or its missing tables cannot be paid for; tables made before a failure stay and are accounted for |
| `Loader.Space.CopyIn` | k64/loader64.c:124-131 | a copy completes if and only if every byte lies in a mapped page, and then changes exactly those bytes |
| `Loader.Space.LoadMct2` | k64/loader64.c:92-136 | loaded if and only if the header is right and both regions are well placed, open and paid for; then code bytes and zeros stand at the base, text read-only executable, data writable and not executable, and the copies never faulted; no frame is lost |
| `Loader.Space.LoadElf` | k64/loader64.c:167-225 | loaded if and only if the header is right, every PT_LOAD segment passes its checks and is well placed and open, no two share a page, they are not too long together, and the free frames pay for their pages and the missing tables; then each segment's file bytes and zeros stand at base plus vaddr with the rights its flags ask for, and the end is the highest one |
| `Loader.LaidNext` | k64/loader64.c:180-202 | with the segments so far wired, one more can be wired if and only if the image with it still fits |
| `Loader.Space.LoadImage` | k64/loader64.c:227-245 | short images are refused untouched, ELF is told by its magic; success exactly as the two formats say; loaded means every segment, or the flat image, stands byte for byte; no page is both writable and executable with NX on and no frame is lost, whatever the outcome |
| `Loader.SegElsewhere` | k64/loader64.c:207-219 | copying one segment leaves the bytes of every other segment in place |
| `Loader.ImageMapped` | k64/loader64.c:112-123 | the two regions of an MCT2 image cover every byte of it |
| `Images.Mct2Read` | scripts/build_mct64.py:116-118 | the words the build script packs are the words the loader reads |
| `Images.LoadMct2File` | k64/loader64.c:92-136 | a packed flat image is loaded if and only if its numbers pass the checks, its pages are open and paid for; then code and zeros stand at its base, text read-only and executable, data writable and, with NX, not executable |
| `Images.PhRead` | k64/loader64.c:180-193 | the fields of a program header as the ELF-64 format lays them out are what the loader reads |
| `Images.LoadElfFile` | k64/loader64.c:167-225 | an ELF file is loaded if and only if each segment to load passes the checks, their pages are open, their own and paid for; then each byte stands at base plus vaddr with the rights of its segment, and the end is the highest one |
| `WindowPool.PoolAlloc` | k64/win64.c:46-65 | succeeds if and only if an entry or the rest of the pool is large enough; the first entry large enough is cut, the rest only without one; the bytes handed out are exactly those no longer free; the list stays sorted and unmerged neighbours impossible |
| `WindowPool.PoolFree` | k64/win64.c:67-88 | the list gains exactly the extent's bytes and stays sorted with no two entries touching; a full list drops the extent |
| `Windows.CreateKeeps` | k64/win64.c:98-132 | a new window keeps extents disjoint, used plus free equal to the bump pointer, and at most one free entry for each slot |
| `Windows.CloseKeeps` | k64/win64.c:134-155 | closing keeps extents disjoint, used plus free equal to the bump pointer, and at most one free entry for each slot |
| `Windows.ListShort` | k64/win64.c:67-69 | between two free entries lies a live window, so there is at most one entry more than live windows: the branch that leaks an extent is never taken |
| `Windows.RaisedIs` | k64/win64.c:474-504 | the rotation is a permutation that keeps every window as it is and the others in order |
| `Windows.RaiseWins` | k64/win64.c:474-504 | after a raise the window wins every point it covers and elsewhere the same window wins as before |
| `Windows.WordIn` | k64/win64.c:157-183 | every pixel of a window lies inside its extent |
| `Windows.WordInjective` | k64/win64.c:157-183 | different pixels of a window are different words |
| `Windows.DrawnElsewhere` | k64/win64.c:157-183 | no pixel of another live window lies in a window's extent |
| `WindowServer.Server.Create` | k64/win64.c:98-132 | the first unused slot with the asked size, if and only if the size is legal, a slot is unused and the pool has room; otherwise nothing changes; the pool invariant holds |
| `WindowServer.Server.Close` | k64/win64.c:134-155 | releases exactly an owned live slot; the pool invariant holds |
| `WindowServer.Server.OwnerRelease` | k64/win64.c:301-317 | releases exactly the slots of the task |
| `WindowServer.Server.Release` | k64/win64.c:467-470 | exactly the bytes of the window return to the list, and neither focus nor hover stays on the slot |
| `WindowServer.Server.Raise` | k64/win64.c:474-504 | the loop is the rotation, and focus and hover follow their windows |
| `WindowServer.Server.SetPos` | k64/win64.c:229-265 | the position asked for, clamped so that a window that fits stays on the screen |
| `WindowServer.Server.Fill` | k64/win64.c:157-183 | exactly the pixels from x to x + w and y to y + h within the window change, both sums modulo 2^32, and nothing outside the window's extent |
| `WindowServer.Server.Blit` | k64/win64.c:271-299 | exactly the pixels from x to x + w and y to y + h within the window change, both sums modulo 2^32, each to its texel, and nothing outside the window's extent |
| `WindowServer.Server.Composite` | k64/win64.c:321-335 | at each point the pixel of the highest window there, row by row from its place in the pool, or the background |
| `WindowServer.Server.Hit` | k64/win64.c:370-379 | the highest used slot whose rectangle holds the point, or -1 |
| `WindowServer.Server.FocusSet` | k64/win64.c:396-411 | focus moves to -1 or a live slot, and is refused and unchanged for any other number; it never points at an unused slot |
| `WindowServer.Server.RouteMouse` | k64/win64.c:381-394 | hover is the window under the pointer |
| `FileDescriptors.CellUpdate` | k64/fd64.c:28-32 | changing one cell moves the number of cells holding its old and its new entry by one each |
| `FileDescriptors.CellInUse` | k64/fd64.c:34-56 | under the invariant no cell holds an entry that is not in use |
| `FileDescriptors.OpenFiles.Open` | k64/fd64.c:106-116 | the first free entry with offset 0 in the lowest free cell, if and only if both tables have room; on failure nothing stays taken, and which table was full; counts stay exact |
| `FileDescriptors.OpenFiles.Close` | k64/fd64.c:178-196 | empties the cell; the entry stays in use if and only if another cell holds it; counts stay exact |
| `FileDescriptors.OpenFiles.CloseAll` | k64/fd64.c:236-252 | empties the task's table, leaves other tasks' cells and surviving entries alone; counts stay exact |
| `FileDescriptors.OpenFiles.Inherit` | k64/fd64.c:255-266 | the child's table equals the parent's and only counts change; counts stay exact |

## Left out

- AHCI, PIC, PIT, LAPIC, PS/2 and serial code: hardware; the disk is an array of blocks and a lock makes its section atomic.
- TLB shootdown: a flush is taken as atomic, so flush-before-free on other CPUs is not claimed.
- Kernel-stack hand-over, FPU images and assembly entry code: below the level of this state machine.
- Boot-time initialisation and Multiboot parsing: their result is the initial state.
- CLONE in fork isolation: its siblings keep writable aliases by design, so `RunRefines` and the views in `MachineRuns.Run` cover runs without it; counts and the return of all frames cover it.
- Kernel-mode writes to read-only user pages: fork isolation is about ring 3 writes.
- Mapping the display into a task: `Machine.Tasks` has no such call, so its tasks map no display page; what happens to a space that does is `CloneUndone` and `DisplayLost`.
- Vmm.Manager.MapPage: an address below a directory shared with boot is left out; there the code widens the pointer to user access, which no longer tells private tables from shared ones.  `UserSlots` is the test that excludes it, and `Machine.Tasks` makes it.
- Vmm.Manager.NextTab: the widening of such a pointer, for the same reason.
- Vmm.Manager.LeafTable: such an address, for the same reason; so too in `MapUndo` and in `Machine.Tasks.Demand` and `Machine.Tasks.Shrink`, whose callers stay in user slots.
- Vmm.Manager.Collect: asks that the comparison with boot tells private tables from shared ones, because where it does not, what is collected is not what the space owns; `CloneUndo.CloneApart` and `MachineSound` show that it does in every space a task can have.
- Vmm.Manager.TearCollect: asks the same, and so do Teardown and CloneThenTeardown.
- Machine.Tasks.Spawn: the task table is a bound on the number of spaces, one per task and one per CPU that builds one.
- Page contents as bytes: a page is 512 words; the page-fault ladder's kill paths are not modelled.
- task64_brk and task64_demand around their locked sections: heap bounds are not modelled.
- The early return of schedule during a shootdown, the status pointer check of waitpid, and names and user stacks of tasks.
- Task 0 calling exit, waitpid or sleep: it is the boot context and makes no such call.
- ext2 outside 1 KiB blocks, first data block 1 and at most 32 groups, and I/O errors: the disk is reliable.
- The on-disk encoding of superblock, descriptors and inode table: kept decoded.
- Ext2Names.Create: does not model link counts, of the new inode or of its directory, because nothing in the driver reads them.
- Triple-indirect maps beyond the audit's refusal to run: write paths refuse double-indirect files, reads stop at the double map.
- Ext2Audit.Audit: asks that the tables of the inodes it visits are blocks of the volume and no metadata, because metadata is kept decoded here and has no bytes to read as a table.
- Ext2Audit.AuditGroup: asks the same.
- Path splitting and the root in ex_lookup: one component is modelled.
- Read-back of an inode after a failed write: its pointers on disk are the old ones and blocks already taken stay marked; other files and ownership are covered.
- An ELF header whose program-header extent wraps around 64 bits.
- The entries of page tables in the loader: a space there is its pages, its tables, and what boot's mappings bar.
- Distinctness of consecutive load bases: the slide is a parameter.
- WindowServer.Server.RouteMouse: the enter, leave, move and button events it queues are not modelled, because event rings are left out; hover is.
- WindowServer.Server.FocusSet: the focus events it queues, for the same reason.
- Window titles, event rings, text drawing and the console behind the windows; window identifiers are slot positions and move on a raise.
- Reading, writing and seeking through descriptors, and the path half of fd_open.
- Shell, demos, fonts and test scripts.
