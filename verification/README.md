# Linux 0.11: a verified model of the kernel's core algorithms

This project models, in Dafny, the algorithms at the centre of the Linux 0.11 kernel under
`oslab/linux-0.11`, and proves what each of them is there for. Most subsystems come in two parts: a
module of functions and lemmas that says what an operation means and what every run of
operations keeps, and a module with a class whose methods do what the C code does, in place and
step by step, each proved equal to the function (`ensures Abs() == F(old(Abs()))` and the like).

The kernel is not preempted: a step is the code between two points where it can sleep. Runs
are sequences of such steps by any processes in any order, and the theorems over runs hold for
all of them. Where a module takes several such stretches as one step, "Left out" says so.

| files | subject |
|---|---|
| PhysicalMemory, Paging, CopyOnWrite, OutOfMemory, ForkEntries, Mm, Pids | page frames, page tables, copy on write, fork, when it fails and its rollback, process numbers |
| Zones, ZoneTree, FileData, Layout, Truncation, FileRun, FileRaces, Fs | zone bitmap, block trees and where they are on the disk, truncation, bytes of a file |
| CacheProtocol, CacheData, Buffers | the buffer cache under interleaving, what is in it, its ring and hash chains |
| Runs, Elevator, BlockQueue | the disk queue: shape, no starvation, the request slots |
| WaitQueue, Timers, TimerTable, Scheduling | sleep and wake-up, the timer list, the scheduler |
| Buckets, KernelMalloc | the kernel allocator |
| ArgumentPages, Exec | a program's argument strings and pointer tables |
| Screen, ScreenCells, Console | the console: what is shown, cell by cell, and the two ways of scrolling |
| Ring, LineDiscipline, Tty, Pipe, PipeRun | rings, canonical input, pipes |

Results that go against what the code's comments or names suggest, each proved:

* A timer added in front of others delays them all by its own residual, because `add_timer` does
  not reduce the delta behind it (`Timers.InsertionDelays`); pending timers keep their time if and
  only if the new one is asked for later than the last (`Timers.InsertHarmlessIff`). None is early.
* A `#!` script started with an empty argv gets one argument fewer than were pushed, and its
  environment shifted (`Exec.SeenIff`). Strings that end exactly at offset 0 are refused
  (`Exec.Execve`).
* `nice` can leave a counter above twice the priority, and no recharge repairs that
  (`Scheduling.NiceBreaksBound`, `Scheduling.RechargeBoundIff`); the scheduler's choice and its
  freedom from starvation do not depend on it.
* A canonical read does not stop at a newline (`LineDiscipline.ReadTakesTwoLines`): it stops at
  the first one if and only if the count, the queue or an end-of-file ends it there
  (`LineDiscipline.ReadStopsAtNewlineIff`).
* `ESC 7` and `ESC 8` compare the cursor's column, not the character
  (`Screen.EscapeIgnoresDigit`): they work in one column each (`Screen.EscapeSavesIff`,
  `Screen.EscapeRestoresIff`).
* A failing `new_block` can set a bit past the last zone before it notices
  (`ZoneTree.FailureSetsBit`), exactly when there is one clear (`ZoneTree.FailureSetsBitIff`).
* `truncate` loses zones (`Truncation.TruncateLoses`), unless no buffer of the file is counted
  when its turn comes and its index blocks can be read (`Truncation.TruncateConservesIff`);
  `free_block` counts such a buffer once more for good (`Truncation.TruncateCounts`).
* Two processes filling one hole of a file lose a zone (`FileRun.TwoForOnePlace`); a run loses
  none if and only if each place is still empty, and where it was, when its zone is recorded, and
  truncations are as above (`FileRun.NothingLostIff`, `FileRun.CleanIff`).
* A write that sleeps in `bread` can land in another file (`FileRaces.LateLands`); it is harmless if
  and only if its zone is still the one looked up, or in no tree (`FileRaces.LateHarmlessIff`).
* `file_write` can lose bytes to a `sync` (`CacheData.FlagBeforeBytes`), and `block_write` to a reader
  (`CacheData.NotUptodate`); no other step of the cache loses a write but a failed transfer
  (`CacheData.CoherentIff`).
* A pipe is not first in, first out when a copy takes a page fault (`PipeRun.StaleByte`,
  `PipeRun.OverwrittenByte`); the exact conditions are `PipeRun.FifoIff` for a run and
  `PipeRun.SafeIff` for a claim.

The overflow test at `fs/exec.c:128` is made on an unsigned number and never true; the model
returns `Overrun` where the code would use an entry 4 MB past its page table.

Addresses and counts: `mem_map`, `b_count` and zone counts are natural numbers; console
parameters, cursor targets and process numbers wrap as 32-bit words do. The console counts
addresses in cells of 16 bits. Time, page supplies and the choices other processes make are
parameters.

## Model

| member | source | states |
|---|---|---|
| PhysicalMemory.OneReference | oslab/linux-0.11/mm/memory.c:90-102 | A frame whose count is 1 is named by one page-table or directory entry only, and by no kernel holder |
| PhysicalMemory.SitesChange | oslab/linux-0.11/mm/memory.c:188-190 | Changing what one entry names moves the number of references of the two frames concerned by one and of no other frame |
| Paging.LastFree | oslab/linux-0.11/mm/memory.c:65-84 | The scan finds the highest zero count, or that there is none |
| Paging.TakePageKeeps | oslab/linux-0.11/mm/memory.c:65-84 | Taking a free page keeps counts exact; no address space notices |
| Paging.InstallTableKeeps | oslab/linux-0.11/mm/memory.c:174-179 | A page the kernel holds becomes an empty page table; counts stay exact and no other slot changes |
| Paging.ClearEntryKeeps | oslab/linux-0.11/mm/memory.c:123-127 | Clearing one entry of a slot gives up exactly its reference; no other entry or slot changes |
| Paging.DropTableKeeps | oslab/linux-0.11/mm/memory.c:129-131 | An emptied table can be freed and its directory entry cleared: nothing else named it |
| Paging.ShareEntryKeeps | oslab/linux-0.11/mm/memory.c:182-192 | One round of the copy loop maps the same frame read-only in the child, write-protects the parent above LOW_MEM, and keeps counts and all other entries |
| Paging.MapHeldKeeps | oslab/linux-0.11/mm/memory.c:205-228 | Mapping a page only the kernel holds turns that holding into one entry |
| Paging.UnWpKeeps | oslab/linux-0.11/mm/memory.c:230-248 | un_wp_page ends with a private writable page of the same contents and no other slot changed, or, out of memory, changes nothing |
| Paging.ReuseKeeps | oslab/linux-0.11/mm/memory.c:235-239 | A frame counted once may be made writable in place: nobody else maps it |
| Paging.CopyPageKeeps | oslab/linux-0.11/mm/memory.c:240-248 | Copying a shared page leaves the other sharers their frame, contents and counts |
| Paging.StoreWordKeeps | oslab/linux-0.11/mm/memory.c:230-248 | A user store through a writable entry changes one word of one page of one address space |
| Paging.ReleaseKeeps | oslab/linux-0.11/mm/memory.c:90-102 | Freeing a page the kernel holds never finds a zero count and disturbs no address space |
| Paging.FillKeeps | oslab/linux-0.11/mm/memory.c:396-406 | Filling a page only the kernel holds is invisible to every address space |
| CopyOnWrite.PutPageKeeps | oslab/linux-0.11/mm/memory.c:205-228 | put_page gives the faulting place exactly that page; on failure, or elsewhere, nothing changes |
| CopyOnWrite.PageTaken | oslab/linux-0.11/mm/memory.c:65-84 | A page just taken is the kernel's alone, zeroed, and nobody reads anything new |
| CopyOnWrite.PageGivenBack | oslab/linux-0.11/mm/memory.c:287-289 | Giving it back restores holdings and leaves every view |
| CopyOnWrite.GetEmptyPageKeeps | oslab/linux-0.11/mm/memory.c:282-291 | get_empty_page gives a zero page at the faulting place, or on failure changes nothing and gives its page back |
| CopyOnWrite.StoreIsolated | oslab/linux-0.11/mm/memory.c:230-280 | A store, with whatever fault it takes, changes that word of that page for its owner, and no page of any other address space |
| CopyOnWrite.CopyEntriesKeeps | oslab/linux-0.11/mm/memory.c:182-193 | The inner copy loop makes the child slot a copy of the first nr entries, entry for entry |
| CopyOnWrite.CopySlotKeeps | oslab/linux-0.11/mm/memory.c:168-193 | One round of the outer copy loop |
| CopyOnWrite.CopyTablesKeeps | oslab/linux-0.11/mm/memory.c:155-197 | copy_page_tables, wherever it stops for lack of memory, changes no address space outside the child range; when it finishes the child range is a copy |
| CopyOnWrite.ClearTableKeeps | oslab/linux-0.11/mm/memory.c:121-128 | The inner loop of free_page_tables empties a table |
| CopyOnWrite.FreeTablesKeeps | oslab/linux-0.11/mm/memory.c:108-136 | free_page_tables empties exactly its range and, the counts being exact, free_page never panics in it |
| CopyOnWrite.SameCounts | oslab/linux-0.11/mm/memory.c:19-31 | mem_map is determined by what the page tables name and what the kernel holds |
| CopyOnWrite.ForkCopies | oslab/linux-0.11/kernel/fork.c:39-62 | After a fork the child reads what the parent read, page for page, and no other address space, the parent included, reads anything new |
| CopyOnWrite.ForkProtects | oslab/linux-0.11/mm/memory.c:182-192 | No two present entries naming the same frame are writable, in any reachable state |
| CopyOnWrite.ForkRollback | oslab/linux-0.11/kernel/fork.c:52-60 | A fork that runs out of memory, which is exactly when ForkSucceedsIff says, is undone: every count, every view and the empty child range are as before |
| CopyOnWrite.ShareIsolated | oslab/linux-0.11/mm/memory.c:301-345 | try_to_share maps the other task's page, same contents, in the missing place and changes nothing else for anybody |
| CopyOnWrite.StepKeeps | oslab/linux-0.11/mm/memory.c:65-411 | Every paging step keeps counts exact, panics nowhere, and leaves address spaces it is not for unchanged |
| CopyOnWrite.StepKeepsView | oslab/linux-0.11/mm/memory.c:65-411 | A store, fault, verification or sharing at one page leaves what is read at every other page, those in the same slot included |
| CopyOnWrite.RunIsolated | oslab/linux-0.11/mm/memory.c:65-411 | Over every run of such steps counts stay exact, free_page never panics, and an address space no step belongs to keeps every page |
| CopyOnWrite.RunKeepsView | oslab/linux-0.11/mm/memory.c:230-280 | Over every run, what is read at one page of an address space is changed only by steps at that very page, or by a fork or free of its slot |
| CopyOnWrite.ForkIsSnapshot | oslab/linux-0.11/mm/memory.c:155-197 | A child page that no later step is at reads, after any run of stores, faults, forks and frees, its own neighbours' included, what the parent read when it forked |
| CopyOnWrite.BootedIsInv | oslab/linux-0.11/mm/memory.c:413-425 | mem_init establishes the invariant |
| OutOfMemory.ForkSucceedsIff | oslab/linux-0.11/kernel/fork.c:52-60 | A fork succeeds if and only if as many frames have count 0 as the parent has page tables in the range |
| OutOfMemory.PutSucceedsIff | oslab/linux-0.11/mm/memory.c:205-228 | put_page fails if and only if the slot has no table and no frame has count 0; else the entry is present, user, writable and names the page |
| OutOfMemory.EmptySucceedsIff | oslab/linux-0.11/mm/memory.c:282-291 | A demand-zero fault succeeds if and only if there is a frame for the page, and another for the table where there is none |
| OutOfMemory.UnWpSucceedsIff | oslab/linux-0.11/mm/memory.c:230-248 | un_wp_page fails if and only if somebody else has the page too and no frame is free; a page counted once stays in its frame |
| OutOfMemory.VerifyIs | oslab/linux-0.11/mm/memory.c:269-280 | write_verify does nothing to a page that is absent or writable, and makes any other present and writable unless un_wp_page has to fail |
| OutOfMemory.StoreSucceedsIff | oslab/linux-0.11/mm/memory.c:230-280 | A store succeeds if and only if as many frames are free as its fault takes: none, one, or two |
| OutOfMemory.SharesIff | oslab/linux-0.11/mm/memory.c:301-345 | try_to_share shares if and only if the other task has the page, clean and in counted memory, and there is a table to map it in or a frame for one |
| OutOfMemory.FreePageIs | oslab/linux-0.11/mm/memory.c:90-102 | free_page, by address and count: nothing below LOW_MEM, a panic past the end or at count 0, else one less |
| ForkEntries.ForkWords | oslab/linux-0.11/mm/memory.c:155-197 | The page-table words after a fork, bit for bit: the child has the parent's entries without the write bit, the parent loses that bit on counted frames, and no other word of any task changes |
| Mm.Memory.constructor | oslab/linux-0.11/mm/memory.c:413-425 | mem_init: free frames counted 0, all others 100, in place |
| Mm.Memory.GetFreePage | oslab/linux-0.11/mm/memory.c:65-84 | get_free_page in place, equal to the function: highest free frame, zeroed, counted once |
| Mm.Memory.FreePage | oslab/linux-0.11/mm/memory.c:90-102 | free_page in place, with its three panics and its return for low memory |
| Mm.Memory.ClearPageTable | oslab/linux-0.11/mm/memory.c:121-128 | Inner loop of free_page_tables, in place |
| Mm.Memory.FreePageTables | oslab/linux-0.11/mm/memory.c:108-136 | free_page_tables, in place |
| Mm.Memory.CopyOneEntry | oslab/linux-0.11/mm/memory.c:182-192 | One entry of copy_page_tables, in place |
| Mm.Memory.CopyPageTable | oslab/linux-0.11/mm/memory.c:181-193 | Inner loop of copy_page_tables, in place |
| Mm.Memory.CopyOneTable | oslab/linux-0.11/mm/memory.c:174-193 | One table of copy_page_tables: out of memory is reported with nothing installed |
| Mm.Memory.CopyRound | oslab/linux-0.11/mm/memory.c:168-193 | One round of the outer loop |
| Mm.Memory.CopyPageTables | oslab/linux-0.11/mm/memory.c:155-197 | copy_page_tables, in place, memory failure included |
| Mm.Memory.PutPage | oslab/linux-0.11/mm/memory.c:205-228 | put_page, in place |
| Mm.Memory.GetEmptyPage | oslab/linux-0.11/mm/memory.c:282-291 | get_empty_page, in place, giving its page back on failure |
| Mm.Memory.UnWpPage | oslab/linux-0.11/mm/memory.c:230-248 | un_wp_page, in place |
| Mm.Memory.WriteVerify | oslab/linux-0.11/mm/memory.c:269-280 | write_verify, in place |
| Mm.Memory.TryToShare | oslab/linux-0.11/mm/memory.c:301-345 | try_to_share, in place |
| Mm.Memory.CopyMem | oslab/linux-0.11/kernel/fork.c:52-60 | The end of copy_mem: copy, and free the child range when memory ran out; it succeeds if and only if as many frames are free as the parent has page tables in the range |
| Pids.Pigeonhole | oslab/linux-0.11/kernel/fork.c:136-148 | More numbers in a row than there are tasks cannot all be taken, across the wrap from the largest to 1 |
| Pids.ProcessTable.FindEmptyProcess | oslab/linux-0.11/kernel/fork.c:136-148 | The goto loop ends, with the first unused number after last_pid, and the lowest free slot but 0, or -EAGAIN exactly when there is none |
| Pids.StillDistinct | oslab/linux-0.11/kernel/fork.c:84-92 | Installing the new process keeps all process numbers distinct |
| Zones.SameZone | oslab/linux-0.11/fs/inode.c:72-138 | Two places of any two files that record the same zone are the same place |
| Zones.FirstZero | oslab/linux-0.11/fs/bitmap.c:31-45 | The scan finds the first clear bit, and that all before it are set |
| ZoneTree.NewBlockFresh | oslab/linux-0.11/fs/bitmap.c:75-105 | new_block hands out a zeroed zone that no file had and nobody has counted, sets its bit and no other |
| ZoneTree.NewBlockFull | oslab/linux-0.11/fs/bitmap.c:75-105 | new_block fails only when every data zone is taken, or in a panic; nothing recorded and no zone is lost by a failure |
| ZoneTree.NewBlockPanicsIff | oslab/linux-0.11/fs/bitmap.c:96-99 | The panic "count is != 1" is reached if and only if somebody has counted the buffer of the first free zone |
| ZoneTree.FailureSetsBitIff | oslab/linux-0.11/fs/bitmap.c:83-95 | A failing new_block changes the bitmap if and only if no data zone is free and a bit past the last zone is clear |
| ZoneTree.FailureSetsBit | oslab/linux-0.11/fs/bitmap.c:83-95 | A file system of one taken zone with one bit to spare: the failure takes that bit |
| ZoneTree.StrayWriteKeepsTrees | oslab/linux-0.11/fs/bitmap.c:100-103 | Writing a zone that is in no tree moves no zone of any tree |
| ZoneTree.SetAtOther | oslab/linux-0.11/fs/inode.c:84-136 | Recording a fresh zone changes no other place of any tree, except that what was below an overwritten place is no longer recorded |
| ZoneTree.FillKeeps | oslab/linux-0.11/fs/inode.c:84-136 | Filling one place of the tree loses no zone and changes no byte of any file; it fails only on a full disk or in the panic above |
| ZoneTree.FillWayKeeps | oslab/linux-0.11/fs/inode.c:92-136 | The same for the places on the way to a block, stopping wherever zones run out |
| ZoneTree.CreateBlockKeeps | oslab/linux-0.11/fs/inode.c:145-148 | create_block, wherever it stops, loses no zone and changes no byte of any file; it fails only when the disk is full, and panics only if a buffer of a free zone is counted |
| FileData.Read | oslab/linux-0.11/fs/file_dev.c:17-46 | What reading a range means: byte for byte the sparse file, holes as zeroes |
| FileData.LeafInjective | oslab/linux-0.11/fs/inode.c:72-138 | Distinct block numbers are recorded at distinct places (which ones: Layout) |
| FileData.DataWriteKeepsTrees | oslab/linux-0.11/fs/file_dev.c:69-84 | Writing a data block moves no zone in any tree and loses none: no data block is an index block |
| FileData.WriteChunkBytes | oslab/linux-0.11/fs/file_dev.c:69-84 | Writing part of one block changes exactly those bytes of that file |
| FileData.WriteRound | oslab/linux-0.11/fs/file_dev.c:62-84 | One round of file_write, block creation included: exactly the bytes written change, or, on a full disk, none; no zone is lost |
| FileData.WriteKeepsZeroTail | oslab/linux-0.11/fs/bitmap.c:96-103 | Bytes past the end of a file stay zero, gaps left by a write included |
| FileData.ReadAfterWrite | oslab/linux-0.11/fs/file_dev.c:17-90 | Reading back a range just written gives the data, across block boundaries |
| FileData.ReadElsewhere | oslab/linux-0.11/fs/file_dev.c:17-90 | Every other range, and every other file, reads as before the write |
| Layout.LeafOnDisk | oslab/linux-0.11/fs/inode.c:72-138 | Block n of a file is word n of the inode below 7, word n - 7 of the indirect block below 519, and else word (n - 519) % 512 of the block that word (n - 519) / 512 of the double indirect block names, low byte first; 0 where any on the way is 0 |
| Layout.ByteOnDisk | oslab/linux-0.11/fs/file_dev.c:17-46 | Byte x of a file is byte x % 1024 of the zone so found for block x / 1024, and 0 in a hole |
| Layout.CreatedOnDisk | oslab/linux-0.11/fs/inode.c:84-136 | create_block records the zone it returns at that very place on the disk, and no other block of any file is found elsewhere than before, or, when it returns none, anywhere at all |
| Truncation.FreeIndFrees | oslab/linux-0.11/fs/truncate.c:11-27 | free_ind calls free_block for the indirect block and, if it can be read, exactly what it points to: uncounted ones are free then, the others counted once more |
| Truncation.FreeDindFrees | oslab/linux-0.11/fs/truncate.c:29-45 | free_dind likewise for the double indirect block and what can be read two levels down |
| Truncation.OnlyTree | oslab/linux-0.11/fs/truncate.c:47-64 | Everything truncate calls free_block for is recorded in the file's tree, below readable index blocks |
| Truncation.WholeTree | oslab/linux-0.11/fs/truncate.c:47-64 | Everything recorded below readable index blocks is among it |
| Truncation.TruncateFrees | oslab/linux-0.11/fs/truncate.c:47-64 | truncate, step by step, calls free_block for exactly that set, clears the inode, and never panics |
| Truncation.TruncateExact | oslab/linux-0.11/fs/truncate.c:47-64 | A bit is cleared if and only if truncate finds its zone in the tree and its free_block finds the buffer uncounted; every other zone of the tree is lost: allocated, and in no tree; other files keep every place and every byte |
| Truncation.TruncateCounts | oslab/linux-0.11/fs/bitmap.c:56-62 | free_block, leaving a counted block alone, never gives its own count back: exactly the zones found counted are counted once more |
| Truncation.TruncateHeldUsed | oslab/linux-0.11/fs/bitmap.c:56-62 | truncate frees no zone whose buffer stays counted throughout |
| Truncation.TruncateConservesIff | oslab/linux-0.11/fs/truncate.c:47-64 | Allocated zones are still the disjoint union of the trees after truncate if and only if no buffer of the file was counted when free_block came to it and every index block on the way to a recorded zone could be read |
| Truncation.TruncateLoses | oslab/linux-0.11/fs/bitmap.c:56-62 | File systems where a reader that was there, one that came while truncate slept, or a read error on an index block loses a zone |
| Truncation.TruncateOther | oslab/linux-0.11/fs/truncate.c:51-52 | What is neither file nor directory keeps its numbers, its size and everything else |
| FileRun.PanicIff | oslab/linux-0.11/fs/bitmap.c:96-99 | A step panics if and only if it is new_block resuming and somebody has counted the buffer of the zone it took |
| FileRun.UpToDateNoPanic | oslab/linux-0.11/fs/bitmap.c:47-105 | As long as buffers are only counted of zones recorded at that moment, free_block's test keeps that panic out of reach |
| FileRun.RecordTidy | oslab/linux-0.11/fs/inode.c:84-136 | Recording the zone in flight at its place, empty or filled meanwhile: what was there and below becomes stray, and nothing else |
| FileRun.RecordDead | oslab/linux-0.11/fs/inode.c:98-136 | Recording it in an index block that a truncation has cut off meanwhile changes no tree and no byte |
| FileRun.StepKeeps | oslab/linux-0.11/fs/inode.c:72-148 | Every step of any process, allocation split where new_block sleeps and writes where bread does, keeps trees and zones in flight apart and allocated, loses exactly the zones stated, and changes only the files stated; only a late write into an index block does not |
| FileRun.CleanIff | oslab/linux-0.11/fs/inode.c:84-136 | A step loses a zone if and only if it records one at a place filled or cut off meanwhile, or truncates a file of which a buffer is found counted or an index block unreadable |
| FileRun.RunKeeps | oslab/linux-0.11/fs/bitmap.c:47-105 | Over every run of such steps, losses and late writes included, trees and zones in flight stay apart and allocated, and a file into which no step writes keeps its size and every byte |
| FileRun.LateKeeps | oslab/linux-0.11/fs/file_dev.c:65-84 | A write that slept in bread puts its chunk where its zone is by then: into the file that has it, or into none; nothing else changes |
| FileRun.OnTimeRunKeeps | oslab/linux-0.11/fs/file_dev.c:65-84 | While each late write finds its zone where it was looked up, or in no tree, a file that no step is for keeps its size and every byte, and bytes past the end of files stay zero |
| FileRaces.LateHarmlessIff | oslab/linux-0.11/fs/file_dev.c:65-84 | A late write changes no byte but those meant and no tree, for every content, if and only if its zone is still the one looked up, or in no tree |
| FileRaces.LateLands | oslab/linux-0.11/fs/file_dev.c:65-84 | A run in which a file is truncated while its writer sleeps and the chunk lands in another file |
| FileRun.NothingLostIff | oslab/linux-0.11/fs/bitmap.c:47-105 | A run loses no zone if and only if each of its steps is clean |
| FileRun.CleanRunConserves | oslab/linux-0.11/fs/bitmap.c:47-105 | After a clean run the allocated data zones are the disjoint union of the trees and the zones in flight |
| FileRun.FillIsTwoSteps | oslab/linux-0.11/fs/inode.c:84-136 | Undisturbed, the two halves of an allocation are create_block's filling of one place |
| FileRun.TwoForOnePlace | oslab/linux-0.11/fs/inode.c:84-136 | With two zones in flight for one place the one recorded first is lost by the second |
| FileRaces.TwoBegins | oslab/linux-0.11/fs/inode.c:84-97 | Two processes that begin to fill one block of an empty file: the second loses the zone of the first |
| FileRun.CarefulIsClean | oslab/linux-0.11/fs/inode.c:72-148 | If no place is allocated for twice at a time and no file truncated meanwhile or with a buffer found counted or unreadable, every step is clean |
| FileRun.EmptyFsInv | oslab/linux-0.11/fs/bitmap.c:47-105 | The empty file system satisfies the invariant |
| FileRun.StartInv | oslab/linux-0.11/fs/bitmap.c:47-105 | Any file system in order is where a run can start, with nothing lost |
| Fs.FileSystem.FindFirstZero | oslab/linux-0.11/fs/bitmap.c:31-45 | find_first_zero on one bitmap block: the first clear bit, 8192 if none |
| Fs.FileSystem.NewBlock | oslab/linux-0.11/fs/bitmap.c:75-105 | new_block in place, equal to the function, with its panic over a counted buffer |
| Fs.FileSystem.FreeBlock | oslab/linux-0.11/fs/bitmap.c:47-73 | free_block in place, with its panics and its return for a block it finds counted |
| Fs.FileSystem.RootZone | oslab/linux-0.11/fs/inode.c:84-97 | Creating a missing zone in i_zone, in place |
| Fs.FileSystem.IndirectZone | oslab/linux-0.11/fs/inode.c:98-136 | Creating a missing entry of an indirect block, in place |
| Fs.FileSystem.Bmap | oslab/linux-0.11/fs/inode.c:72-148 | _bmap in place: the zone found in, or stored into, the bytes of inode and index blocks as OnDisk says, every other block of every file where it was; and the panic past the largest block |
| Fs.FileSystem.FreeInd | oslab/linux-0.11/fs/truncate.c:11-27 | free_ind in place, an unreadable block included |
| Fs.FileSystem.FreeDind | oslab/linux-0.11/fs/truncate.c:29-45 | free_dind in place, likewise |
| Fs.FileSystem.FreeDirectZones | oslab/linux-0.11/fs/truncate.c:53-57 | The loop over direct zones, in place |
| Fs.FileSystem.Truncate | oslab/linux-0.11/fs/truncate.c:47-64 | truncate in place, equal to the function of which TruncateExact speaks; a device or other special inode is left alone |
| Fs.FileSystem.FileRead | oslab/linux-0.11/fs/file_dev.c:17-46 | file_read returns the bytes of the sparse file, found on the disk as RawByte says, and moves the position past them; it panics, in _bmap, exactly when asked past the largest block; nothing on disk changes |
| Fs.FileSystem.ReadBlock | oslab/linux-0.11/fs/file_dev.c:22-40 | One round of file_read: the bytes of the sparse file up to the end of the block, and the panic past the largest |
| Fs.FileSystem.WriteBlock | oslab/linux-0.11/fs/file_dev.c:62-84 | One round of file_write in place |
| Fs.FileSystem.FileWrite | oslab/linux-0.11/fs/file_dev.c:48-90 | n bytes reach the file and no other byte changes, and no zone is lost; with no buffer of a free zone counted, n is all of them unless the disk is full or the write runs past the largest block; result and position as in the code |
| CacheProtocol.OneCopy | oslab/linux-0.11/fs/buffer.c:186-254 | Two activations holding the same block hold the same buffer |
| CacheProtocol.MovedKeeps | oslab/linux-0.11/fs/buffer.c:209-254 | getblk from its repeat label to the next sleep or its return keeps one buffer per block and exact counts |
| CacheProtocol.RecycledKeeps | oslab/linux-0.11/fs/buffer.c:240-254 | A buffer given to a new block was held by nobody, and the block is cached once |
| CacheProtocol.ReleaseKeeps | oslab/linux-0.11/fs/buffer.c:256-264 | brelse never finds a zero count |
| CacheProtocol.NextKeeps | oslab/linux-0.11/fs/buffer.c:186-264 | Every step of every process, interrupts unlocking buffers included, keeps the invariant |
| CacheProtocol.RunKeeps | oslab/linux-0.11/fs/buffer.c:186-264 | At every point of every interleaving there is at most one buffer per block, b_count is the number of holders, and each holder has the block it asked for |
| CacheProtocol.RecheckSucceeds | oslab/linux-0.11/fs/buffer.c:186-199 | The re-check after the sleep in get_hash_table never fails: the raised count protects the buffer |
| CacheProtocol.HeldKeepsIdentity | oslab/linux-0.11/fs/buffer.c:209-254 | A buffer in use keeps its device and block through any step |
| CacheProtocol.LockedKeepsIdentity | oslab/linux-0.11/fs/buffer.c:209-254 | So does a locked buffer, used or not, and only the interrupt unlocks it |
| CacheProtocol.HeldThroughout | oslab/linux-0.11/fs/buffer.c:209-254 | Over a whole run, while a process holds a buffer it is that block's buffer |
| CacheProtocol.Returned | oslab/linux-0.11/fs/buffer.c:209-254 | What getblk returns is the cached block, or a recycled buffer that is clean, unlocked and counted once |
| CacheProtocol.CheckIs | oslab/linux-0.11/fs/buffer.c:227-254 | Woken with a chosen buffer, getblk still waits for it if and only if it is locked, or unused and dirty; starts again if and only if it is unlocked and either used, or clean with the block cached; and otherwise has it as the block's buffer |
| CacheProtocol.RepeatIs | oslab/linux-0.11/fs/buffer.c:209-254 | From repeat getblk has a buffer if and only if the block is in an unlocked one, or in none and the buffer picked is clean and unlocked; what it waits for otherwise |
| CacheData.CoherentIff | oslab/linux-0.11/fs/buffer.c:59-113 | A step of processes, disk or sync keeps every block as last written, in its buffer or on the disk, if and only if it is none that loses a write: a change of a buffer that was not read, a release with bytes put in after b_dirt was last cleared, or a transfer that fails |
| CacheData.RunCoherent | oslab/linux-0.11/fs/buffer.c:59-254 | Over every run of other steps that holds throughout, through recycling, locks, transfers and frees |
| CacheData.ReadsLatest | oslab/linux-0.11/fs/buffer.c:267-281 | Then who holds an up-to-date buffer reads what was last written to its block |
| CacheData.NothingLost | oslab/linux-0.11/fs/buffer.c:209-254 | And every block is on the disk or in an up-to-date buffer as last written |
| CacheData.RecycleSafe | oslab/linux-0.11/fs/buffer.c:231-254 | Giving a buffer to another block loses nothing |
| CacheData.BootCoherent | oslab/linux-0.11/fs/buffer.c:347-381 | At boot it holds |
| CacheData.FlagBeforeBytes | oslab/linux-0.11/fs/file_dev.c:71-82 | file_write sets b_dirt before it copies: a sync while the copying sleeps, and the bytes never reach the disk |
| CacheData.NotUptodate | oslab/linux-0.11/fs/block_dev.c:24-41 | block_write fills a buffer that is not up to date: a reader's bread reads the disk over it |
| Buffers.UnringOk | oslab/linux-0.11/fs/buffer.c:141-149 | Unlinking a buffer from the circular free list leaves a well-formed ring of the others in order |
| Buffers.EnringOk | oslab/linux-0.11/fs/buffer.c:154-158 | Linking it before the head puts it last |
| Buffers.UnchainOk | oslab/linux-0.11/fs/buffer.c:136-141 | Unlinking from a hash chain leaves every chain well formed, the bucket head corrected |
| Buffers.EnchainOk | oslab/linux-0.11/fs/buffer.c:159-166 | Linking at the front of the right chain, likewise |
| Buffers.FindIs | oslab/linux-0.11/fs/buffer.c:169-177 | With one buffer per block, a match on the chain is the match |
| Buffers.ScanStop | oslab/linux-0.11/fs/buffer.c:217-226 | Stopping the scan at badness 0 loses nothing |
| Buffers.Cache.constructor | oslab/linux-0.11/fs/buffer.c:351-384 | buffer_init: all buffers free, one ring, empty chains |
| Buffers.Cache.FindBuffer | oslab/linux-0.11/fs/buffer.c:169-177 | find_buffer along the chain agrees with a search of all buffers |
| Buffers.Cache.RemoveFromQueues | oslab/linux-0.11/fs/buffer.c:134-150 | remove_from_queues in place |
| Buffers.Cache.InsertIntoQueues | oslab/linux-0.11/fs/buffer.c:152-167 | insert_into_queues in place: last in the ring, first in its chain, identities untouched |
| Buffers.Cache.ScanFree | oslab/linux-0.11/fs/buffer.c:217-226 | The scan of the free list finds a buffer of least badness among those with count 0, the first such |
| Buffers.Cache.Check | oslab/linux-0.11/fs/buffer.c:227-239 | The re-checks after each sleep, in place: what getblk does next, stated on the fields of the buffers, and equal to the protocol step |
| Buffers.Cache.Claim | oslab/linux-0.11/fs/buffer.c:240-254 | The recycling at the end of getblk, in place |
| Buffers.Cache.GetBlk | oslab/linux-0.11/fs/buffer.c:209-254 | One stretch of getblk between sleeps, in place: when it has a buffer, which, and what it waits for otherwise, stated on the fields of the buffers; a step of the protocol |
| Buffers.Cache.Brelse | oslab/linux-0.11/fs/buffer.c:256-264 | brelse in place; its panic is the zero count |
| Elevator.InOrderIsLess | oslab/linux-0.11/kernel/blk_drv/blk.h:40-43 | IN_ORDER is a strict order of one number per request |
| Elevator.PlaceFirstFit | oslab/linux-0.11/kernel/blk_drv/ll_rw_blk.c:78-83 | The search stops at the first place its test accepts |
| Elevator.AddIsInsert | oslab/linux-0.11/kernel/blk_drv/ll_rw_blk.c:64-86 | add_request is an insertion at that place |
| Elevator.AddKeepsShape | oslab/linux-0.11/kernel/blk_drv/ll_rw_blk.c:64-86 | add_request keeps the queue at most two ascending runs, inserts the request exactly once, keeps the order of the others and never displaces the head |
| Elevator.CompleteKeepsShape | oslab/linux-0.11/kernel/blk_drv/blk.h:109-125 | Completing the head keeps that shape |
| Elevator.CompletionCloser | oslab/linux-0.11/kernel/blk_drv/blk.h:109-125 | A completion strictly lowers the waiting measure of every queued request |
| Elevator.InsertionNoFurther | oslab/linux-0.11/kernel/blk_drv/ll_rw_blk.c:64-86 | An insertion raises nobody's measure |
| Elevator.TransferHarmless | oslab/linux-0.11/kernel/blk_drv/hd.c:251-281 | The driver's mid-transfer bump of the head's sector changes no insertion, queued sectors being even |
| Elevator.SubmitBase | oslab/linux-0.11/kernel/blk_drv/ll_rw_blk.c:64-86 | With the head half-way through, add_request still inserts where it would have |
| Elevator.LockMakesDistinct | oslab/linux-0.11/kernel/blk_drv/ll_rw_blk.c:42-49 | A lock being held for each queued request, no two queued requests have the same key |
| Elevator.NextKeeps | oslab/linux-0.11/kernel/blk_drv/ll_rw_blk.c:88-143 | Every lock, submission, mid-transfer interrupt, completion, unlock, and recycling of an unlocked buffer to another block keeps shape, distinctness and locks |
| Elevator.StepCloser | oslab/linux-0.11/kernel/blk_drv/ll_rw_blk.c:64-143 | Any such step serves a request or leaves it no further away, strictly closer if it completed another |
| Elevator.NoStarvation | oslab/linux-0.11/kernel/blk_drv/ll_rw_blk.c:64-143 | Over every interleaving of such steps, buffers changing their blocks included, a queued request is served within as many completions as its measure |
| Runs.InsertTwoRuns | oslab/linux-0.11/kernel/blk_drv/ll_rw_blk.c:78-83 | Inserting at the first fit keeps two ascending runs |
| Runs.RemovalCloser | oslab/linux-0.11/kernel/blk_drv/blk.h:109-125 | Removing the first brings every other position strictly closer |
| Runs.InsertionSameDistance | oslab/linux-0.11/kernel/blk_drv/ll_rw_blk.c:78-83 | An insertion changes no distance |
| BlockQueue.BlockLayer.constructor | oslab/linux-0.11/kernel/blk_drv/ll_rw_blk.c:157-165 | blk_dev_init: all slots free, all queues empty |
| BlockQueue.BlockLayer.FindPlace | oslab/linux-0.11/kernel/blk_drv/ll_rw_blk.c:78-83 | The search loop through the linked slots finds the place the function gives |
| BlockQueue.BlockLayer.QueueFirst | oslab/linux-0.11/kernel/blk_drv/ll_rw_blk.c:70-76 | Empty queue: the request becomes its head |
| BlockQueue.BlockLayer.QueueAfter | oslab/linux-0.11/kernel/blk_drv/ll_rw_blk.c:84-85 | The slot is spliced in after the place found |
| BlockQueue.BlockLayer.AddRequest | oslab/linux-0.11/kernel/blk_drv/ll_rw_blk.c:64-86 | add_request in place, equal to the function on the queue; other drivers' queues unchanged; the buffer marked clean |
| BlockQueue.BlockLayer.FindSlot | oslab/linux-0.11/kernel/blk_drv/ll_rw_blk.c:114-124 | The search from the top finds the highest free slot if there is one; writes never take the last third |
| BlockQueue.BlockLayer.FromRepeat | oslab/linux-0.11/kernel/blk_drv/ll_rw_blk.c:114-142 | make_request from its repeat label: queued if and only if a slot was free, given up if and only if none was and it is read-ahead, waiting if none was and it is not |
| BlockQueue.BlockLayer.MakeRequest | oslab/linux-0.11/kernel/blk_drv/ll_rw_blk.c:88-143 | make_request: exactly when the request is queued, given up, waits for the buffer or for a slot, is not needed, or panics, on the lock, dirty and up-to-date bits and the slots before; a queued request is a lock and a submission of the elevator's system, whose order it keeps |
| BlockQueue.BlockLayer.EndRequest | oslab/linux-0.11/kernel/blk_drv/blk.h:109-125 | end_request in place: head gone, slot free, buffer unlocked with its new state; the elevator's completion step |
| BlockQueue.SubmitIsStep | oslab/linux-0.11/kernel/blk_drv/ll_rw_blk.c:88-143 | Locking a buffer and queueing its request are two steps of the elevator's system |
| BlockQueue.CompleteIsStep | oslab/linux-0.11/kernel/blk_drv/blk.h:109-125 | end_request is its completion step |
| WaitQueue.SleepKeeps | oslab/linux-0.11/kernel/sched.c:151-165 | Going to sleep keeps every sleeper pointed to exactly once, by a queue head or a saved tmp |
| WaitQueue.ResumeKeeps | oslab/linux-0.11/kernel/sched.c:163-164 | So does returning from sleep; the saved tmp is still asleep on the same queue |
| WaitQueue.WakeUpKeeps | oslab/linux-0.11/kernel/sched.c:188-194 | So does wake_up |
| WaitQueue.RunKeeps | oslab/linux-0.11/kernel/sched.c:151-194 | And every run of the three |
| WaitQueue.Climb | oslab/linux-0.11/kernel/sched.c:151-165 | Every sleeper is on the chain of its queue's head or of a woken task yet to return |
| WaitQueue.WakeUpReleases | oslab/linux-0.11/kernel/sched.c:188-194 | wake_up puts every sleeper of the queue on the chain of a woken task |
| WaitQueue.ReleasedStep | oslab/linux-0.11/kernel/sched.c:151-194 | No step puts a released sleeper further from running; the woken task at its chain's start returning brings it one nearer |
| WaitQueue.ReleasedRun | oslab/linux-0.11/kernel/sched.c:151-194 | Over every run a released sleeper can run after as many such returns as it is deep |
| WaitQueue.NoLostWakeup | oslab/linux-0.11/kernel/sched.c:151-194 | A task asleep at a wake_up runs again, or some woken task has still not returned |
| WaitQueue.AllWakeUp | oslab/linux-0.11/kernel/sched.c:151-194 | Once all woken tasks have returned, everyone asleep at the wake_up has run |
| WaitQueue.EmptyMeansNobody | oslab/linux-0.11/kernel/sched.c:151-194 | With no woken task outstanding, an empty queue has no sleepers |
| WaitQueue.Scheduler.SleepOn | oslab/linux-0.11/kernel/sched.c:151-162 | First half of sleep_on, in place: the sleeper is the new head, the old one its saved tmp, and nothing else changes |
| WaitQueue.Scheduler.ReturnFromSleep | oslab/linux-0.11/kernel/sched.c:162-165 | Second half, in place: it wakes its saved tmp, asleep on the same queue, and nobody else |
| WaitQueue.Scheduler.WakeUp | oslab/linux-0.11/kernel/sched.c:188-194 | wake_up in place: the head is made running and the queue empty, and nothing else changes |
| Timers.ResidualIs | oslab/linux-0.11/kernel/sched.c:291-300 | What is left of the new timer at its place is positive and is its distance from the timer before it |
| Timers.InsertPositive | oslab/linux-0.11/kernel/sched.c:272-303 | Insertion keeps all deltas positive |
| Timers.InsertExact | oslab/linux-0.11/kernel/sched.c:272-303 | The new timer expires exactly when asked; earlier ones keep their expiry; later ones slip by exactly the new residual |
| Timers.InsertHarmlessIff | oslab/linux-0.11/kernel/sched.c:291-300 | Every pending expiry is kept if and only if the new timer is asked for later than the last |
| Timers.InsertionDelays | oslab/linux-0.11/kernel/sched.c:291-300 | A timer for 5 ticks fires after 8 when one for 3 is added: the deltas behind are not reduced |
| Timers.TickFiresOne | oslab/linux-0.11/kernel/sched.c:319-329 | With positive deltas a tick fires the front timer exactly when it was one tick away, and else only counts it down; the rest of the list stays |
| Timers.StepKeeps | oslab/linux-0.11/kernel/sched.c:272-329 | Adding and ticking keep expiry bookkeeping exact |
| Timers.NeverEarly | oslab/linux-0.11/kernel/sched.c:272-329 | Over every run each timer fires at the tick asked for plus the residuals added before it, never early |
| TimerTable.Table.AddTimer | oslab/linux-0.11/kernel/sched.c:272-303 | add_timer in place on 64 slots: runs at once, panics, or equals the insertion; slots on the list are exactly those with a function |
| TimerTable.Table.Sink | oslab/linux-0.11/kernel/sched.c:288-300 | The swapping loop puts the timer in its place |
| TimerTable.Table.DoTimer | oslab/linux-0.11/kernel/sched.c:319-329 | The timer part of do_timer, in place: what is left and what is called, in order |
| Scheduling.ScanIsBest | oslab/linux-0.11/kernel/sched.c:125-134 | The scan picks a largest counter among runnable tasks, the last such |
| Scheduling.ChooseIsBest | oslab/linux-0.11/kernel/sched.c:124-141 | schedule runs the runnable task with most left, task 0 only if none; it recharges exactly when somebody can run and nobody who can has anything left |
| Scheduling.OneRechargeIsEnough | oslab/linux-0.11/kernel/sched.c:124-140 | With positive priorities the loop scans at most twice |
| Scheduling.RechargeKeeps | oslab/linux-0.11/kernel/sched.c:136-139 | A recharge leaves every counter at least its priority, and at most twice it less one where it was |
| Scheduling.RechargeBoundIff | oslab/linux-0.11/kernel/sched.c:138-139 | Recharging keeps the bound 2 * priority - 1 and never restores it |
| Scheduling.NiceBreaksBound | oslab/linux-0.11/kernel/sched.c:378-383 | Lowering a priority can break that bound, and no recharge restores it |
| Scheduling.RescheduleFalls | oslab/linux-0.11/kernel/sched.c:104-142 | While a task waits, schedule runs it or does not raise its bound, and lowers it if the caller had used up its slice |
| Scheduling.TickFalls | oslab/linux-0.11/kernel/sched.c:305-336 | Every user-mode tick runs the waiting task or lowers its bound |
| Scheduling.StepFalls | oslab/linux-0.11/kernel/sched.c:104-142 | No step, nice included, raises the bound, except forks and negative increments of nice by what they add |
| Scheduling.NoStarvation | oslab/linux-0.11/kernel/sched.c:104-142 | Over every run, calls of nice included, a task that can run does, within as many user-mode ticks as the potential and what forks and nices add |
| Scheduling.RescheduleIs | oslab/linux-0.11/kernel/sched.c:104-142 | schedule, task by task: SIGALRM is added and the alarm cleared exactly when it is due, an interruptible sleeper is made running exactly when it then has a signal that is not blocked or cannot be, counters are recharged exactly when all that can run have used up theirs, and nothing else changes; the next task is the last with most left |
| Scheduling.SignalEndsPause | oslab/linux-0.11/kernel/sched.c:117-119 | An interruptible task killed with a signal it does not block can run after the next call of schedule |
| Scheduling.AlarmEndsPause | oslab/linux-0.11/kernel/sched.c:112-119 | And so can one whose alarm is due and SIGALRM not blocked |
| Scheduling.Cpu.Schedule | oslab/linux-0.11/kernel/sched.c:104-142 | schedule in place, signals and alarms included, with the outcome for each task as in RescheduleIs; the while (1) loop terminates |
| Scheduling.Cpu.DoTimer | oslab/linux-0.11/kernel/sched.c:332-335 | do_timer's accounting in place: the current task loses a tick and goes on while it has any left or is in the kernel; otherwise schedule is called, with the outcome stated |
| Scheduling.Cpu.SysNice | oslab/linux-0.11/kernel/sched.c:378-383 | sys_nice in place: the priority falls by the increment only where it stays positive; the slice stays below twice the priority exactly when it fits the new one |
| Buckets.LiveApart | oslab/linux-0.11/lib/malloc.c:117-173 | Live objects never overlap and lie within their page |
| Buckets.LinkOutsideLive | oslab/linux-0.11/lib/malloc.c:159-164 | No free-list link, a long, overlaps a live object |
| Buckets.RefcntCountsLive | oslab/linux-0.11/lib/malloc.c:170 | refcnt is the number of live objects on the page |
| Buckets.DirFor | oslab/linux-0.11/lib/malloc.c:127-129 | The smallest bucket size that fits |
| Buckets.SizeForIff | oslab/linux-0.11/lib/malloc.c:127-133 | Every length up to a page has a bucket size, and no other |
| Buckets.HasRoomIs | oslab/linux-0.11/lib/malloc.c:139-141 | The search finds a page if and only if some page of the smallest fitting size has a free slot |
| Buckets.MallocKeeps | oslab/linux-0.11/lib/malloc.c:117-173 | malloc returns a new object in a slot of the smallest fitting size, keeps all others, and takes a page exactly when none of that size has room |
| Buckets.FindPageIff | oslab/linux-0.11/lib/malloc.c:187-202 | free_s finds the page if and only if it is a bucket of objects not below the hint; otherwise it panics |
| Buckets.FreeKeeps | oslab/linux-0.11/lib/malloc.c:203-228 | free_s gives back that object and no other; the page goes exactly when it held no other |
| Buckets.StepKeeps | oslab/linux-0.11/lib/malloc.c:117-231 | Both keep what the kernel holds equal to what is live |
| Buckets.HeldApart | oslab/linux-0.11/lib/malloc.c:117-231 | Over every run what is held never overlaps and every page in use holds something held |
| KernelMalloc.TakeRep | oslab/linux-0.11/lib/malloc.c:168-170 | Taking the first free slot keeps descriptors and threaded free lists right |
| KernelMalloc.NewRep | oslab/linux-0.11/lib/malloc.c:150-166 | So does a new page of slots in front of the chain |
| KernelMalloc.GiveRep | oslab/linux-0.11/lib/malloc.c:205-207 | So does pushing an object on the free list, through the object itself |
| KernelMalloc.DropRep | oslab/linux-0.11/lib/malloc.c:218-227 | So does unlinking an emptied page and recycling its descriptor |
| KernelMalloc.WriteRep | oslab/linux-0.11/lib/malloc.c:156-164 | A write of a long inside a live object reaches no link and damages no list |
| KernelMalloc.Allocator.InitBucketDesc | oslab/linux-0.11/lib/malloc.c:97-115 | A page of 256 descriptors chained in front of the spare ones |
| KernelMalloc.Allocator.FindRoom | oslab/linux-0.11/lib/malloc.c:139-141 | The search of a chain for a page with room |
| KernelMalloc.Allocator.ChainSlots | oslab/linux-0.11/lib/malloc.c:159-164 | Threading the free list of a new page through memory |
| KernelMalloc.Allocator.NewBucket | oslab/linux-0.11/lib/malloc.c:152-166 | The slow path of malloc, in place |
| KernelMalloc.Allocator.Malloc | oslab/linux-0.11/lib/malloc.c:117-173 | malloc in place: equal to the function; it succeeds if and only if the length is at most a page and a page of the smallest fitting size has room, or a page and a descriptor can be had; 0 stands for its panics |
| KernelMalloc.Allocator.Find | oslab/linux-0.11/lib/malloc.c:187-202 | The search of free_s: entry, descriptor and predecessor |
| KernelMalloc.Allocator.CheckPrev | oslab/linux-0.11/lib/malloc.c:209-217 | The re-check finds the true predecessor whatever stale prev it starts from |
| KernelMalloc.Allocator.Unlink | oslab/linux-0.11/lib/malloc.c:213-227 | Off the chain, onto the spare list |
| KernelMalloc.Allocator.FreeS | oslab/linux-0.11/lib/malloc.c:182-231 | free_s in place: equal to the function, the freed page reported |
| KernelMalloc.Allocator.Write | oslab/linux-0.11/lib/malloc.c:117-173 | A write by the holder of a live object keeps the allocator valid |
| ArgumentPages.PackedAt | oslab/linux-0.11/fs/exec.c:117-148 | Where each string and its terminator lie in the packed image |
| ArgumentPages.ReadPacked | oslab/linux-0.11/fs/exec.c:59-62 | A pointer to a packed string reads as that string |
| ArgumentPages.ReadLong | oslab/linux-0.11/fs/exec.c:56-58 | A pushed long reads back as written |
| ArgumentPages.ReadTableIs | oslab/linux-0.11/fs/exec.c:59-68 | A table of pointers and a null reads as its strings, in order |
| Exec.StackReads | oslab/linux-0.11/fs/exec.c:46-70 | A program following argc, argv and envp from the stack pointer finds the strings, as two lists |
| Exec.SeenIff | oslab/linux-0.11/fs/exec.c:261-280 | They are the wanted ones if and only if it is no script or was started with an argv[0] |
| Exec.ArgumentImage.CopyString | oslab/linux-0.11/fs/exec.c:120-147 | One string copied backwards across page boundaries; a write below the page table exactly when it does not fit, and want of pages exactly when it reaches into more than there are |
| Exec.ArgumentImage.CopyStrings | oslab/linux-0.11/fs/exec.c:104-152 | copy_strings: exactly the strings, packed, below p, all else unchanged; failure exactly when they reach below the table or into more pages than there are |
| Exec.ArgumentImage.NeedPage | oslab/linux-0.11/fs/exec.c:134-145 | A page is got only where there is none, and counted; it fails if and only if one is missing and none is to be had |
| Exec.UserSpace.constructor | oslab/linux-0.11/fs/exec.c:171-175 | The argument pages placed at the top of the data segment read as the image |
| Exec.UserSpace.FillTable | oslab/linux-0.11/fs/exec.c:59-68 | create_tables' loops: pointers to the strings one by one, then null |
| Exec.UserSpace.SkipString | oslab/linux-0.11/fs/exec.c:61 | The scan ends just behind the terminator |
| Exec.UserSpace.CreateTables | oslab/linux-0.11/fs/exec.c:46-70 | create_tables: the three words and two tables below the strings, nothing else touched |
| Exec.LoadScript | oslab/linux-0.11/fs/exec.c:273-280 | The script's own strings spliced in front, in the order that puts the interpreter first |
| Exec.LoadStrings | oslab/linux-0.11/fs/exec.c:261-316 | do_execve's copying, with the argc it ends up with |
| Exec.Execve | oslab/linux-0.11/fs/exec.c:182-345 | It succeeds if and only if the strings leave a byte below 128K - 4 and there is a page for each they reach into, and then the program sees the strings of Seen |
| Screen.DownUndoesUp | oslab/linux-0.11/kernel/chr_drv/console.c:107-202 | Scrolling one way and back loses only the line that left |
| Screen.ScrollUpLines | oslab/linux-0.11/kernel/chr_drv/console.c:107-168 | Line by line: every line of the region one higher, a blank one last, lines outside untouched |
| Screen.ScrollDownLines | oslab/linux-0.11/kernel/chr_drv/console.c:170-202 | And the other way |
| Screen.DeleteUndoesInsert | oslab/linux-0.11/kernel/chr_drv/console.c:350-389 | Inserting and deleting a line costs only the last line of the screen |
| Screen.GotoXY | oslab/linux-0.11/kernel/chr_drv/console.c:87-95 | Moves outside the screen, negative ones by wrap-around, do nothing; others end where asked |
| Screen.EscapeByColumn | oslab/linux-0.11/kernel/chr_drv/console.c:493-509 | Any character without a meaning of its own after ESC saves the cursor in column 55 (the code of 7), restores it in column 56, and does nothing elsewhere |
| Screen.EscapeSavesIff | oslab/linux-0.11/kernel/chr_drv/console.c:505-506 | ESC 7 saves the cursor if and only if its column is 55 or it is the saved one already |
| Screen.EscapeRestoresIff | oslab/linux-0.11/kernel/chr_drv/console.c:507-508 | ESC 8 restores it if and only if its column is 56 or it is the saved one already |
| Screen.EscapeIgnoresDigit | oslab/linux-0.11/kernel/chr_drv/console.c:505-508 | A cursor in column 3 that ESC 7 does not save and ESC 8 does not restore; one in column 55 that ESC 8 saves |
| Screen.Write | oslab/linux-0.11/kernel/chr_drv/console.c:445-605 | For every stream of characters cursor, region, parameters and grid stay in range |
| ScreenCells.LineFeedIs | oslab/linux-0.11/kernel/chr_drv/console.c:204-212 | A line feed, cell by cell: the cursor one down, or in the last line of the region the region one up with a blank line |
| ScreenCells.ReverseIs | oslab/linux-0.11/kernel/chr_drv/console.c:214-222 | A reverse line feed, likewise |
| ScreenCells.PrintIs | oslab/linux-0.11/kernel/chr_drv/console.c:455-466 | A printed character is in the cell of the cursor, after the wrap if there is one, and no other cell changes |
| ScreenCells.DeleteIs | oslab/linux-0.11/kernel/chr_drv/console.c:230-237 | An erase blanks the cell before the cursor and no other |
| ScreenCells.ControlIs | oslab/linux-0.11/kernel/chr_drv/console.c:453-492 | What each control character does to cursor and state |
| ScreenCells.StepsTo | oslab/linux-0.11/kernel/chr_drv/console.c:532-555 | ESC [ A, B, e, E and F end exactly that many lines up or down, 0 counting as 1, or nowhere |
| ScreenCells.StepsAside | oslab/linux-0.11/kernel/chr_drv/console.c:540-547 | ESC [ C, a and D end that many columns right or left |
| ScreenCells.MovesTo | oslab/linux-0.11/kernel/chr_drv/console.c:528-564 | ESC [ G, backquote, d, H and f end at their parameters less one |
| ScreenCells.SetsTo | oslab/linux-0.11/kernel/chr_drv/console.c:583-601 | ESC [ s, u, r and m: what they save, restore and set |
| ScreenCells.AttributesLast | oslab/linux-0.11/kernel/chr_drv/console.c:299-311 | Of several attributes the last that means anything is the one set |
| ScreenCells.EraseDisplayIs | oslab/linux-0.11/kernel/chr_drv/console.c:239-266 | ESC [ J blanks exactly the cells from the cursor on, before it, or all |
| ScreenCells.EraseLineIs | oslab/linux-0.11/kernel/chr_drv/console.c:268-297 | ESC [ K likewise within the line |
| ScreenCells.InsertCharIs | oslab/linux-0.11/kernel/chr_drv/console.c:336-348 | insert_char, cell by cell |
| ScreenCells.DeleteCharIs | oslab/linux-0.11/kernel/chr_drv/console.c:363-376 | delete_char, cell by cell |
| ScreenCells.InsertLineIs | oslab/linux-0.11/kernel/chr_drv/console.c:350-361 | insert_line, cell by cell, to the end of the screen whatever the region |
| ScreenCells.DeleteLineIs | oslab/linux-0.11/kernel/chr_drv/console.c:378-389 | delete_line, likewise |
| ScreenCells.CharsTo | oslab/linux-0.11/kernel/chr_drv/console.c:391-419 | ESC [ n @ and P, cell by cell: the rest of the line moves by n, 0 counting as 1 |
| ScreenCells.LinesTo | oslab/linux-0.11/kernel/chr_drv/console.c:401-429 | ESC [ n L and M, cell by cell: the lines from the cursor on move by n, whatever the region |
| ScreenCells.ErasesTo | oslab/linux-0.11/kernel/chr_drv/console.c:565-570 | ESC [ J and K blank exactly the cells behind the cursor, before it, or both, of the screen or of the line |
| ScreenCells.InsertLinesIs | oslab/linux-0.11/kernel/chr_drv/console.c:401-409 | Inserting n lines, cell by cell |
| ScreenCells.DeleteLinesIs | oslab/linux-0.11/kernel/chr_drv/console.c:421-429 | Deleting n lines, cell by cell |
| ScreenCells.InsertCharsIs | oslab/linux-0.11/kernel/chr_drv/console.c:391-399 | Inserting n characters, cell by cell |
| ScreenCells.DeleteCharsIs | oslab/linux-0.11/kernel/chr_drv/console.c:411-419 | Deleting n characters, cell by cell |
| ScreenCells.SequenceIs | oslab/linux-0.11/kernel/chr_drv/console.c:493-526 | What follows ESC and ESC [ in each state |
| ScreenCells.ListRead | oslab/linux-0.11/kernel/chr_drv/console.c:517-524 | Numbers sent in decimal with semicolons between them are the parameters |
| ScreenCells.SequenceRead | oslab/linux-0.11/kernel/chr_drv/console.c:493-526 | ESC [, up to 16 numbers below 2^32 and a final character: it is obeyed with just those numbers, those not sent being 0 |
| ScreenCells.CursorSent | oslab/linux-0.11/kernel/chr_drv/console.c:560-564 | ESC [ y ; x H, sent as text, puts the cursor there, counted from 1, if that is on the screen, and changes no cell |
| Console.Display.MovsL | oslab/linux-0.11/kernel/chr_drv/console.c:116-126 | rep movsl, elementwise |
| Console.Display.MoveUp | oslab/linux-0.11/kernel/chr_drv/console.c:155-167 | The memory move shows the region scrolled and changes nothing outside the window |
| Console.Display.SlideWindow | oslab/linux-0.11/kernel/chr_drv/console.c:112-138 | Moving the window on, wrapping to the start of video memory or not, shows the screen scrolled and changes nothing outside the new window |
| Console.Display.ScrUp | oslab/linux-0.11/kernel/chr_drv/console.c:107-168 | scrup: both ways show the same, storing only inside the new window |
| Console.Display.ScrDown | oslab/linux-0.11/kernel/chr_drv/console.c:170-202 | scrdown, storing only inside the window |
| Console.Display.GotoXy | oslab/linux-0.11/kernel/chr_drv/console.c:87-95 | gotoxy keeps pos on the cursor |
| Console.Display.Lf | oslab/linux-0.11/kernel/chr_drv/console.c:204-212 | lf, storing only inside the new window |
| Console.Display.Ri | oslab/linux-0.11/kernel/chr_drv/console.c:214-222 | ri, likewise |
| Console.Display.Del | oslab/linux-0.11/kernel/chr_drv/console.c:230-237 | del, storing only inside the window |
| Console.Display.CsiJ | oslab/linux-0.11/kernel/chr_drv/console.c:239-266 | csi_J erases from, to, or all around the cursor, inside the window only |
| Console.Display.CsiK | oslab/linux-0.11/kernel/chr_drv/console.c:268-297 | csi_K, likewise within the cursor's line |
| Console.Display.CsiM | oslab/linux-0.11/kernel/chr_drv/console.c:299-311 | csi_m |
| Console.Display.InsertCharHere | oslab/linux-0.11/kernel/chr_drv/console.c:336-348 | insert_char's shifting loop moves the rest of the line one cell on, inside the window only |
| Console.Display.DeleteCharHere | oslab/linux-0.11/kernel/chr_drv/console.c:363-376 | delete_char's loop moves it back, likewise |
| Console.Display.InsertOrDeleteLine | oslab/linux-0.11/kernel/chr_drv/console.c:350-389 | insert_line and delete_line, which borrow the region; each stores only inside the window it ends with |
| Console.Display.Repeat | oslab/linux-0.11/kernel/chr_drv/console.c:391-429 | csi_at, csi_L, csi_P, csi_M with their clamped counts |
| Console.Display.PrintChar | oslab/linux-0.11/kernel/chr_drv/console.c:455-466 | Printing, with the wrap at the last column, storing only inside the window |
| Console.Display.TabStop | oslab/linux-0.11/kernel/chr_drv/console.c:480-489 | Tabs |
| Console.Display.EscapeChar | oslab/linux-0.11/kernel/chr_drv/console.c:493-509 | The character after ESC; 7 and 8 are compared with the column, as the code does |
| Console.Display.ParamChar | oslab/linux-0.11/kernel/chr_drv/console.c:517-524 | Parameters of a control sequence |
| Console.Display.FinalChar | oslab/linux-0.11/kernel/chr_drv/console.c:525-601 | Final characters of a control sequence |
| Console.Display.SetRegion | oslab/linux-0.11/kernel/chr_drv/console.c:586-594 | Setting the region |
| Console.Display.ConWrite | oslab/linux-0.11/kernel/chr_drv/console.c:445-605 | con_write: cursor address, window and screen after any characters are those of Screen.Write |
| Console.SameOnBothCards | oslab/linux-0.11/kernel/chr_drv/console.c:107-168 | An EGA moving its origin and a card moving memory show the same after any input |
| LineDiscipline.EditKeeps | oslab/linux-0.11/kernel/chr_drv/tty_io.c:145-228 | Every character keeps the line count right and every finished line in place |
| LineDiscipline.TypeAppends | oslab/linux-0.11/kernel/chr_drv/tty_io.c:145-228 | Ordinary text is appended |
| LineDiscipline.ErasesUndo | oslab/linux-0.11/kernel/chr_drv/tty_io.c:177-190 | As many erases as characters typed restore the state |
| LineDiscipline.KillUndoes | oslab/linux-0.11/kernel/chr_drv/tty_io.c:161-176 | Kill undoes everything typed since the last line end |
| LineDiscipline.CookedAs | oslab/linux-0.11/kernel/chr_drv/tty_io.c:151-228 | What is appended for CR, LF, capitals and everything else under each input flag, and when it counts as a line end |
| LineDiscipline.SpecialDoes | oslab/linux-0.11/kernel/chr_drv/tty_io.c:161-210 | What kill, erase, stop, start, interrupt and quit do, and nothing else; the earlier in this order decides |
| LineDiscipline.KilledIs | oslab/linux-0.11/kernel/chr_drv/tty_io.c:161-176 | Kill leaves what comes before the unfinished line |
| LineDiscipline.CooksAll | oslab/linux-0.11/kernel/chr_drv/tty_io.c:145-228 | copy_to_cooked stops exactly when nothing is typed any more or the secondary queue is full, each character taken once, in order |
| LineDiscipline.Read | oslab/linux-0.11/kernel/chr_drv/tty_io.c:261-272 | What a read returns, with the end-of-file it may take, and what stays are together what was queued, in order |
| LineDiscipline.ReadStops | oslab/linux-0.11/kernel/chr_drv/tty_io.c:261-272 | A read stops at the count, the end of the queue, or in canonical mode an end-of-file, which is never returned |
| LineDiscipline.ReadPast | oslab/linux-0.11/kernel/chr_drv/tty_io.c:261-272 | More than m characters are returned if and only if the count and the queue allow it and, in canonical mode, no end-of-file is among the first m + 1 |
| LineDiscipline.ReadStopsAtNewlineIff | oslab/linux-0.11/kernel/chr_drv/tty_io.c:261-272 | A read returns nothing past the first newline if and only if the count or the queue ends there, or in canonical mode an end-of-file comes no later than right behind it |
| LineDiscipline.ReadTakesTwoLines | oslab/linux-0.11/kernel/chr_drv/tty_io.c:261-272 | A canonical read that returns two lines |
| LineDiscipline.ReadKeeps | oslab/linux-0.11/kernel/chr_drv/tty_io.c:261-272 | Reading keeps the line count right |
| LineDiscipline.WaitsIff | oslab/linux-0.11/kernel/chr_drv/tty_io.c:256-258 | A canonical reader sleeps if and only if no line is finished and the queue is not nearly full |
| LineDiscipline.RunKeeps | oslab/linux-0.11/kernel/chr_drv/tty_io.c:145-289 | Over every interleaving of typing, cooking and reading secondary.data is the number of line ends queued, and no queue overflows |
| Ring.MaskIs | oslab/linux-0.11/include/linux/tty.h:25-31 | The masked subtractions of the ring macros are the fill level and the room left |
| Ring.Written | oslab/linux-0.11/include/linux/tty.h:34-35 | A write at the head appends; nothing unread is overwritten |
| Ring.Taken | oslab/linux-0.11/include/linux/tty.h:32-33 | A read at the tail takes the oldest |
| Tty.Queue.DecHead | oslab/linux-0.11/include/linux/tty.h:26 | DEC forgets the last character |
| Tty.Queue.GetCh | oslab/linux-0.11/include/linux/tty.h:32-33 | GETCH takes the first |
| Tty.Queue.PutCh | oslab/linux-0.11/include/linux/tty.h:34-35 | PUTCH appends, the queue not being full |
| Tty.Queue.Left | oslab/linux-0.11/include/linux/tty.h:28 | LEFT is the room left |
| Tty.Queue.Last | oslab/linux-0.11/include/linux/tty.h:29 | LAST is the last character |
| Tty.Terminal.CopyToCooked | oslab/linux-0.11/kernel/chr_drv/tty_io.c:145-228 | copy_to_cooked in place, without the echo, equal to the function |
| Tty.Terminal.KillLine | oslab/linux-0.11/kernel/chr_drv/tty_io.c:161-176 | The kill loop |
| Tty.Terminal.ReadChars | oslab/linux-0.11/kernel/chr_drv/tty_io.c:261-272 | tty_read's do loop in place |
| Tty.Terminal.WouldWait | oslab/linux-0.11/kernel/chr_drv/tty_io.c:256-258 | Its test for sleeping |
| Pipe.ReadChunk | oslab/linux-0.11/fs/pipe.c:24-35 | One pass moves the oldest bytes out, at least one if there is one |
| Pipe.WriteChunk | oslab/linux-0.11/fs/pipe.c:54-65 | One pass appends a prefix of what is offered, non-empty if there is room |
| Pipe.Fifo | oslab/linux-0.11/fs/pipe.c:13-69 | Over every interleaving of passes that take no page fault, what was read and what is left is what was there and what was written |
| Pipe.ReadsArePrefix | oslab/linux-0.11/fs/pipe.c:13-69 | Under the same passes, from an empty pipe the bytes read are a prefix of those written, at most 4095 behind |
| Pipe.PipeInode.ReadPipe | oslab/linux-0.11/fs/pipe.c:13-39 | read_pipe up to where it would sleep: all asked for, or all there is |
| Pipe.PipeInode.WritePipe | oslab/linux-0.11/fs/pipe.c:41-69 | write_pipe up to where it would sleep: all offered, or all that fits |
| Pipe.PipeInode.TakeChunk | oslab/linux-0.11/fs/pipe.c:24-35 | One pass of read_pipe, in place |
| Pipe.PipeInode.PutChunk | oslab/linux-0.11/fs/pipe.c:54-65 | One pass of write_pipe, in place |
| PipeRun.StepKeeps | oslab/linux-0.11/fs/pipe.c:13-69 | Whatever claims and copies of bytes are interleaved, no more is claimed than there is, every claimed byte is copied once, and each position is delivered once |
| PipeRun.FifoIff | oslab/linux-0.11/fs/pipe.c:13-69 | With passes that move head or tail first and then copy byte by byte, sleeping at any byte: readers get at every position the byte written there, for every content, if and only if each byte is copied out of a slot into which it was the last one copied |
| PipeRun.CleanReadsArePrefix | oslab/linux-0.11/fs/pipe.c:13-69 | Such a run delivers exactly the positions that readers have claimed and copied, in order, at most 4095 behind |
| PipeRun.SafeIff | oslab/linux-0.11/fs/pipe.c:24-65 | A claim takes no slot still to be copied in, nor one still to be copied out, if and only if every order of the copies after it delivers each byte as written |
| PipeRun.SafeFifo | oslab/linux-0.11/fs/pipe.c:13-69 | If every claim is such, then with all copied what was read and then what is left is what was written |
| PipeRun.UnsafeRead | oslab/linux-0.11/fs/pipe.c:32-35 | After a claim for reading of a byte still to be copied in, some order of copies delivers another |
| PipeRun.UnsafeWrite | oslab/linux-0.11/fs/pipe.c:62-65 | After a claim for writing of a slot still to be copied out, likewise |
| PipeRun.WholeRead | oslab/linux-0.11/fs/pipe.c:24-35 | A claim for reading and its copies, undisturbed, are one pass |
| PipeRun.WholeWrite | oslab/linux-0.11/fs/pipe.c:54-65 | A claim for writing and its copies, undisturbed, are one pass |
| PipeRun.StaleByte | oslab/linux-0.11/fs/pipe.c:62-65 | A writer asleep in the fault of its first byte: the reader gets a stale byte and the one written is lost |
| PipeRun.OverwrittenByte | oslab/linux-0.11/fs/pipe.c:32-35 | A reader asleep in the fault of its first byte gets the byte written 4096 positions later |

## Left out

- Boot code, interrupt entry, keyboard tables, serial.c, and the floppy and hard disk controller handshakes: hardware only; a request completes or fails.
- TLB flushes, segment descriptors, FPU state and `switch_to`: no effect in the model; `switch_to` sets the current task.
- `do_no_page`, `share_page`: only their page-table effects (`get_empty_page`, `put_page`, `try_to_share`, filling a held page); finding the sharer and reading the executable are not modelled.
- Writes by task 0 and the kernel to memory below LOW_MEM, and the 8-bit wrap-around of `mem_map` counts.
- I/O errors of `bread` in `_bmap`, `file_read` and `file_write`, which end the call early; those in `free_ind` and `free_dind` are modelled.
- Block numbers of index blocks that go out of date while `bread` sleeps in `_bmap`: in runs a place is looked up and its index block counted in one step. Numbers of data blocks may go out of date (`Hold` of any zone, `Late`).
- FileRun.StepKeeps: while `truncate` sleeps no other step changes its file's tree, though buffer counts may change (`seen`) and reads fail (`bad`); the finding of a block, and the copying of one chunk once its buffer is counted, are single steps.
- FileRun.RunKeeps: a run ends where a late write lands in an index block; what the tree is then depends on the bytes.
- CacheData.CoherentIff: `invalidate_buffers` after a disk change, and a transfer that is cut short; a block's contents are one value.
- `file_read` and `file_write` copy byte by byte within a block; the model copies the slice.
- Device inodes, directories, inode allocation, `iget`, superblocks: they would add cases, not results.
- Fs.FileSystem.FileWrite: one process's call without interference; what others do in between is the subject of FileRun.
- Buffers.Cache.InsertIntoHash: guards `b_next` against NULL, where `fs/buffer.c:166` dereferences it unguarded.
- Buffers.Cache.constructor: takes the number of buffers, at least 2, instead of carving them from memory.
- Buffers.Cache.GetBlk: `wait_on_buffer`, `sync_dev` and `sleep_on` are the points where a stretch ends; which process runs next is the run's choice.
- The elevator's requests do not fail half-way; retries re-run the head and change no order.
- Wake-ups of processes waiting for a request slot or a buffer, in `end_request`: any order of submissions is allowed instead.
- `interruptible_sleep_on`: it empties the queue head it sleeps on and does not have the wake-up property.
- The floppy motor timers of `do_timer`, and functions called by a firing timer: an `add_timer` from one is the next step of the run.
- `exit`, beyond a task becoming a zombie and its slot being released; pid and group bookkeeping.
- KernelMalloc.Allocator.Malloc: `get_free_page` is a parameter; descriptor pages are counted, not placed in memory.
- Exec.Execve: permission checks, reading the file, parsing the `#!` line, closing files and signals; it models the argument strings from the copying to the stack pointer.
- Exec.ArgumentImage.CopyStrings: segment switching (`from_kmem`), since strings are values.
- Console.Display.ConWrite: the beep, the answer to `ESC Z`, and the cursor and origin registers of the card; the direction flag `scrdown` leaves set.
- Tty.Terminal.CopyToCooked: the echo into `write_q`, whose puts are unconditional and can overrun it; `tolower` of characters outside A to Z.
- Tty.Terminal.ReadChars: waiting, signals, VMIN and VTIME; it models the loop once characters are there.
- Pipe.PipeInode.WritePipe: the return value and signal when nobody is at the other end.
- `block_dev.c`, `char_dev.c`, read-ahead in `breada`, `namei.c`, `super.c`, system-call glue, `vsprintf.c`, string routines: dispatch and shallow cases.
