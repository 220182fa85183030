# A verified model of the SLOP kernel's core and its small libc

The kernel runs one process at a time in a single user image region. Everything the region holds is zeroed, copied in,
run, and copied out to a slot of its own when another process takes over. Around this sit two tables of processes, a
round-robin tick, one-place mailboxes, a directory tree with file descriptors on a bump allocator, and an ISO 9660
reader; user programs link a libc with memory streams and its own number printer and parser. The project models these
parts in Dafny and proves what they promise.

`dafny verify dfyconfig.toml` checks everything.

## How it is laid out

Each part comes twice. The operations are functions on plain values, and the theorems are lemmas about those functions.
The code's own form, loops and arrays updated in place, is a method or a class whose `ensures` equate the new state with
those functions of the old one.

| part | operations and theorems | in place |
|---|---|---|
| words, bytes, copies | `Bytes` | |
| ELF planning and loading, argument layout | `Elf`, `ElfFile` (files as the gABI lays them out), `Args`, `Images` | `Elf`, `Args`, `ImageStore` |
| process and task tables, tick | `Procs`, `Tasks`, `TableInv`, `TablePids`, `Scheduler`, `Boundary` | `ProcTable`, `TaskTable` |
| messages | `Ipc`, `KernelMsg`, `Fifo` | `IpcTable` |
| the kernel as a whole | `Kernel` (steps), `KernelInv`, `Safety` (invariant over every run), `Private`, `Refine`, `Suspended`, `Starts` (what starts and resumes) | `Machine` |
| heap, paths, tree, descriptors | `Heap`, `Paths`, `Tree`, `Resolve`, `Vfs`, `VfsMade` (when its calls succeed and what they make), `VfsFailures` (trees it fails on), `Files`, `FilesInv`, `FilesOpen`, `FilesExact` (when an open or a write to a path succeeds), `FilesRun`, `FilesTrip`, `FilesBoot` | `Heap`, `Volume`, `FileTable` |
| ISO 9660 | `Iso`, `IsoPath`, `IsoFile` (discs as ECMA-119 lays them out) | `IsoLoops` |
| libc | `Streams`, `StreamOps`, `StreamRun`, `Print` | `StreamTable`, `Print` |

The process kernel is a state machine with one step per kernel entry: start a program, resume one, send, receive, yield,
exit, timer tick, and a stretch of user instructions, which is any change to the running process's own image and stack.
A step is atomic because the gates for system calls and interrupts keep interrupts off
(`kernel/arch/i386/interrupts.c:111-118`, `kernel/arch/i386/protection_low.asm:110-121`). The main theorem, `RunRefines`,
says that every run of it is a run of a machine (`Private`) in which each process simply owns its memory.

Integers that are 32-bit in the source are `U32` and wrap where the source's do (`Wrap`); pids, ticks and switches are
unbounded, with `nextPid < 2^31 - 1` as the condition for starting a program.

## What the proofs found

Where the code does less than its documentation or its own comments say, the model follows the code; the exact
condition is proved, and an input on which the code fails is given:

- planning bounds `p_vaddr + p_memsz` only after it may have wrapped; segments stay inside the region if and only if no
  sum wraps (`AcceptedInsideRegion`, and `OutsideRegionAccepted` for headers that do not);
- it compares `p_offset + p_filesz` and the end of the program header table with the file's size after they may have
  wrapped, too; bytes and headers come from the file if and only if they did not (`AcceptedInsideFile`,
  `HeadersInsideExactly`, `OutsideFileAccepted`, `OutsideHeaderAccepted`);
- overlapping PT_LOAD segments load as their headers say if and only if they agree where they overlap (`LoadRealises`,
  `OverlapLoads`);
- `exec_resume_pid` resumes a process blocked in receive, which breaks the kernel's invariant; it is safe if and only if
  the process is not blocked (`ResumeNamedSafe`, `BlockedIsResumable`);
- a slash-free path skips the check for "." and ".." and is cut to 31 characters, so a successful touch need not resolve
  to a file, and the comment in `vfs_write_file` that it must is wrong for those paths (`TouchResolves`,
  `TouchedDotIsNoFile`);
- a directory's printed path leads back to it if and only if it is at most 16 deep, fits with its terminator, and no
  directory on it is called "." or ".." (`PrintThenResolve`, `DeepIsLost`, `MadeDotIsLost`); when a cut path fills the
  buffer exactly, the terminator goes one character past it (`TerminatorFits`, `TerminatorOverflows`);
- `vfs_ensure_dir_abs` takes "." and ".." for names, so the directory it reports is the one its path resolves to if and
  only if the path has neither (`EnsureResolves`);
- an open with O_CREAT that then finds no descriptor or no room for a buffer fails, and leaves the new file behind
  (`OpenExactly`);
- `vfs_init` asks for `/bin` and `/mount/cdrom`, which the alias test refuses in every tree (`InitDirsRefused`);
- a directory record whose plain name has a NUL or more than 63 characters is listed under a name that does not find it;
  lookup agrees with listing if and only if every such record comes after a sound one of its listed name
  (`AgreesExactly`, `DirectoryAgreesExactly`, `ListedNotFound`);
- the extent test wraps for sizes above 2^32 - 2048, and exactly for such sizes a directory walk can go round for ever
  (`ValidIs`, `HangsExactly`, `BlankDiscHangs`) and, unless 2^21 sectors fit the volume, leave it (`ReadsInsideExactly`);
- `slop_malloc` grants the last requests below 2^32 blocks that are not there (`GrantIs`);
- the libc's capacity doubling ends if and only if at most 2^31 bytes are needed (`Streams.Doubled`,
  `SeekThenPutHangs`);
- the item count `slop_fwrite` returns is true if and only if `size * nmemb` does not wrap (`FwriteCountIsTrue`,
  `WrappedStoreIsEmpty`);
- `strtol` of a printed INT_MIN gives -LONG_MAX with ERANGE (`DecimalRoundTrip`).

## Model

| member | source | states |
|---|---|---|
| `Elf.PreparePlan` | kernel/elf.c:116-192 | For every file and whatever lies beyond it in memory, the header loop computes `Prepare`; what that is in terms of the file's fields says `ElfFile.PlanOfFile`. |
| `Elf.HeadersInsideExactly` | kernel/elf.c:109-112 | The program headers a valid file header leads to all lie in the file if and only if `e_phoff + e_phnum * 32` does not wrap 32 bits. |
| `Elf.AcceptedInsideRegion` | kernel/elf.c:143-190 | For all headers that pass planning, all segments lie in the reserved region (and then in the plan's window) if and only if no `p_vaddr + p_memsz` wraps 32 bits. |
| `Elf.AcceptedInsideFile` | kernel/elf.c:148-151 | And all segments' bytes lie in the file if and only if no `p_offset + p_filesz` wraps. |
| `Elf.OutsideRegionAccepted` | kernel/elf.c:143-190 | Two headers that pass, the second at the top of the address space. |
| `Elf.OutsideFileAccepted` | kernel/elf.c:148-151 | A header that passes though its bytes are not the file's. |
| `Elf.OutsideHeaderAccepted` | kernel/elf.c:109-112 | A file of 52 bytes that passes the header test with its program header at the top of the address space. |
| `Elf.LoadInPlace` | kernel/elf.c:203-227 | Zeroing and copying in place leaves exactly the load specification of the segments in the region array. |
| `Elf.LoadRealises` | kernel/elf.c:203-227 | Every region byte is the byte of the segment covering it, or zero, if and only if overlapping segments agree on the bytes they share. |
| `Elf.OverlapLoads` | kernel/elf.c:209-227 | Two segments that disagree on a byte: they load, and the image is not what the first header says. |
| `Elf.LoadOrderIrrelevant` | kernel/elf.c:209-227 | Agreeing segments load the same image in any order. |
| `Elf.PreparedImage` | kernel/elf.c:116-240 | Planned, non-wrapping, disjoint segments load as the gABI says: file bytes, then zeros, everywhere else zero. |
| `ElfFile.PlanOfFile` | kernel/elf.c:116-192 | For a file laid out as the gABI says, with any headers anywhere in it: there is a plan if and only if the written fields are what the loader asks for; it has the file's entry point, the PT_LOAD headers' offsets, sizes and addresses in order, the least address as base and the greatest end. |
| `ElfFile.HeaderTest` | kernel/elf.c:87-114 | The header test accepts a written header if and only if its fields are those of a 32-bit little-endian i386 executable and the header table seems to end inside the file. |
| `ElfFile.ImageOfFile` | kernel/elf.c:116-240 | Headers that neither wrap nor overlap: every address they back holds the file's byte, every other zero. |
| `ElfFile.WrittenHolds` | kernel/elf.c:116-141 | There is such a file for all headers. |
| `Args.LayOutInPlace` | kernel/elf.c:242-309 | The pushing loops leave the specified stack and stack pointer, or the specified refusal. |
| `Args.ArgumentsRoundTrip` | kernel/elf.c:258-309 | For every accepted argv, reading argc, the table and the strings as `user/crt0.asm` does gives the (at most 16) arguments back in order. |
| `Args.AcceptedArguments` | kernel/elf.c:258-300 | The argument lists accepted, in closed form: both directions. |
| `Procs.Spawn` | kernel/proc.c:66-89 | A full table refuses and stays as it is; otherwise the next pid is found in the table, the image of the first free slot is cleared, and no other entry or image changes. |
| `ProcTable.Processes.Spawn` | kernel/proc.c:66-89 | The array updates compute the specified table and pid. |
| `ProcTable.Processes.FindSlot` | kernel/proc.c:10-18 | The scan loop returns the first live slot of the pid, or -1. |
| `ProcTable.Processes.AllocSlot` | kernel/proc.c:20-28 | The scan loop returns the first UNUSED slot (ZOMBIE slots are not free here), or -1. |
| `ProcTable.Processes.Reap` | kernel/proc.c:189-218 | Only a zombie is reaped; slot and image are cleared and `used` drops. |
| `ProcTable.Processes.Bind` | kernel/proc.c:171-178 | The pid's image entry is replaced; nothing else changes. |
| `TaskTable.Scheduler.OnTimerTick` | kernel/task.c:284-320 | The tick, its loop over slots included, computes the specified tick on both tables. |
| `TaskTable.Scheduler.FindNext` | kernel/task.c:302-318 | The loop stops at the nearest READY slot in cyclic order, or finds none. |
| `TaskTable.Scheduler.ReturnToKernelMain` | kernel/task.c:33-51 | The running task is preempted in both tables and pid 0 runs. |
| `TaskTable.Scheduler.SetTask` | kernel/task.c:138-154 | Setting a state, with the preemption and slice reset that RUNNING brings. |
| `TaskTable.Scheduler.Spawn` | kernel/task.c:116-136 | A task and a process with the same new pid, or neither. |
| `TaskTable.Scheduler.ReapPid` | kernel/task.c:156-174 | The slot is cleared; reaping the current task returns to pid 0. |
| `Scheduler.RoundRobin` | kernel/task.c:284-320 | With m >= 2 runnable tasks, the j-th in cyclic order takes over within 4 j ticks from any slice; from slice 0, 4 m ticks give each exactly four, change nothing else, and count m switches. |
| `Scheduler.TicksAreFair` | kernel/task.c:284-320 | The same for both tables at any step boundary. |
| `Scheduler.QueueIsExact` | kernel/task.c:302-318 | The cyclic queue names every runnable slot once. |
| `TableInv.SetBothKeeps` | kernel/task.c:138-154 | Setting a state in both tables keeps them paired and counted. |
| `TableInv.TickKeeps` | kernel/task.c:284-320 | A tick keeps the tables settled and moves only READY and RUNNING. |
| `Boundary.SettledIs` | kernel/task.c:138-174 | Settled tables: exactly the current task RUNNING, no zombie, one process per task with equal pid and state, both counters the live count. |
| `Boundary.EveryBoundary` | kernel/exec.c:83-150 | The same at every step boundary of every run from boot, refused starts included. |
| `Ipc.MessageRoundTrip` | kernel/ipc.c:136-185 | A message copied out to user memory and back is the same message. |
| `Ipc.MessageLayout` | kernel/kernel.h:148-156 | Each field of a message lies at the offset of its member. |
| `IpcTable.Mailboxes.Post` | kernel/ipc.c:151-166 | The mailbox half of send: claims a box, refuses a full one. |
| `IpcTable.Mailboxes.Take` | kernel/ipc.c:169-185 | Receive empties the box and returns its message, or nothing. |
| `IpcTable.Mailboxes.BlockRecv` | kernel/ipc.c:81-98 | The waiter of the pid is found or claimed and given the pointer. |
| `KernelMsg.WaiterAvailable` | kernel/ipc.c:68-98 | The running process never lacks a waiter slot: at most 31 others can be blocked. |
| `KernelMsg.DeliverWakes` | kernel/ipc.c:100-134 | Delivery to a blocked process succeeds: the message is in its memory, it is READY in both tables, eax is 0. |
| `ImageStore.Store.SlotForPid` | kernel/elf.c:66-85 | The two loops return the pid's slot, or claim the first free one. |
| `ImageStore.Store.SnapshotImage` | kernel/elf.c:320-341 | The copy loop stores the window in the pid's snapshot and touches no other. |
| `ImageStore.Store.ResumeImage` | kernel/elf.c:343-376 | Zeroing and copying back give the region the snapshot. |
| `ImageStore.Store.WriteToTaskMemory` | kernel/elf.c:378-410 | Bytes go to the snapshot or the stack by the range tests, image first, or nowhere. |
| `ImageStore.Store.LoadFromPlan` | kernel/elf.c:194-240 | A slot is claimed and the region holds the loaded program. |
| `Images.RangesAgree` | kernel/syscall.c:80-96 | The range accepted when a process blocks is the range accepted when the message is delivered, wrap-around included. |
| `Images.PlannedProgram` | kernel/elf.c:143-240 | What planning accepts is a program the loader may copy if and only if neither kind of sum wraps in any segment. |
| `Machine.Computer.UnblockDeliver` | kernel/ipc.c:100-134 | The composite over tables, snapshots and waiters computes the specified delivery, failures included. |
| `Machine.Computer.Send` | kernel/ipc.c:136-167 | Direct delivery, or else the mailbox. |
| `Machine.Computer.UserSend` | kernel/syscall.c:594-606 | The system call: pointer test, copy in, send. |
| `Machine.Computer.UserRecv` | kernel/syscall.c:608-623 | The system call: a pending message, or a waiter and a stop. |
| `Machine.Computer.StopUser` | kernel/task.c:203-231 | A stop saves the context, snapshots the image, sets both states and runs pid 0. |
| `Machine.Computer.BeginUser` | kernel/task.c:176-203 | Up to user mode: both states RUNNING, then restore or argument layout. |
| `Machine.Computer.ExecProgram` | kernel/exec.c:107-150 | Spawn, load, bind, run, with the clean-up on each failure path. |
| `Machine.Computer.ResumeNextReady` | kernel/task.c:251-282 | The first READY process with a saved context is resumed. |
| `Machine.Computer.ExitUser` | kernel/task.c:233-249 | The exit stop and the two reaps. |
| `Safety.BootInv` | kernel/task.c:69-92 | The tables `kmain` sets up satisfy the invariant. |
| `Safety.StepKeeps` | kernel/exec.c:83-150 | Every step keeps the kernel invariant: settled tables, injective image slots, waiters only for blocked processes with empty mailboxes and valid buffers. |
| `Safety.RunKeeps` | kernel/exec.c:83-276 | So does every run. |
| `Safety.ResumeNamedSafe` | kernel/exec.c:241-276 | `exec_resume_pid` does not look at the state: it keeps the invariant if and only if the process is not blocked in receive. |
| `Safety.BlockedIsResumable` | kernel/exec.c:249-257 | Every process that blocks in receive is such a process: `exec_resume_pid` accepts it, and the invariant is lost. |
| `Starts.ExecStartsExactly` | kernel/exec.c:83-150 | `exec` starts a planned program if and only if the tables have a free entry, some image slot has no living owner, the entry point is inside the image, and the arguments fit the stack. |
| `Starts.StartsAtEntry` | kernel/exec.c:107-150 | What is started is the next pid, and it starts at the program's entry point. |
| `Starts.SpawnNeedsSlot` | kernel/task.c:116-136 | With settled tables a spawn is refused only when the task table is full: the process table then has room exactly when the task table has. |
| `Starts.AnySlot` | kernel/elf.c:258-309 | Whether arguments are accepted depends neither on the stack's old contents nor on which stack slot it is. |
| `Starts.ResumeNextExactly` | kernel/task.c:251-282 | The run loop resumes a process if and only if some loaded process is READY: none is stranded for want of a saved context. |
| `Starts.LowestResumes` | kernel/task.c:251-282 | And the one resumed is that in the lowest slot. |
| `Refine.StepRefines` | kernel/elf.c:194-410 | Every kernel step is a step of a machine in which each live process has its own private image, stack, registers and mailbox, and each new one the next pid, never had before by anybody and without mail, its program's image and arguments, and its program's entry point to run from. |
| `Refine.RunRefines` | kernel/elf.c:194-410 | Every run of the kernel is a run of that machine, with the same visible outputs. |
| `Suspended.SuspendedKeepsMemory` | kernel/elf.c:320-410 | However long others run, a suspended process keeps image, stack and registers, changed at most by one received message. |
| `Suspended.ResumeRestores` | kernel/elf.c:343-376 | Resuming restores exactly those bytes and registers. |
| `Suspended.NeverReissued` | kernel/proc.c:72-73 | Over every run, whoever starts later has the greater pid. |
| `Fifo.StepConserves` | kernel/ipc.c:100-185 | One step: pending before, plus accepted, is received, plus pending after. |
| `Fifo.RunIsFifo` | kernel/ipc.c:100-185 | For every destination and every run, messages pending and accepted are exactly those received and then at most one pending, in order, over both delivery paths. |
| `Fifo.BlockedWakes` | kernel/ipc.c:100-167 | A send to a blocked process always succeeds, puts the stamped message in its buffer and makes it READY with eax 0. |
| `Heap.AllocIs` | kernel/heap.c:41-57 | A request succeeds exactly when the heap is ready, the size is nonzero and the bytes fit; the heap then moves past them by less than 16 more. |
| `Heap.Consumed` | kernel/heap.c:41-57 | The heap moves by exactly the sizes handed out, each rounded up to 16. |
| `Heap.EveryHeapIsSound` | kernel/heap.c:19-77 | For every reported memory size and every request sequence: blocks aligned, pairwise disjoint, inside the heap and below the user image; used + free = total without underflow. |
| `Heap.InitIs` | kernel/heap.c:19-39 | The heap starts at the first multiple of 16 behind the kernel and ends at the end of the reported memory, on 32-bit words, or at the user image; it is ready if and only if that leaves a byte. |
| `Heap.Allocator.Kmalloc` | kernel/heap.c:41-57 | The method computes the specified heap and block. |
| `Paths.PathJoin` | kernel/vfs.c:71-98 | The buffer loops join exactly when the result and its terminator fit. |
| `Paths.NextAppend` | kernel/vfs.c:204-225 | The next component of a path is decided before the slash that ends it. |
| `Paths.SplitParent` | kernel/vfs.c:269-324 | The parent and the last name make up the path; the name is neither empty, nor longer than 31 characters, nor "." or ".."; the refusals exactly. A slash-free path keeps its first 31 characters, unchecked. |
| `Tree.FindIs` | kernel/vfs.c:193-202 | In a well-formed tree lookup finds a node exactly if it is the child of that name. |
| `Tree.FindChildLoop` | kernel/vfs.c:193-202 | The pointer walk computes that lookup. |
| `Tree.OnOneList` | kernel/vfs.c:175-191 | Every node is on one sibling list only, its parent's, and there once. |
| `Tree.GrownOk` | kernel/vfs.c:175-191 | Linking in a new name keeps the tree well-formed and lookup finds it. |
| `Resolve.ResolveLoop` | kernel/vfs.c:231-267 | The loop computes path resolution. |
| `Resolve.SplitResolves` | kernel/vfs.c:231-324 | Resolving a splittable path with a slash is looking up its last name in its resolved parent. |
| `Resolve.ResolveStays` | kernel/vfs.c:231-267 | What a path resolves to, it resolves to as the tree grows. |
| `Resolve.PrintThenResolve` | kernel/vfs.c:694-738 | For every directory of every well-formed tree, resolving its printed path from anywhere gives it back if and only if it is at most 16 deep, its full path and terminator fit, and no directory on the way is called "." or "..". |
| `Resolve.PrintsFullPath` | kernel/vfs.c:694-738 | At most 16 deep and with room, the text printed is the whole path. |
| `Resolve.TerminatorFits` | kernel/vfs.c:711-737 | The text never exceeds the buffer, and leaves room for the terminator unless a proper part of the names fills it to the last character. |
| `Vfs.RunKeepsTree` | kernel/vfs.c:126-173 | Every run of make_dir, touch, ensure_dir and write_file keeps the tree well-formed, and every resolved path resolved. |
| `Vfs.RunPrints` | kernel/vfs.c:694-738 | After every run of calls, for every directory, the same if and only if. |
| `Vfs.CleanRunPrints` | kernel/vfs.c:425-493 | If no call's slash-free path is "." or "..", depth and length alone decide. |
| `Vfs.TouchResolves` | kernel/vfs.c:457-493 | A successful touch resolves to a file if and only if the path has a slash, or is at most 31 characters and not "." or "..". |
| `VfsMade.MakeDirExactly` | kernel/vfs.c:425-455 | A directory is made if and only if the path is not the disc's, its parent resolves to a directory without the name, and the heap has room for a node; otherwise nothing changes. |
| `VfsMade.MakeDirResolves` | kernel/vfs.c:425-455 | The node made is an empty directory, and the path resolves to it if and only if it has a slash, or is at most 31 characters and not "." or "..". |
| `VfsMade.TouchExactly` | kernel/vfs.c:457-493 | A touch succeeds if and only if the path is not the disc's and its parent resolves to a directory that has a file of the name, or has no such name and there is room for a node; otherwise nothing changes. |
| `VfsMade.TouchAdds` | kernel/vfs.c:457-493 | A touch changes nothing where the file is there; otherwise the tree gains one node, the empty file of that name in that directory. |
| `VfsMade.EnsureResolves` | kernel/vfs.c:126-173 | When `vfs_ensure_dir_abs` succeeds there is a directory below every name of the path, and the path resolves to it if and only if none of the names is "." or "..". |
| `VfsMade.AliasedExactly` | kernel/vfs.c:27-69 | The alias test is true of `/bin`, `/mount/cdrom` and what goes on below one of them with a slash, and of nothing else. |
| `VfsMade.OneMoreComponent` | kernel/vfs.c:231-267 | After any path that resolves, "." stays, ".." is the parent (of the root, the root), and another name is the child of that name. |
| `VfsMade.AbsoluteNames` | kernel/vfs.c:71-98 | A relative path joined to its directory's printed path resolves from anywhere to what it resolves to from there, if that directory's path can be printed. |
| `VfsFailures.LinearOk` | kernel/vfs.c:175-191 | Any sequence of names is the path of some directory of some well-formed tree. |
| `VfsFailures.MadeDotIsLost` | kernel/vfs.c:286-290 | `mkdir .` at the root makes an empty directory that prints "/.", which resolves to the root. |
| `VfsFailures.TouchedDotIsNoFile` | kernel/vfs.c:286-290 | `touch .` at the root succeeds, and "." resolves to no file. |
| `VfsFailures.DeepIsLost` | kernel/vfs.c:703-709 | No directory more than 16 deep resolves from what it prints. |
| `VfsFailures.TerminatorOverflows` | kernel/vfs.c:719-737 | A directory whose printed text takes all 128 characters, before the terminator. |
| `VfsFailures.InitDirsRefused` | kernel/vfs.c:359-362 | `/bin` and `/mount/cdrom` can be made in no tree. |
| `Volume.GetCwdPath` | kernel/vfs.c:694-738 | The loops write exactly the specified text and terminator, and nothing beyond. |
| `Volume.Store.MakeDir` | kernel/vfs.c:425-455 | The method computes the specified tree, heap and result. |
| `Volume.Store.Touch` | kernel/vfs.c:457-493 | Likewise. |
| `Volume.Store.EnsureDirAbs` | kernel/vfs.c:126-173 | Likewise, directories left behind by a failure included. |
| `Volume.Store.WriteFile` | kernel/vfs.c:582-624 | Touch, resolve, allocate, publish on the node, with each failure point. |
| `Files.FirstSysOk` | kernel/syscall.c:190-216 | With no descriptor open and a tree of empty files, the invariant every file theorem starts from holds. |
| `FilesBoot.BootedOk` | kernel/vfs.c:352-368 | After the directories and files of `vfs_init`, too, with no descriptor open: every file theorem starts from the booted machine. |
| `FilesBoot.SeedsWritten` | kernel/vfs.c:325-368 | Booting writes both seed files if and only if the heap has room, after the root, for five nodes, the first file rounded up to 16 bytes and the second. |
| `FilesBoot.BootedFiles` | kernel/vfs.c:325-368 | With that room, each seed's path names a file of exactly its bytes when booting is done. |
| `FilesBoot.BootedDirs` | kernel/vfs.c:352-362 | With room for their nodes, `/docs`, `/mount` and `/tmp` name directories. |
| `Files.Doubled` | kernel/syscall.c:230-239 | The doubling ends, never wraps, and stops below twice the need. |
| `Files.EnsureCapacityOk` | kernel/syscall.c:218-252 | Growth keeps the bytes written and touches no memory handed out before. |
| `FilesInv.ReadRefines` | kernel/syscall.c:298-319 | A read hands out the next bytes of the descriptor's simple file and moves its position; nothing else changes. |
| `FilesInv.WriteRefines` | kernel/syscall.c:349-387 | A write overwrites and extends the simple file at its position; it fails exactly for a bad descriptor or buffer or when the heap has no room for the next capacity, and then changes nothing. |
| `FilesOpen.OpenRefines` | kernel/syscall.c:389-460 | A successful open shows the file as it is on a slot of its own (empty for a truncating writer), every other descriptor and file as before. |
| `FilesExact.OpenExactly` | kernel/syscall.c:389-460 | An open succeeds if and only if the full path fits, names a file (or, with O_CREAT, one is there or can be made), a descriptor is free, and the heap has room for the node and the first buffer it needs; it gets the lowest free descriptor. Without a free descriptor the error is ERR_NFILE, otherwise ERR_INVAL. The tree is as it was, but for the named file if O_CREAT had to make it. |
| `FilesExact.FlagBits` | kernel/syscall.c:34-39 | Which bits of the flags ask for reading, writing, creating, truncating and appending. |
| `FilesExact.FullNames` | kernel/syscall.c:143-162 | The full path an open keeps resolves from anywhere to what the caller's path resolves to from its directory. |
| `FilesExact.FirstBuffer` | kernel/syscall.c:218-252 | A new descriptor gets its buffer if and only if the first doubling of 256 that is enough fits the heap. |
| `FilesOpen.PublishRefines` | kernel/vfs.c:582-628 | The file at the path then holds exactly the bytes; every other file and every descriptor shows what it did. |
| `FilesExact.PublishExactly` | kernel/vfs.c:582-628 | Publishing succeeds if and only if the file is there or can be made, and the heap has room for its node and its bytes; what it takes of the heap. |
| `FilesOpen.CloseRefines` | kernel/syscall.c:462-480 | Closing a changed descriptor publishes its bytes at its path; a failed close leaves it open. |
| `FilesRun.DescriptorRefines` | kernel/syscall.c:190-387 | For every interleaving of calls by all processes, each descriptor behaves as its own (bytes, position) file. |
| `FilesTrip.LastCloseWins` | kernel/syscall.c:462-480 | Over every run a file holds what was last published there. |
| `FilesTrip.CloseKeepsAll` | kernel/syscall.c:349-480 | Opened truncated, written in any chunks, closed: the file is the concatenation of the chunks. |
| `FilesTrip.AppendKeepsAll` | kernel/syscall.c:349-480 | Opened to append, written in any chunks, closed: the file is what it was, and after it the chunks. |
| `FilesTrip.ReadsWhatWasThere` | kernel/syscall.c:389-460 | A read-only descriptor reads exactly the bytes the file held at its open, whatever is published meanwhile. |
| `FilesTrip.RoundTrip` | kernel/syscall.c:254-480 | Write, close, open, read: the bytes come back, for any chunking on both sides and any other calls in between. |
| `FilesTrip.RoundTripByPath` | kernel/syscall.c:254-480 | And by path alone: opening the same absolute path again, from any directory, reads the bytes back. |
| `FileTable.Descriptors.constructor` | kernel/syscall.c:190-216 | The empty table over a tree of empty files is that first state. |
| `FileTable.DoublingLoop` | kernel/syscall.c:230-239 | The loop computes the doubling. |
| `FileTable.Descriptors.EnsureRoom` | kernel/syscall.c:218-252 | The loop and the copy compute the specified memory and descriptor. |
| `FileTable.Descriptors.Read` | kernel/syscall.c:254-320 | The byte loop fills the caller's buffer with the specified bytes. |
| `FileTable.Descriptors.Write` | kernel/syscall.c:322-387 | Gap, bytes, terminator and fields as specified. |
| `FileTable.Descriptors.OpenPathname` | kernel/syscall.c:389-460 | Touch, lookup, slot, copy, with each failure point. |
| `FileTable.Descriptors.PublishFile` | kernel/vfs.c:582-628 | The write with its copy: the bytes and the terminator in the fresh block. |
| `FileTable.Descriptors.Close` | kernel/syscall.c:462-480 | Publishing and slot reset as specified. |
| `Iso.AgreesExactly` | kernel/fs.c:100-228 | For every record: it is found by exactly the components that are its listed name in some letter case, if and only if it has a Rock Ridge name or a plain one, up to its version, that is free of NUL and at most 63 characters; any other is not found even by its listed name. |
| `Iso.ListedNotFound` | kernel/fs.c:162-228 | Two records that are listed and not found: a name of 64 letters, and one with a NUL. |
| `Iso.DirectoryAgreesExactly` | kernel/fs.c:273-585 | Over all components a path can give, search stops at the first record listed under the name, if and only if every record of the directory is such or is listed after such a one of the same name. |
| `Iso.LookupAgreesWithListing` | kernel/fs.c:273-585 | In such a directory, with room for all entries, lookup succeeds exactly on the listed names, in any letter case, and returns the first such record. |
| `Iso.FindIsFirst` | kernel/fs.c:273-318 | On every disc lookup is the first match of the complete walk, or how the walk ends; what the match points to on a written disc says `IsoFile.FindsWritten`. |
| `IsoFile.RecordRead` | kernel/fs.c:100-318 | From a record written as ECMA-119 section 9.1 lays it out, with a Rock Ridge name or none, the reader gets the extent, size and flags that were written, and exactly the components that are its name in some letter case match. |
| `IsoFile.FindsWritten` | kernel/fs.c:273-318 | In a directory of written records, over any number of sectors, looking a name up gives extent, size and flags of the first record of that name, and misses if and only if there is none. |
| `IsoFile.ListsWritten` | kernel/fs.c:537-585 | Its listing is the names written, in order and in lower case, with their directory flags. |
| `IsoFile.VolumeRead` | kernel/fs.c:230-254 | From a descriptor written as section 8.4 lays it out, the reader gets the root's extent, size and flags and the volume's size. |
| `IsoFile.ReadsWritten` | kernel/fs.c:320-418 | From descriptor through written directories to a written file: reading its path gives exactly the bytes stored, if they are at most 2 MB and there is room, and nothing otherwise. |
| `IsoFile.OneFileRead` | kernel/fs.c:320-418 | There is such a disc for every file of at most 2 MB, and it gives the file back under its name in any letter case. |
| `Iso.ValidIs` | kernel/fs.c:256-271 | The extent test is exact if and only if the rounded size does not wrap, or the answer could not depend on it. |
| `Iso.OffsetGrows` | kernel/fs.c:281-315 | The walk's offset grows strictly, except from the last sector a 32-bit offset can name. |
| `Iso.WalkEnds` | kernel/fs.c:281-315 | No walk of an extent of at most 2^32 - 2048 bytes comes round, whatever the disk holds. |
| `Iso.BlankComesRound` | kernel/fs.c:281-315 | Above that size, a blank extent is walked for ever. |
| `IsoPath.HangsExactly` | kernel/fs.c:281-315 | Some disc makes the walk of an extent go on for ever, if and only if the extent is larger than 2^32 - 2048 bytes. |
| `IsoPath.BlankDiscHangs` | kernel/fs.c:420-492 | On a disc that is blank but for a descriptor of such a root, resolving any component never ends. |
| `IsoPath.DescriptorExists` | kernel/fs.c:230-254 | There is such a descriptor. |
| `IsoPath.GoComposes` | kernel/fs.c:420-492 | `p/q` resolves as `q` from the directory `p` resolves to. |
| `IsoPath.ReadsExtent` | kernel/fs.c:320-418 | A file read gives exactly the bytes of the extent that resolution finds, if and only if it is a file of at most 2 MB, there is room, and every sector can be read. |
| `IsoPath.ReadsStayInside` | kernel/fs.c:420-492 | Every sector resolution reads lies inside the volume, no walk hangs, and what the path resolves to is inside it, if the directories the path leads through and its target claim at most 2^32 - 2048 bytes each. |
| `IsoPath.FileReadsInside` | kernel/fs.c:394-413 | So do the sectors of the file. |
| `IsoPath.ReadsInsideExactly` | kernel/fs.c:256-318 | In a directory that passes the extent test no search on any disc reads outside the volume, if and only if it claims at most 2^32 - 2048 bytes or 2^21 sectors fit the volume from its start; otherwise a blank disc makes it read the sector after the last. |
| `IsoLoops.ReadRockRidge` | kernel/fs.c:100-145 | The entry and character loops gather exactly the specified name. |
| `IsoLoops.FindChildLoop` | kernel/fs.c:273-318 | The sector loop computes the lookup, on every disc and extent where it ends. |
| `IsoLoops.ListLoop` | kernel/fs.c:537-585 | The sector loop computes the listing, wherever it ends. |
| `IsoLoops.GoLoop` | kernel/fs.c:446-492 | The character loop computes the resolution, wherever it ends. |
| `IsoLoops.CopyLoop` | kernel/fs.c:394-413 | The sector and byte loops copy the extent and terminate it. |
| `Streams.GrantIs` | user/external/sloplib/slop_alloc.c:31-35 | The allocator's test is exact if and only if the rounded sum does not wrap, or wraps to more than the arena; a request of 2^32 - 4 bytes is granted by an empty arena. |
| `Streams.MallocIs` | user/external/sloplib/slop_alloc.c:23-42 | A request that cannot wrap succeeds exactly when header and bytes fit the arena; the size is in front of the block. |
| `Streams.Doubled` | user/external/sloplib/slop_stdio.c:68-71 | The doubling ends if and only if at most 2^31 is needed. |
| `StreamOps.EnsureMoves` | user/external/sloplib/slop_stdio.c:56-83 | Growing is stuck exactly beyond 2^31, and below works exactly when the new block fits the arena. |
| `StreamOps.EnsureOk` | user/external/sloplib/slop_stdio.c:56-83 | Growing shows nothing: bytes kept, everything beyond them zero. |
| `StreamRun.PutRefines` | user/external/sloplib/slop_stdio.c:186-291 | A store is the sparse file's own, refused without room, or stuck beyond 2^31. |
| `StreamRun.FreadRefines` | user/external/sloplib/slop_stdio.c:217-252 | A read takes min(want, rest) bytes from the position, sets eof when short, and returns whole items. |
| `StreamRun.FgetcRefines` | user/external/sloplib/slop_stdio.c:159-180 | The next byte, or -1 and eof. |
| `StreamRun.FseekRefines` | user/external/sloplib/slop_stdio.c:334-365 | The new position, eof cleared, or the error flag. |
| `StreamRun.FseekExactly` | user/external/sloplib/slop_stdio.c:334-365 | A seek from the start, the position or the end succeeds if and only if it ends at 0 or above and below 2^31, and then that is the position. |
| `StreamRun.TakenExactly` | user/external/sloplib/slop_stdio.c:217-252 | A read takes the bytes from the position on, as many as are asked for or all there are. |
| `StreamRun.StreamsAreSparseFiles` | user/external/sloplib/slop_stdio.c:159-404 | Any run of calls on any number of streams: each behaves as its own sparse byte file, whose gaps read as zeros. |
| `StreamRun.EveryStream` | user/external/sloplib/slop_stdio.c:159-404 | From the start of a program, whatever was called before: a stream that is made starts as an empty sparse file and is one in whatever is called afterwards. |
| `StreamRun.SeekThenPutHangs` | user/external/sloplib/slop_stdio.c:68-71 | After a seek to 2^31 - 1, storing one byte never returns, on any stream. |
| `StreamRun.FwriteCountIsTrue` | user/external/sloplib/slop_stdio.c:254-279 | The items a store reports are the items it stored, if and only if the product of the sizes does not wrap 32 bits. |
| `StreamRun.WrappedStoreIsEmpty` | user/external/sloplib/slop_stdio.c:254-279 | 2^16 items of 2^16 bytes: all reported, none stored. |
| `StreamTable.Library.EnsureCapacity` | user/external/sloplib/slop_stdio.c:56-83 | The loops compute the specified arena and stream, for every request whose loop ends. |
| `StreamTable.Library.Reallocate` | user/external/sloplib/slop_alloc.c:44-73 | Kept, or moved with its bytes. |
| `StreamTable.Library.Store` | user/external/sloplib/slop_stdio.c:186-291 | The store shared by fputc and fwrite. |
| `StreamTable.Library.ReadItems` | user/external/sloplib/slop_stdio.c:217-252 | The copy loop and the fields of fread. |
| `Print.AppendU32` | user/external/sloplib/compat_stdio.c:60-74 | The digit loops append exactly the decimal digits, as far as they fit. |
| `Print.AppendS32` | user/external/sloplib/compat_stdio.c:76-85 | With the sign, the least integer included. |
| `Print.Vsnprintf` | user/external/sloplib/compat_stdio.c:87-140 | For every size the buffer gets exactly the longest prefix of the whole rendering that leaves room for a terminator, and the result is the whole length; size 0 gives -1. |
| `Print.RendersParts` | user/external/sloplib/compat_stdio.c:87-140 | Every format made of text, %%, %s, %d, %u, %lu and %c renders as what its parts stand for, one after the other, numbers in decimal. |
| `Print.Strtol` | user/external/sloplib/compat_stdlib.c:29-75 | Spaces, sign and digits as specified: the number written, clamped to LONG_MAX in magnitude with ERANGE. |
| `Print.DecimalRoundTrip` | user/external/sloplib/compat_stdlib.c:29-75 | Parsing what `%d` prints gives the number back for every int but INT_MIN, which gives -LONG_MAX with ERANGE. |
| `Print.ParsesWritten` | user/external/sloplib/compat_stdlib.c:29-75 | Spaces, a sign or none, and digits, whatever follows that is no digit: the number, clamped to LONG_MAX in magnitude with ERANGE, and where it ends. |
| `Print.ParsesNothing` | user/external/sloplib/compat_stdlib.c:29-75 | Without digits nothing is read and there is no error; another base is EINVAL. |

## Left out

- `proc_wait`, kernel-mode `ksys_exit`, `task_spawn_kernel` and `proc_spawn_kernel`: not steps of a process.
- `ipc_reply` is `ipc_send` under another name, and `ksys_yield` only returns 0; the stop they lead to is the Yield step.
- Process names, the current directory and console stored with a process, and every line printed inside core functions.
- Wrap of `next_pid`, `runtime_ticks` and `switches`: the counters are unbounded; starting a program needs a pid below 2^31 - 1.
- Interrupts before the first program starts, and the assembly that enters and leaves user mode: a user run is an arbitrary change to the process's own image and stack.
- Machine.Computer.BeginUser: lays the arguments out in a copy of the stack slot and stores it back, because the slots are one array; the in-place loops themselves are `Args.LayOutInPlace`.
- Machine.Computer.ExecProgram: starts from a planned program; reading the file and planning it are `Elf.PreparePlan`.
- Elf.LoadInPlace: segments inside the region and the file only; the code also copies those whose sums wrapped, from and to memory that is not part of this model (`AcceptedInsideRegion` and `AcceptedInsideFile` say which they are).
- Elf.LoadRealises: likewise.
- `/bin` and `/mount/cdrom` inside the tree: the alias test is modelled and refuses creation and writing there; opening such a path is refused as with no disc in the drive, and `vfs_change_dir`, `vfs_list` and `vfs_stat` are not modelled.
- Volume.Store.WriteFile: the copy of the bytes and their terminator is `FileTable.Descriptors.PublishFile`, which has the memory.
- Vfs.WriteFile: for a slash-free "." or ".." the node published to is the directory it resolves to, as in the code; what later readers of a directory's data would see is not modelled.
- Node memory: nodes are kept in allocation order with indices for pointers; each takes its 56 bytes of the heap, but its fields are not stored as bytes.
- Reads from the keyboard and writes to the console (descriptors 0 to 2), and the copying of path strings from user memory.
- FilesRun.DescriptorRefines: user buffers are at most 128 KiB, the size of the image region that a valid one lies in.
- Iso.Matches: a name that runs past its record's sector is followed only to the end of the sector.
- `iso_list_dir`, the mount table and the storage devices: `storage_read` is a function from a sector number to 2048 bytes or a failure.
- Print.Vsnprintf: renderings of at most 2^31 - 1 characters, and arguments of the types the format asks for; anything else is undefined in C.
- Streams on file descriptors (`fopen` and the `sys_read`/`sys_write` loops), `fgets`, `fputs` and `vfprintf`: only memory streams are modelled.
- Streams.MallocIs: requests whose rounded sum with the used part stays below 2^32; what is granted beyond is `Streams.GrantIs`, what it then overwrites is not modelled.
- StreamOps.Fseek: the sum of two 32-bit signed numbers wraps, where C leaves overflow undefined.
- Service table, keyboard queue, ATAPI, serial port, descriptor tables, console, shell and user programs.
