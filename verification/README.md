# A verified model of the kernel, the file system and process management

This project models the core of a small microkernel operating system in Dafny and proves what its protocols,
on-disk structures and tables keep. C pointers into tables are indices, a null pointer is `None`, a flag word
is the set of its bits, and a failed `assert` or a `panic` is a stop of its own.

- **Messages and scheduling.** `Ipc` is the rendezvous protocol of `kernel/proc.c` as a step machine;
  `IpcInvariant` proves what each step keeps and exactly when it stops, `IpcRuns` what holds over whole runs
  and runs that stop. `Scheduler` is the tick-credit scheduler with its starvation bound. `Kernel` holds the
  code itself: a class over the array of process slots with the intrusive sender lists, whose methods are
  proved to be steps of the two machines. `IpcMemory` says what every event does to buffers and slots, and that
  it does nothing else.
- **File system.** `BlockDevice` is the disk and the one sector buffer, byte by byte. `SectorMap` has the two
  allocators and the three-phase release over bits, bytes and sectors; `Words`, `Inodes` and `Directory` the
  records and slots on disk; `ReadWrite` the chunked transfer; `MakeFs` the construction and `Super` the super
  block. `Volume` is the file system as a value with its consistency, `VolumeDisk` the proof that every write
  to the disk is one change of that value, `DirectoryMap` the directory as a map from names to numbers,
  `UniformExtents` the runs in which extents never fragment, `HarmfulName` and `StaleEntry` two runs that end unsound.
  `FileTable` and `FileTableRuns` are the descriptor and i-node tables with their reference counts.
  `FileSystem` is the server: a class over the tables and the disk whose methods are the requests, tied both
  to the tables and to the volume. `FileSystemRuns` is the loop of `task_fs` and what holds over any number of
  its turns: consistency, counts, names and extents; `FileBytes` what happens to the contents of files,
  `Descriptors` to slots, descriptors and positions, and `Outcomes` which requests are granted and what they
  leave on the device. `DiskFormat` is the format in bytes and numbers.
- **Processes.** `Lifecycle` is fork, exit and wait, literally, `LifecycleSafety` what they keep, and
  `LifecycleRuns` whole runs: statuses delivered once, waits answered at most once, stale links.
- **Marshalling.** `Argv` (argument lists through `execv` and `do_exec`), `Untar` (archives) with `TarPack`
  (the packing that it undoes), `Tty` (ring buffer and line editing).

## Where the code does less than one would expect

The model follows the code, and each of these has a lemma with the exact condition:

- `kernel/proc.c:175` is not implied when the source is a specific process: `IpcInvariant.ReceiveKeeps`, with
  a run in `IpcRuns.LatchedReceiveFails`.
- `mm/forkexit.c:36` copies the list head of a process that others may be blocked on, and lines 36, 127, 157 and
  173 copy, mark and free a process that may be blocked sending: `IpcInvariant.ForkKeepsIff`,
  `IpcInvariant.MarkKeepsIff`, `IpcInvariant.FreeKeepsIff`, `IpcRuns.RunKeepsIff`, with runs in
  `IpcRuns.ForkBreaks` and `IpcRuns.BlockedBreaks`.
- `kernel/proc.c:40` fails when the receiver is also waiting for a child: `IpcInvariant.SendKeeps`, with a run in
  `IpcRuns.MarkedReceiverFails`. The assertion of `inform_int` never fails for a task:
  `IpcRuns.InformNeverFails`.
- `mm/forkexit.c:135` assigns `~WAITING`, which marks INIT as sending, dead and free: `LifecycleSafety.ExitKeepsIff`,
  with a run in `LifecycleRuns.SpoilsHappens`; `IpcInvariant.OverwrittenFlags` is what comes of the next message.
- `mm/forkexit.c:148` counts free slots as children, and such a wait never returns:
  `LifecycleRuns.NoChildIff`, `LifecycleRuns.StuckForGood`, with a run in `LifecycleRuns.StaleWaitHappens`.
- `fs/main.c:250-263` writes the first sector of the directory only, at every boot, so old slots survive in
  the others: the directory is a map exactly when they are zero, `MakeFs.MadeDirOkIff`; a name over an old
  slot may not be found again, `DirectoryMap.EnterOverIff`; and since `fs/misc.c:82-97` compares the slot behind the
  last entry too, an old name can lead to a number that is not in use: `FileSystem.LeadsIff`,
  `FileSystemRuns.RunSoundIff`, with a run in `StaleEntry.StaleOpens`.
- `fs/main.c:159` assigns `dir_ent_inode_off` where `inode_isize_off` is meant: `Super.WriteSuper`.
- `fs/open.c:270` gives number 0 when the i-node map is full; sectors are taken, and `new_inode` goes through
  a null pointer: `FileSystem.Server.AllocBits`. On the grid this cannot happen: `UniformExtents.NumbersLeft`.
- `fs/read_write.c:48-60` clamps sectors, not bytes, and a read past the end makes the file longer:
  `ReadWrite.CountWithin`, `FileSystem.Server.DoRdwt`; a write past the end of its extent runs into the next file:
  `FileBytes.OverrunLands`.
- `mm/exec.c:41-59` loads the program over the arguments it is about to copy: `Argv.DoExecArgs`, with a program in
  `Argv.SegmentLosesBlock`.
- `fs/link.c:39-46` keep the reference they took, for good: `FileSystemRuns.RunCountsIff`,
  `FileSystem.RefusedForGood`, `FileSystemRuns.RunRefuses`.
- `fs/link.c:152-155` shrinks the directory by counting used slots: `DirectoryMap.RemoveUnbinds`,
  `DirectoryMap.RemoveLoses`.
- `fs/open.c:419` lets the NUL of a 12-character name run into the next slot: `DirectoryMap.EnterHarms` (which
  names are lost), `Volume.CreateKeepsIff` and `FileSystemRuns.RunSoundIff` (when the file system stays
  consistent). It always does on a run that keeps cmd.tar on a device with a gap, `FileSystemRuns.RunExtents`,
  as long as nothing stale is opened; without a gap `HarmfulName.HarmHappens` is a run on which it does not.
- `fs/open.c:303-333` is free of fragmentation only with a gap before cmd.tar: `UniformExtents.AllocIff`,
  `UniformExtents.NoGapRunsOn`, `MakeFs.GapIff`.
- `kernel/tty.c:258` never answers a request for no characters: `Tty.NothingWanted`.

## Model

| member | source | states |
|---|---|---|
| `IpcInvariant.EdgeKeepsAcyclic` | kernel/proc.c:189-210 | a new SENDING edge keeps the wait-for graph acyclic if and only if its receiver does not already reach its sender |
| `IpcInvariant.SendKeeps` | kernel/proc.c:20-74 | a send panics exactly when it would close a cycle, fails an assertion exactly when the receiver it wakes is not merely receiving, and otherwise keeps the invariant |
| `IpcInvariant.ReceiveKeeps` | kernel/proc.c:76-178 | a receive never deadlocks, fails an assertion exactly when it blocks on a specific process with an interrupt latched (line 175), and otherwise keeps the invariant |
| `IpcInvariant.InformKeeps` | kernel/proc.c:303-323 | an interrupt notification fails only when the awaited task has other flags set, and otherwise keeps the invariant |
| `IpcInvariant.MarkKeepsIff` | mm/forkexit.c:127-157 | setting WAITING or HANGING keeps the invariant if and only if the process is not blocked sending |
| `IpcInvariant.FreeKeepsIff` | mm/forkexit.c:173 | freeing a slot keeps the invariant if and only if the process is not blocked sending |
| `IpcInvariant.ForkKeepsIff` | mm/forkexit.c:36 | copying a whole slot keeps the invariant if and only if neither slot has senders queued and the parent is not blocked sending itself |
| `IpcInvariant.OverwriteBreaks` | mm/forkexit.c:135 | the overwrite of the flags breaks the invariant whenever it is reached |
| `IpcInvariant.OverwrittenFlags` | mm/forkexit.c:133-137 | after line 135 no message reaches INIT: deadlock is led out of the process table, and behind it a failed assertion or a blocked sender waits |
| `IpcInvariant.StepKeepsIff` | mm/forkexit.c:36-173 | any step that can occur and does not stop the machine keeps the invariant if and only if the memory manager marked, freed and copied nobody that is blocked and did not execute line 135 |
| `IpcInvariant.StepKeeps` | kernel/proc.c:275-301 | every enabled step that succeeds keeps the invariant; enabled leaves out what StepKeepsIff shows to break it |
| `IpcRuns.BootInv` | kernel/main.c:91-100 | the tables of kernel_main satisfy the invariant |
| `IpcRuns.RunKeeps` | kernel/proc.c:20-178 | every state of every run of enabled steps satisfies the invariant |
| `IpcRuns.RunKeepsIff` | mm/forkexit.c:36-173 | over every run, whomever the memory manager marks, frees and copies, all states satisfy the invariant if and only if nobody it marked, freed or copied was blocked sending, every copy was made between slots with no senders queued, and line 135 was never executed |
| `IpcRuns.ForkBreaks` | mm/forkexit.c:36 | a fork with a sender queued can occur: while a process waits for the memory manager to fork it, another one blocks sending to it |
| `IpcRuns.BlockedBreaks` | mm/forkexit.c:36-173 | a process that sends its request twice is blocked sending when the memory manager works on it: after a fork the reply of line 105 panics, after a mark or a free the next receive of the memory manager fails its assertion |
| `IpcRuns.NoMissedRendezvous` | kernel/proc.c:27-72 | in no reachable state does a process block receiving from a sender, or from anybody, that is queued on it |
| `IpcRuns.NoWaitCycle` | kernel/proc.c:189-210 | in no reachable state does a chain of blocked senders come back to where it began |
| `IpcRuns.StopsIff` | kernel/proc.c:23-50 | exactly when an enabled step panics or fails an assertion, in terms of the state before it |
| `IpcRuns.LatchedReceiveFails` | kernel/proc.c:175 | the assertion of line 175 does fail: a task with a latched interrupt receives from a process that is not sending |
| `IpcRuns.SendersDeadlock` | kernel/proc.c:24-26 | two processes that send to each other reach the deadlock panic |
| `IpcRuns.MarkedReceiverFails` | kernel/proc.c:40-48 | the assertions after a hand-over fail when INIT asks to wait with SEND alone, receives from anybody, is marked for that request, and is then sent to |
| `IpcRuns.InformNeverFails` | kernel/proc.c:303-323 | over every run in which the memory manager marks no task and copies over none, whatever else it does, the assertion of inform_int never fails for a task |
| `IpcRuns.RunConserves` | kernel/proc.c:27-72 | over every run the messages of one process to another are the messages delivered, in order and once each, followed by the one still pending |
| `IpcRuns.RunOrdered` | kernel/proc.c:54-64 | over every run every queue is in the order in which its members sent what they wait with |
| `IpcRuns.ArrivalOrder` | kernel/proc.c:103-116 | over every run from boot, whatever else the receiver receives, a receive from ANY takes the sender that has been blocked on it the longest |
| `IpcRuns.TakenInOrder` | kernel/proc.c:105-116 | for a process that only receives from ANY, those it has taken followed by those still queued are in order all that blocked on it |
| `IpcRuns.LatchSurvives` | kernel/proc.c:84-102 | a latched interrupt stays latched until the task receives from ANY or INTERRUPT or is copied over |
| `IpcRuns.InterruptNotLost` | kernel/proc.c:303-323 | after an interrupt the task has received HARD_INT, or the next receive from ANY or INTERRUPT delivers it |
| `IpcMemory.SendMemory` | kernel/proc.c:27-34 | a send puts the message, with the sender's pid in it, into the buffer of a receiver that awaits it; of all other buffers only the sender's own changes, by that pid |
| `IpcMemory.ReceiveMemory` | kernel/proc.c:84-164 | a receive changes the receiver's buffer and no other: it holds the latched interrupt, or the message of the sender taken, unchanged, or its own pid when it blocks |
| `IpcMemory.InformMemory` | kernel/proc.c:303-323 | an interrupt writes source and kind into the buffer of a task that waits for one, and nothing else |
| `IpcMemory.ForkMemory` | mm/forkexit.c:36-84 | a fork gives the child the parent's buffers and leaves everybody else's |
| `IpcMemory.StepMemory` | kernel/proc.c:20-178 | no event changes a buffer that it does not touch |
| `IpcMemory.RunMemory` | kernel/proc.c:20-178 | over every run a buffer changes only by what its owner writes and traps with, by deliveries to it, by interrupts for it, and by a copy over its address space |
| `IpcMemory.PostedStays` | kernel/proc.c:49-72 | a message that has been posted stays as it is, and stays addressed, until it is taken |
| `IpcMemory.StepSlots` | kernel/proc.c:20-178 | an event changes no slot but those of its two parties |
| `IpcMemory.StepLatch` | kernel/proc.c:84-102 | exactly when an interrupt is latched: inform_int for a task that does not wait sets the latch, and only a receive that may take it clears it |
| `IpcMemory.StepKinds` | mm/forkexit.c:110-174 | exactly when a slot waits for a child, is dead or is free |
| `IpcMemory.StepBlocks` | kernel/proc.c:20-178 | exactly who blocks and who wakes at every event: sending and receiving afterwards, each if and only if |
| `Kernel.Machine.constructor` | kernel/main.c:15-121 | the initial table: natives runnable with their ticks (15 for tasks, 5 for processes), other slots free, no lists |
| `Kernel.Machine.PickBest` | kernel/proc.c:250-257 | the scan leaves the first runnable slot with the most ticks, or no pick when nobody has credit |
| `Kernel.Machine.RefillTicks` | kernel/proc.c:265-271 | after the refill the ticks of every runnable slot are its priority, and every other slot has its old ticks |
| `Kernel.Machine.Schedule` | kernel/proc.c:246-273 | in table fields: with no credit among the runnable every one of them gets its priority in ticks, otherwise no ticks change; the pick is the first runnable slot with the most ticks; the loop ends after at most one refill |
| `Kernel.RefillPick` | kernel/proc.c:250-271 | after a refill the pick is the first runnable slot of greatest priority |
| `Kernel.Machine.DetectDeadlock` | kernel/proc.c:189-210 | the pointer chase ends within the number of slots and returns 1 exactly when the receiver reaches the sender |
| `Kernel.Machine.Block` | kernel/proc.c:180-183 | a blocked process is taken off the processor |
| `Kernel.Machine.HandOver` | kernel/proc.c:27-48 | a send to a waiting receiver copies the message and clears the receiver's flags |
| `Kernel.Machine.HookTail` | kernel/proc.c:54-64 | walking next_sending finds the tail and appends the sender there |
| `Kernel.Machine.HookSender` | kernel/proc.c:54-66 | the intrusive list of the receiver becomes the old one with the sender at its end |
| `Kernel.Machine.Enqueue` | kernel/proc.c:49-72 | a blocking send is the abstract step: queued, flagged, and another process picked |
| `Kernel.Machine.MsgSend` | kernel/proc.c:20-74 | msg_send on the process table is the send step of the protocol, with the same panics and failed assertions; only a send that blocks needs somebody else to run |
| `Kernel.Machine.Unhook` | kernel/proc.c:144-153 | removal from the front or the middle of the list removes just that sender |
| `Kernel.Machine.Take` | kernel/proc.c:144-164 | taking a sender delivers its message, unhooks and wakes it |
| `Kernel.Machine.Wait` | kernel/proc.c:165-177 | a receive with nothing to take blocks as the protocol says |
| `Kernel.Machine.TakeInterrupt` | kernel/proc.c:84-102 | a latched interrupt is handed over as HARD_INT and the latch is cleared |
| `Kernel.Machine.FindCandidate` | kernel/proc.c:103-143 | the sender to take: the head of the queue for ANY, the given sender if it is blocked on the caller |
| `Kernel.Machine.MsgReceive` | kernel/proc.c:76-178 | msg_receive on the process table is the receive step of the protocol, buffers included, with the same failed assertions; only a receive that blocks needs somebody else to run |
| `Kernel.Machine.InformInt` | kernel/proc.c:303-323 | inform_int is the notification step of the protocol; in table fields: a task that waits for it wakes with source and kind in its buffer, any other has it latched |
| `Kernel.Machine.Preempt` | kernel/clock.c:25-36 | the current process keeps the processor while re-entered or with credit left, else the scheduler picks |
| `Kernel.Machine.Charge` | kernel/clock.c:16-20 | one interrupt costs the current process one tick, never below zero, and nobody else any; the global counter wraps at 0x7FFFABCD |
| `Kernel.Machine.ChargeAndPoll` | kernel/clock.c:16-23 | the charge and the keyboard poll together |
| `Kernel.Machine.ClockHandler` | kernel/clock.c:14-37 | a clock interrupt is a tick of the scheduling machine and the keyboard notification of the protocol; in table fields: the charge, what a key press leaves of the slot of TASK_TTY and of its buffer, and when and how the processor changes hands |
| `Kernel.Machine.SysSendRec` | kernel/proc.c:275-301 | the system call fails its assertions exactly for inadmissible arguments, panics for an unknown function, goes astray on a send to ANY or INTERRUPT, and else is one protocol step |
| `Kernel.LinkedAppend` | kernel/proc.c:54-64 | hooking a sender to the tail of one list leaves the lists of all other receivers as they were |
| `Kernel.LinkedRemove` | kernel/proc.c:144-153 | unhooking a sender leaves every list the sequence without it |
| `Kernel.QueuesSeparate` | kernel/proc.c:118-153 | lists of different receivers have no process in common |
| `Scheduler.SchedulesIff` | kernel/proc.c:246-273 | a schedule exists exactly when somebody runnable has credit or positive priority |
| `Scheduler.PickExists` | kernel/proc.c:250-257 | if anybody runnable has credit there is a first one with the most |
| `Scheduler.StillStaffed` | kernel/clock.c:16-23 | as long as somebody runnable has a priority, the clock handler can schedule after it has charged and woken |
| `Scheduler.NextTasks` | kernel/proc.c:259-271 | everybody keeps his priority, and his ticks but for the charge, unless there is a refill, which gives to each who can run his priority in ticks |
| `Scheduler.NextCpu` | kernel/proc.c:246-273 | the processor stays where it is, or goes to the first of those who can run with the most ticks |
| `Scheduler.RunTicks` | kernel/clock.c:19-20 | over a run without a refill a process has what it had less what it paid, one tick a time; over any run its priority stays |
| `Scheduler.RunRefill` | kernel/proc.c:265-271 | at every refill of a run a process that can run gets the whole priority it has had from the start |
| `Scheduler.TickSpends` | kernel/clock.c:14-37 | while a process is kept waiting every non-reentrant tick spends one unit of credit and no refill happens |
| `Scheduler.StarvationBound` | kernel/proc.c:246-273 | a process that stays runnable with credit runs within as many non-reentrant clock interrupts as there are ticks in all, in a window without forks |
| `BlockDevice.Disk.Read` | fs/main.c:266-276 | reading sectors fills the front of the buffer and leaves the rest |
| `BlockDevice.Disk.Write` | fs/main.c:266-276 | writing sectors splices the front of the buffer into the disk |
| `BlockDevice.MaskTest` | fs/link.c:94-95 | the test of the last byte passes exactly when its low bits are all set |
| `SectorMap.PaintBits` | fs/open.c:299-325 | painting a run adds exactly its bits to the map, or takes exactly them away |
| `SectorMap.PaintElsewhere` | fs/link.c:58-97 | painting a run that lies on the map changes no byte outside the map |
| `SectorMap.PaintBack` | fs/link.c:58-97 | setting a clear run and clearing it again, or the other way round, restores the disk |
| `SectorMap.AllocFree` | fs/open.c:290-336 | allocate-then-free: the release finds its bits set, and the sector map comes back bit for bit |
| `SectorMap.StepByte` | fs/open.c:318-323 | repainting one byte of the buffered sector moves the end of the run inside that byte |
| `SectorMap.Flush` | fs/link.c:79-83 | writing the buffered sector brings the disk up to the buffered run |
| `SectorMap.FillByte` | fs/open.c:318-323 | sets bits of a byte until it ends or enough are set; stops at a set bit exactly when there is one in the way |
| `SectorMap.FirstZero` | fs/open.c:313 | finds the first clear bit of a byte that is not full |
| `SectorMap.AllocByte` | fs/open.c:309-323 | one byte of the search keeps track of the run, or finds that it meets a set bit |
| `SectorMap.AllocInBuffer` | fs/open.c:308-324 | one sector of the search |
| `SectorMap.AllocSector` | fs/open.c:303-331 | one sector read, searched and written back once the run has begun |
| `SectorMap.AllocSmapBit` | fs/open.c:290-336 | takes the run that starts at the first clear bit, and fails its assertion exactly when that run is not clear or not on the map |
| `SectorMap.AllocImapBit` | fs/open.c:242-277 | takes the first clear bit of the first map sector; when it is full returns 0 and changes nothing |
| `SectorMap.FreeImapBit` | fs/link.c:49-56 | fails its assertion exactly when the bit is clear, and else clears that bit only |
| `SectorMap.ClearHead` | fs/link.c:69-73 | clears bits of the first byte until it ends or enough are cleared; fails exactly when one of them is clear |
| `SectorMap.ClearFirst` | fs/link.c:58-73 | the first phase, from the division of the sector number into sector, byte and bit |
| `SectorMap.NextSector` | fs/link.c:79-83 | past the end of a sector it is written and the next one read, with nothing lost |
| `SectorMap.ClearByte` | fs/link.c:84-85 | a whole byte is cleared, or the assertion fails exactly when one of its bits is clear |
| `SectorMap.ClearMiddle` | fs/link.c:76-86 | the second phase over any number of bytes and sectors |
| `SectorMap.ClearTail` | fs/link.c:94-96 | the third phase: the low bits of the last byte, possibly none |
| `SectorMap.ClearRest` | fs/link.c:76-97 | the second and third phases together, and the last write |
| `SectorMap.FreeExtent` | fs/link.c:58-97 | for every start and length the three phases succeed exactly when all bits of the extent are set, and then clear those bits on disk and nothing else |
| `Words.WordRound` | include/sys/fs.h:67-71 | a 32-bit field written and read back is the same |
| `Words.WordBack` | include/sys/fs.h:67-71 | four bytes are the bytes of the word that they hold |
| `Inodes.InodeRound` | fs/main.c:321-327 | a record written and read back is the same |
| `Inodes.LoadInode` | fs/main.c:306-313 | loads the record of the i-node, by sector and offset in the sector |
| `Inodes.StoreInode` | fs/main.c:317-328 | read-modify-write of one record changes nothing else on the disk |
| `DiskFormat.RecordFormat` | include/sys/fs.h:72-83 | where on the device, in bytes, the record of an i-node and each of its four fields are |
| `DiskFormat.SlotFormat` | include/sys/fs.h:108-111 | where slot m of the directory is: 16 bytes each, the number and twelve bytes of name |
| `DiskFormat.MapFormat` | fs/open.c:247-262 | bit k of a map is bit k mod 8 of byte k div 8; the i-node map is sector 2 and the sector map follows it |
| `DiskFormat.SectorBit` | fs/open.c:312-316 | the bits of an extent are those of its sectors, bit s - n_1st_sect + 1 for sector s |
| `Directory.StripPath` | fs/misc.c:102-123 | drops one leading slash, keeps at most twelve characters of the text before the NUL, and fails exactly when a slash is among them |
| `Directory.OneSlash` | fs/misc.c:108-110 | one leading slash is dropped: what follows is the name |
| `Directory.LongPath` | fs/misc.c:115-118 | a name longer than twelve characters is cut after the twelfth |
| `Directory.InnerSlash` | fs/misc.c:112-114 | a slash among the first twelve characters makes a path bad |
| `Directory.NulEnds` | fs/misc.c:111 | what stands behind a NUL does not matter |
| `Directory.SearchFile` | fs/misc.c:77-97 | returns the number in the first slot with the name among the entries and the one slot after them that is probed, else 0 |
| `Directory.Scan` | fs/open.c:397-415 | finds the first entry with a number, counting the used slots before it, and leaves its sector in the buffer |
| `Directory.NewDirEntry` | fs/open.c:380-423 | writes number, name and NUL into the first free slot or behind the last entry; the bytes on disk, including where the NUL of a 12-character name goes |
| `Directory.RemoveEntry` | fs/link.c:113-155 | zeroes the first slot with the number; with the last slot the entry count becomes the number of used slots before it |
| `Directory.EnterSlots` | fs/open.c:418-423 | those bytes, seen as slots: the name ends at its NUL, and a 12-character name clears the low byte of the next slot's number unless its slot is the last of a sector |
| `Directory.WipeSlots` | fs/link.c:137-138 | a zeroed slot is the empty slot, and no other slot changes |
| `Directory.SlotsApart` | fs/open.c:423 | writes outside the directory do not change it |
| `DirectoryMap.SearchIsLookup` | fs/misc.c:66-98 | with padded names and zeroed free slots the search is the lookup of a map, in spite of the extra slot it probes |
| `DirectoryMap.PlaceEmpty` | fs/open.c:397-417 | a new entry always finds an empty slot |
| `DirectoryMap.EnterBinds` | fs/open.c:380-426 | adding a fresh name adds exactly one binding and keeps the directory well formed |
| `DirectoryMap.EnterHarms` | fs/open.c:419 | a binding is lost if and only if a 12-character name is put in front of a live entry of the same sector whose number has a non-zero low byte |
| `DirectoryMap.EnterOverIff` | fs/open.c:418-420 | a new name over an old slot can be found again if and only if the old slot is zero behind the new name's NUL |
| `DirectoryMap.UsedIsEnd` | fs/link.c:143-153 | the number of used slots is where they end exactly when no free slot precedes a used one |
| `DirectoryMap.RemoveUnbinds` | fs/link.c:113-155 | removal takes away exactly one binding, and leaves the directory well formed if and only if the slot was not the last or no free slot precedes a used one before it |
| `DirectoryMap.RemoveLoses` | fs/link.c:152-155 | a directory of four entries in which the shrinking cuts a live entry off |
| `DirectoryMap.EnterRemove` | fs/open.c:380-426 | creating and removing a fresh name restores every slot |
| `FileTable.AcquireKeeps` | fs/main.c:280-315 | get_inode returns an entry equal to the record on disk, and keeps the counts exact and the cache sound if and only if the i-node is in use |
| `FileTable.LookKeeps` | fs/misc.c:47-56 | get_inode followed by put_inode keeps them so even when it is not |
| `FileTable.ReleaseKeeps` | fs/main.c:370-373 | put_inode never finds a zero count and keeps the counts exact |
| `FileTable.ConnectKeeps` | fs/open.c:98-106 | connecting slot, descriptor and i-node keeps all counts exact |
| `FileTable.AttachKeeps` | fs/main.c:379-384 | one slot of fs_fork keeps all counts exact |
| `FileTable.DetachKeeps` | fs/open.c:182-191 | giving up a slot finds positive counts, keeps them exact, and clears fd_inode exactly with the last slot |
| `FileTable.SyncKeeps` | fs/main.c:317-328 | sync_inode keeps the cache equal to the disk and changes no other record |
| `FileTable.WipeKeeps` | fs/link.c:102-108 | wiping the record of an i-node with one reference and giving that up keeps everything exact |
| `FileTableRuns.StepKeeps` | fs/open.c:41-191 | every request keeps the counts exact up to references held elsewhere, of which a refused unlink leaves one and no other request any |
| `FileTableRuns.RunHeld` | fs/link.c:38-46 | over every run, what the file system itself holds is the root directory and the refused unlinks |
| `FileTableRuns.StaysHeld` | fs/link.c:38-46 | a reference that the file system holds is never given up, and its entry keeps its i-node, over every run |
| `FileTableRuns.RunExactIff` | fs/link.c:38-46 | after every run i_cnt is the number of slots that reach the i-node plus the root pin if and only if no unlink was refused; descriptor counts and the cache are always exact |
| `Volume.AllocatedExtents` | fs/open.c:158-164 | a new extent keeps all extents disjoint and the sector map exactly their bits |
| `Volume.CreateKeepsIff` | fs/open.c:151-170 | creating a file keeps the file system consistent if and only if its name is harmless: a 12-character name that goes in front of an entry leaves that entry's number 0 or the number of an i-node in use of its own |
| `Volume.UnlinkAsserts` | fs/link.c:53-95 | in a consistent file system the bits that do_unlink asserts are all set |
| `Volume.FreedExtents` | fs/link.c:49-106 | releasing a file keeps the sector map exactly the bits of the remaining extents |
| `Volume.UnlinkKeeps` | fs/link.c:47-155 | removing a file keeps the file system consistent, even when the directory shrinks too far |
| `Volume.SizedKeeps` | fs/read_write.c:87-90 | a file that grows keeps the file system consistent |
| `Volume.CreateUnlink` | fs/link.c:49-97 | creating and removing a file restores both maps |
| `VolumeDisk.PaintImap` | fs/open.c:262-269 | a bit of the i-node map on disk is that bit of the volume and nothing else |
| `VolumeDisk.PaintSmap` | fs/open.c:318-327 | a run of the sector map on disk is that run of the volume and nothing else |
| `VolumeDisk.SpliceRecord` | fs/main.c:321-327 | a record on disk is that record of the volume and nothing else |
| `VolumeDisk.SpliceDir` | fs/open.c:423 | a write to the directory changes its slots and nothing else |
| `VolumeDisk.SpliceData` | fs/read_write.c:74-79 | a write behind the directory changes nothing of the volume |
| `UniformExtents.FitIsCell` | fs/open.c:303-333 | first fit takes the lowest free cell of the grid |
| `UniformExtents.AllocIff` | fs/open.c:334 | the assertion of alloc_smap_bit holds if and only if a cell below cmd.tar is free |
| `UniformExtents.NoGapRunsOn` | fs/open.c:311-316 | when the grid ends exactly at cmd.tar, first fit goes on behind cmd.tar instead |
| `UniformExtents.CreateOnGrid` | fs/open.c:151-170 | creating a file, whatever its name, keeps all files on the grid and the file system consistent |
| `UniformExtents.CreateLow` | fs/open.c:242-277 | a new file keeps all i-node numbers below 256: its number is at most one more than the files on the grid and those of mkfs |
| `UniformExtents.LowIsHarmless` | fs/open.c:418-420 | with such numbers the NUL of a 12-character name leaves 0 of the next entry's number, so every name is harmless |
| `UniformExtents.Crowd` | fs/open.c:242-277 | on the grid at most 70 numbers are in use without a hole |
| `UniformExtents.RemoveOnGrid` | fs/link.c:47-155 | removing a created file keeps the others on the grid |
| `UniformExtents.RunOnGrid` | fs/open.c:303-333 | every state of every run of creating and removing files, with any names, is consistent and on the grid |
| `UniformExtents.RunAllocates` | fs/open.c:334 | in every run, allocation fails exactly when every cell is taken |
| `UniformExtents.FewFiles` | fs/open.c:303-333 | a stretch of cells holds no more files than cells |
| `UniformExtents.NumbersLeft` | fs/open.c:242-277 | so the i-node map never fills up |
| `MakeFs.InitImap` | fs/main.c:181-187 | the i-node map sector is 0x3F and zeros, and the assertion on it holds |
| `MakeFs.FillRoot` | fs/main.c:190-197 | the first sector of the sector map: bit 0 and the root directory |
| `MakeFs.InitSmap` | fs/main.c:190-204 | the whole sector map: bit 0 and the root directory, everything else clear |
| `MakeFs.MarkCmd` | fs/main.c:208-225 | the loop that marks cmd.tar sets exactly its bits, across sector boundaries |
| `MakeFs.InitMaps` | fs/main.c:180-225 | both maps, and the assertion that fails exactly when there is no room |
| `MakeFs.FillInodes` | fs/main.c:228-247 | the records of the root directory, the terminals and cmd.tar, and zeros |
| `MakeFs.FillDir` | fs/main.c:251-262 | the five entries of the root directory, and zeros |
| `MakeFs.Mkfs` | fs/main.c:131-264 | what mkfs leaves on the disk, the super block included, and that it leaves everything behind the first directory sector alone |
| `Super.WriteSuper` | fs/main.c:148-169 | sector 1 holds the fourteen fields and then 0x90; one field is never assigned and holds what the stack held |
| `Super.ReadSuper` | fs/main.c:343-362 | the magic number and the layout read back are those that mkfs wrote |
| `DiskFormat.SuperFormat` | fs/main.c:149-167 | the layout of a device in numbers, and the value of every word of its super block but the one never assigned |
| `DiskFormat.BootRecords` | fs/main.c:226-246 | the five records of a fresh file system in numbers: the directory, three terminals, cmd.tar |
| `DiskFormat.BootPaths` | fs/main.c:248-263 | the paths "/", "/dev_tty0" to "/dev_tty2" and "/cmd.tar" lead to i-nodes 1 to 5 |
| `MakeFs.MadeOnGrid` | fs/main.c:180-263 | what mkfs leaves is consistent and starts every run on the grid |
| `MakeFs.MadeDirOkIff` | fs/main.c:250-263 | after mkfs the directory is a map if and only if its slots behind the first sector are zero, and then it is the map of the five names |
| `MakeFs.ClearedIff` | fs/main.c:250-263 | those slots are zero if and only if the bytes of these sectors are |
| `ReadWrite.CountWithin` | fs/read_write.c:48-60 | in fields: a write within i_nr_sects * 512, or a read within i_size, moves all its bytes, and the bytes moved stay within that bound if and only if the request did |
| `ReadWrite.CountAcross` | fs/read_write.c:48-60 | in numbers: what a request across the bound moves, up to the end of the sector in which the bound lies or of the last chunk, or nothing |
| `ReadWrite.WindowOnDisk` | fs/read_write.c:58-62 | a request within an extent that ends a chunk before the end of the device goes through sectors on the device only |
| `ReadWrite.ReadChunk` | fs/read_write.c:64-69 | one turn of a read splices disk bytes into the user's buffer |
| `ReadWrite.WriteChunk` | fs/read_write.c:64-79 | one turn of a write splices the user's bytes into the disk, whatever else the chunk covers |
| `ReadWrite.Transfer` | fs/read_write.c:47-91 | the whole loop is one splice of as many bytes as Count says, at any position and length |
| `FileSystem.Server.constructor` | fs/main.c:103-129 | after init_fs the tables are exact and the root directory is pinned |
| `FileSystem.Server.GetInode` | fs/main.c:280-315 | returns the entry in use or the first free one, and panics exactly when there is neither |
| `FileSystem.Server.PutInode` | fs/main.c:370-373 | gives one reference up |
| `FileSystem.Server.UpdateInode` | fs/main.c:317-328 | the entry and its record change together, and no other byte of the disk |
| `FileSystem.Server.SearchPath` | fs/misc.c:66-98 | where a path leads on this disk |
| `FileSystem.Server.FindFd` | fs/open.c:58-66 | the first free descriptor number |
| `FileSystem.Server.FindDesc` | fs/open.c:68-73 | the first free descriptor |
| `FileSystem.Server.AllocBits` | fs/open.c:158-163 | fails exactly when no run of sectors fits; takes the first number and the first run; when the i-node map is full the number is 0 and the sectors are taken all the same |
| `FileSystem.Server.NewInode` | fs/open.c:350-368 | the new i-node in memory and on disk, with one reference |
| `FileSystem.Server.AddEntry` | fs/open.c:380-426 | the new name on disk and the new size of the directory, in memory and on disk |
| `FileSystem.Server.CreateFile` | fs/open.c:151-170 | all of a new file, or no way on exactly when sectors, numbers (a null pointer is used) or entries of the i-node table run out |
| `FileSystem.Server.OpenFile` | fs/open.c:75-106 | opening what a path leads to, in use or not; the tables stay sound when it is in use |
| `FileSystem.Server.DoOpen` | fs/open.c:41-135 | exactly when it answers -1, changing nothing, and exactly when it stops; else the lowest free descriptor leads to what the path led to, or to a new file; Descriptors and Outcomes say in fields what that means |
| `FileSystem.Server.DropSlot` | fs/open.c:182-191 | one slot is given up and every count follows |
| `FileSystem.Server.DoClose` | fs/open.c:182-191 | do_close is that |
| `FileSystem.Server.FsExit` | fs/main.c:389-404 | the process has no slot left, others are as they were, and descriptors and i-nodes are what giving up its slots one by one makes them |
| `FileSystem.Server.FsFork` | fs/main.c:375-387 | after do_fork has copied the slots the counts are made exact: the tables before the copy with the slots of the parent attached to the child |
| `FileSystem.Server.DoStat` | fs/misc.c:16-63 | its reply in every case; in fields: number, mode, size and device number are those of the record on disk, and the tables are those after get_inode and put_inode |
| `FileSystem.Server.FreeBits` | fs/link.c:49-97 | the bits of a file that goes away; an assertion fails exactly when the number is not in use |
| `FileSystem.Server.WipeInode` | fs/link.c:49-108 | maps, record and reference of a file that goes away, or the failed assertion |
| `FileSystem.Server.RemoveName` | fs/link.c:113-155 | its name goes, and the directory shrinks in memory and on disk |
| `FileSystem.Server.DoUnlink` | fs/link.c:14-158 | its reply in every case; a refusal keeps the reference it took; success leaves exactly the tables and the disk without the file |
| `FileSystem.RefusedForGood` | fs/link.c:38-46 | after one refusal every later unlink of the file is refused, in every state of every run of the tables |
| `FileSystem.ForkReady` | mm/forkexit.c:36 | what do_fork does to the slots is what fs_fork expects: the tables before the copy, and slots that lead to open files |
| `FileSystem.Server.MoveBytes` | fs/read_write.c:47-85 | bytes and position of a request |
| `FileSystem.Server.SyncSize` | fs/read_write.c:87-90 | a file whose position is behind its size grows, in memory and on disk, and no other byte changes |
| `FileSystem.Server.DoRdwt` | fs/read_write.c:14-92 | the splice, the new position, the size that follows it in memory and in the record on disk, and that no other byte changes |
| `FileSystem.ReadBack` | fs/read_write.c:62-85 | a write followed by a read of the same bytes returns them |
| `FileSystem.GetPut` | fs/misc.c:47-56 | get_inode followed by put_inode leaves every count, and every entry in use, as it was |
| `FileSystem.Within` | fs/read_write.c:47-91 | a read within i_size or a write within i_nr_sects * 512 moves all its bytes, the position grows by as many, and the size becomes the larger of the two |
| `FileSystem.CreatedConsistent` | fs/open.c:151-170 | after a file has been created the disk is consistent if and only if its name is harmless |
| `FileSystem.TransferConsistent` | fs/read_write.c:87-90 | after a transfer the disk is consistent |
| `FileSystem.LeadsIff` | fs/misc.c:82-97 | in a consistent file system a path leads to a number not in use exactly when it has the name of the slot behind the last entry, that slot is compared, no entry before it has the name, and its number is not 0 and not in use |
| `FileSystem.AlwaysLeads` | fs/misc.c:82-97 | in a consistent file system every path leads nowhere or to an i-node in use, unless the slot behind the last entry is numbered |
| `FileSystemRuns.HandleMessage` | fs/main.c:26-60 | one turn of the loop of task_fs: unless it stops, it is one change of a run of the kind the message asks for, with its reply, or it answers -1 and nothing has happened; behind the directory only a write changes bytes, and a read returns those that are there; a read or write answers -1 exactly when the descriptor was not opened with O_RDWR, and within size or extent moves all that was asked for |
| `Descriptors.TurnSlots` | fs/open.c:99-191 | what every turn does to every filp slot: an opening fills one it found free, a close empties its own, a fork copies the row of the parent, an exit empties a row, nothing else changes any |
| `Descriptors.TurnStand` | fs/open.c:104-106 | what every turn does to the position and the mode of every descriptor: an opening sets 0 and the flags asked for, a transfer through it adds what it moved, nothing else changes either |
| `Descriptors.OpenedFile` | fs/open.c:97-106 | after an opening or a creation slot and descriptor lead to that file, at position 0 with the flags asked for; a new file is regular, empty and 512 sectors long |
| `Descriptors.RunStand` | fs/read_write.c:27-83 | over every run the position of a descriptor moves by the bytes moved through it, as long as it is not opened again, and its mode stays |
| `Descriptors.StandSince` | fs/read_write.c:27-83 | over every run the position is the sum of what was moved since the opening, and the mode is that of the opening |
| `Descriptors.ReadContent` | fs/read_write.c:47-83 | a read within the size returns the bytes of the file from the position on |
| `Descriptors.RefusedIff` | fs/open.c:75-95 | with the names given as a map: exactly which paths are refused, with O_CREAT and without |
| `Descriptors.CreatableIff` | kernel/main.c:306-311 | what untar takes for granted of open: a name can be created if and only if open with O_CREAT and O_RDWR does not refuse it, that is, it leads nowhere and strips to a name that is not empty |
| `Descriptors.CreatableAdds` | fs/open.c:151-175 | after a creation the names are those there were and the new one, padded |
| `Outcomes.OpensIff` | fs/open.c:41-135 | with the names given as a map: exactly when open of an existing path answers a descriptor, by names, table entries and kind of the file |
| `Outcomes.CreatesIff` | fs/open.c:41-160 | exactly when a creation answers a descriptor, by names, free number, free entry and first gap |
| `Outcomes.UnlinkIff` | fs/link.c:24-46 | a name is removed exactly when it stands for a regular file that no entry in memory counts on, else unlink answers -1 |
| `Outcomes.CreatedDevice` | fs/open.c:238-365 | what a creation leaves in maps and records: the least free number, the first gap of the sector map, the record of an empty file for it, everything else as it was |
| `Outcomes.RemovedDevice` | fs/link.c:47-155 | what a removal leaves: the bit of the number and of every sector of the file cleared, its record and its slot empty, everything else as it was |
| `Outcomes.TurnSize` | fs/read_write.c:87-90 | the record of a file changes only by a transfer that ends behind its end, and then the file ends there |
| `FileSystemRuns.InitFs` | fs/main.c:103-129 | init_fs on a device that suits it leaves the state in which all runs begin: consistent, on the grid, low numbers, counts exact, nothing open but the pinned root directory; the directory is the map of the five names if and only if the device had zeros in its other sectors |
| `FileSystemRuns.AsRequest` | fs/main.c:26-60 | every change of the whole file system that opens or refuses only what is in use is a request of the table machine, and the refused unlinks are the refused unlinks |
| `FileSystemRuns.ChangeSoundIff` | fs/main.c:26-60 | a change keeps disk and tables sound (maps exact, extents disjoint, entries distinct and live, counts exact, cache transparent, root pinned) if and only if it neither creates a harmful name nor opens or refuses an i-node that is not in use |
| `FileSystemRuns.RunSoundIff` | fs/main.c:26-60 | over every run of open, create, close, fork, exit, stat, unlink, read and write: all states are sound if and only if no harmful name was created and every path opened or refused led to an i-node in use |
| `FileSystemRuns.RunCountsIff` | fs/main.c:26-60 | over every run whose states are all sound, in the sense of RunSoundIff, i_cnt is the number of filp slots that reach the i-node plus the root pin if and only if no unlink was refused |
| `FileSystemRuns.RunRefuses` | fs/link.c:38-46 | over every run whose states are all sound, once an unlink has been refused every later unlink that leads to the same i-node is refused |
| `FileSystemRuns.ChangeNames` | fs/open.c:380-426 | a change does to the directory what it does to a map from names to numbers (creation adds one binding, removal takes one away, anything else leaves it) if and only if it is orderly: no NUL of a new name spoils the number behind it, and no last slot is removed behind a free one that precedes a used one |
| `FileSystemRuns.CreatedNames` | fs/open.c:380-426 | after a file has been created its name leads to it and every other name where it led, if and only if the NUL of the name spoils nothing |
| `FileSystemRuns.UnlinkedNames` | fs/link.c:113-155 | after a file has been removed its name leads nowhere and every other name where it led, if and only if the directory was not shrunk too far |
| `FileSystemRuns.RunNames` | fs/misc.c:66-98 | over every run all states are sound and the directory is the map that the creations and removals make if and only if every change is orderly |
| `FileSystemRuns.PathShown` | fs/misc.c:66-98 | what search_file returns is what that map says, or 0 |
| `FileSystemRuns.RunExtents` | fs/open.c:303-333 | over every run that keeps cmd.tar, whatever names are created, all states are sound if and only if every path opened or refused led to an i-node in use; then all extents stay on the grid, and a file finds a number and sectors exactly while a cell is free |
| `FileSystemRuns.PathsLead` | fs/misc.c:82-97 | in every sound state whose directory is a map a path leads nowhere or to an i-node in use |
| `FileSystemRuns.RunLeads` | fs/misc.c:82-97 | over every run that keeps cmd.tar from a cleared directory, orderly or not, every path leads nowhere or to an i-node in use, even when the directory has been shrunk too far, and all states are sound |
| `FileSystemRuns.RunRoomy` | fs/open.c:397-417 | over every run whose states are all sound the directory never has more entries than there are i-node numbers, so there is room for another |
| `FileSystemRuns.FilesAreTame` | fs/read_write.c:47-52 | in every sound state the sectors of an open regular file lie behind the directory |
| `MakeFs.GapIff` | fs/main.c:149-155 | the grid ends short of cmd.tar on every device except those whose sector map has 253 sectors, give or take multiples of 512 |
| `HarmfulName.HarmHappens` | fs/open.c:419 | on a device without a gap, 253 creations, one removal and the creation of a 12-character name lead from init_fs to an inconsistent file system, through sound states only |
| `HarmfulName.TightDevices` | fs/main.c:154-155 | the devices of that run: from 252 * 4096 to 253 * 4096 - 1 sectors, on all of which mkfs finds room |
| `StaleEntry.StaleOpens` | fs/misc.c:82-97 | on such a device with an old entry in slot 33, 28 creations lead from init_fs, through sound states only, to one in which the old name opens an i-node that is not in use |
| `FileBytes.ExtentStays` | fs/open.c:350-368 | as long as an i-node stays in use no change moves its extent |
| `FileBytes.TurnContent` | fs/read_write.c:47-85 | a turn in which no write ends behind its extent changes the contents of a file only by what it writes to that file |
| `FileBytes.OverrunLands` | fs/read_write.c:53-60 | a write that runs over the end of its extent writes to the file right behind it |
| `FileBytes.RunContent` | fs/read_write.c:14-92 | over every sound run in which every write ends within its extent, a file that is not removed holds what it held at the start with its own writes replayed in order, whatever happens to other files |
| `Lifecycle.MemoryManager.constructor` | kernel/main.c:24-49 | natives run without a parent, the other slots are free |
| `Lifecycle.MemoryManager.DoFork` | mm/forkexit.c:18-38 | the first free slot becomes a copy of the caller with the caller as parent; -1 exactly when there is none |
| `Lifecycle.MemoryManager.Clean` | mm/forkexit.c:166-174 | the parent is told, the slot is free, and keeps its parent link |
| `Lifecycle.MemoryManager.DoExit` | mm/forkexit.c:110-140 | do_exit as written, line 135 included; a reply to INIT after line 135 is recorded though the send does not succeed |
| `Lifecycle.MemoryManager.AdoptSlot` | mm/forkexit.c:131-138 | one turn of its loop, the reply after line 135 recorded likewise |
| `Lifecycle.MemoryManager.DoWait` | mm/forkexit.c:142-164 | reaps the first dead child, else waits if any slot names the caller, else reports no child |
| `LifecycleSafety.BootInv` | kernel/main.c:24-49 | the initial table satisfies the invariant |
| `LifecycleSafety.ForkKeeps` | mm/forkexit.c:18-38 | fork only adds a leaf to the forest of parents |
| `LifecycleSafety.WaitKeeps` | mm/forkexit.c:142-164 | after a wait no parent waits beside a dead child |
| `LifecycleSafety.AdoptKeeps` | mm/forkexit.c:130-139 | adoption by INIT keeps the forest, and no dead child beside a waiting INIT |
| `LifecycleSafety.ExitKeeps` | mm/forkexit.c:110-140 | with line 135 like line 124, exit keeps the invariant |
| `LifecycleSafety.ExitKeepsIff` | mm/forkexit.c:133-136 | as written, exit keeps the invariant if and only if INIT does not wait while it adopts a dead child, and then it does what the other form does |
| `LifecycleRuns.RunKeeps` | mm/forkexit.c:110-174 | in every state of every run no parent waits beside a dead child, and the parent links of slots in use are a forest of the living |
| `LifecycleRuns.RunAsWritten` | mm/forkexit.c:133-136 | a run of the code as written that never takes the branch of line 135 is a run of the other form |
| `LifecycleRuns.SpoilsHappens` | mm/forkexit.c:133-136 | the branch of line 135 is reached: INIT forks 9, 9 forks 10, 10 forks 11, 11 exits, INIT waits, 10 exits, and the invariant is lost |
| `LifecycleRuns.RunLedger` | mm/forkexit.c:122-128 | over every run the statuses of all exits are those delivered and those still kept, each once |
| `LifecycleRuns.RunOwed` | mm/forkexit.c:142-173 | over every run the waits of a process are those answered, and one more while it waits |
| `LifecycleRuns.NobodyLeft` | mm/forkexit.c:130-139 | after an exit no slot names the process, so its slot can be reused |
| `LifecycleRuns.NoChildIff` | mm/forkexit.c:147-163 | a wait reports no child if and only if no slot names the caller, not even a free one |
| `LifecycleRuns.StaleWaitSticks` | mm/forkexit.c:156-157 | a wait with only free slots naming the caller leaves it waiting |
| `LifecycleRuns.StaleWaitHappens` | mm/forkexit.c:147-163 | the stale wait is reached: INIT forks 9, 9 forks 10, 10 exits, and 9 waits twice |
| `LifecycleRuns.StuckForGood` | mm/forkexit.c:156-157 | and no step of any process ends that wait |
| `Argv.OffsetGrows` | lib/exec.c:48-55 | strings in the block do not overlap |
| `Argv.OffsetLayout` | lib/exec.c:35-58 | strings stand back to back behind the pointers and one null |
| `Argv.Execv` | lib/exec.c:35-61 | packs pointers, null and strings; its assertions hold exactly when the whole block is shorter than 0x400 bytes |
| `Argv.Relocate` | mm/exec.c:63-70 | on any block: moves the words up to the first null, in 32-bit arithmetic, counts them and changes nothing else, and goes astray exactly when there is no null in the buffer |
| `Argv.ShiftedIff` | mm/exec.c:61-70 | the relocated block is the argument list at the new address, with its length counted, if and only if the block was that list at the old one |
| `Argv.Load` | mm/exec.c:41-52 | the address space is the old one with the segments written over it in order, and the assertion fails exactly when one is too large |
| `Argv.LoadedByte` | mm/exec.c:41-52 | a byte of the image is that of the last segment that covers it, and what was there when none does |
| `Argv.DoExecArgs` | mm/exec.c:40-77 | the program finds the argument list that was packed, and its length, if and only if the block is still there after the segments have been loaded; every other byte is as the segments left it |
| `Argv.ApartKeepsBlock` | mm/exec.c:41-59 | so it does when no segment meets the block |
| `Argv.SegmentLosesBlock` | mm/exec.c:45-52 | a segment that the assertion accepts and that loses every non-empty argument list |
| `Argv.PointersInside` | mm/exec.c:65-77 | the first null is behind the last pointer, and every pointer lies in the new block |
| `Untar.ParseSize` | kernel/main.c:299-303 | the value of the octal digits |
| `Untar.ParseName` | kernel/main.c:306 | the name up to its NUL |
| `Untar.CopyFile` | kernel/main.c:313-321 | copies exactly the content, and leaves the position at the next header |
| `Untar.Extract` | kernel/main.c:282-328 | extracts the packed files in order up to the first whose name cannot be created, and else reads to the end of the archive; what can be created is what open grants, Descriptors.CreatableIff |
| `Untar.OneArchive` | kernel/main.c:291-323 | an archive holds one list of files |
| `TarPack.DigitsValue` | kernel/main.c:299-303 | the octal digits of a number have its value |
| `TarPack.PackedIsArchive` | kernel/main.c:253-323 | any files with names under 100 characters and sizes under 8 GiB, packed as ustar does, are an archive of exactly those files |
| `TarPack.AllGoodIff` | kernel/main.c:306-311 | everything comes out if and only if every name can be created on its own and no two are the same to the file system |
| `Tty.Terminal.constructor` | kernel/tty.c:71-82 | an empty ring and no request |
| `Tty.Terminal.PutKey` | kernel/tty.c:166-175 | a key goes to the end of the queue, or is lost when 256 are waiting |
| `Tty.Terminal.DoRead` | kernel/tty.c:84-96 | a new request replaces the one before |
| `Tty.Terminal.NextKey` | kernel/tty.c:252-256 | the oldest key leaves the queue |
| `Tty.Terminal.Edit` | kernel/tty.c:258-286 | one character edits the line, and ends the request on a newline or when enough have come |
| `Tty.Terminal.DevWrite` | kernel/tty.c:249-289 | the whole queue is fed to the request in order |
| `Tty.WhilePending` | kernel/tty.c:259-275 | until a request is answered the user's buffer holds what was typed with backspaces applied, and wanted plus transferred is what was asked for |
| `Tty.WhenAnswered` | kernel/tty.c:277-286 | the first newline or the last wanted character hands over exactly that, and later keys change nothing |
| `Tty.CharValue` | kernel/tty.c:252 | the byte handed over has the value of the low byte of the key |
| `Tty.PlainKeys` | kernel/tty.c:249-289 | as many keys between space and tilde as were asked for come out as they were typed, in order, and answer the request |
| `Tty.TypedLast` | kernel/tty.c:259-275 | what one more key does to what was typed, by its value: printable, backspace, anything else |
| `Tty.LineEnds` | kernel/tty.c:277 | which key answers a request: value 10, or the last character wanted |
| `Tty.NothingWanted` | kernel/tty.c:258 | a request for no characters is never answered |

## Left out

- Kernel.Machine.SysSendRec: what a send that goes astray finds outside the process table.
- Kernel.Machine.ClockHandler: when the processor changes hands, somebody runnable must have credit or priority; otherwise the scheduling loop does not end. The same holds of a send or receive that blocks.
- IpcRuns.RunConserves: like `IpcInvariant.StepKeeps`, `IpcRuns.StopsIff` and the run theorems other than `IpcRuns.RunKeepsIff` and `IpcRuns.InformNeverFails`, about enabled steps (`Ipc.Unblocked`): the memory manager marks, frees and copies only processes that are not blocked sending, and copies between slots that nobody is blocked on. The code tests neither.
- Lifecycle.MemoryManager.DoExit: after line 135 the run goes on as if the reply to INIT had been delivered; what the send does instead outside the process table is not modelled.
- Lifecycle.MemoryManager.AdoptSlot: likewise.
- Argv.DoExecArgs: what a relocation that goes astray overwrites; segments have at most as many bytes in the file as in memory.
- Scheduler.StarvationBound: a window without forks, because a fork copies the ticks of its parent.
- FileSystem.Server.DoRdwt: the character-device branch, writing to the root directory, and reading the root directory past its size are excluded.
- FileSystem.Server.DoOpen: the message to the terminal driver is left out, and the directory must not be at the end of its extent, which the code does not check; `FileSystemRuns.RunRoomy` shows that it never is.
- FileSystem.Server.DoUnlink: an old slot may hold any number; one greater than 4096, which lies behind the i-node array, is left out here and in open and stat. `FileSystemRuns.RunLeads` shows that no path leads to such a number on a run that keeps cmd.tar on a device with a gap, and `FileSystemRuns.PathsLead` on orderly runs on any device, both from a directory that was cleared at the start.
- FileBytes.RunContent: the contents of the root directory, which are its slots, and of extents that do not lie on the device.
- FileSystemRuns.HandleMessage: the RESUME_PROC and SUSPEND_PROC messages of the terminal driver are left out, and CLOSE of a descriptor that is not open, which the code does not check.
- SectorMap.FreeExtent: the extent must lie on the map, as every extent of a consistent file system does; elsewhere the loops would run into the i-node array.
- MakeFs.Mkfs: devices smaller than the log area, or so large that the maps and the root directory reach INSTALL_START_SECT.
- FileSystemRuns.InitFs: the same devices as `MakeFs.Mkfs`.
- FileSystem.Server.CreateFile: a directory at the end of its extent, see `FileSystem.Server.DoOpen`.
- FileSystem.Server.OpenFile: numbers behind the i-node array, see `FileSystem.Server.DoUnlink`.
- FileSystem.Server.DoStat: likewise.
- Untar.Extract: reads are taken from a well-formed archive, within its size; files longer than an extent, and a disk or tables that run out of sectors, numbers or descriptors, are not considered; the descriptor left open on the abort path is not modelled.
- One device and one i-node number space: `get_inode` also compares device numbers. `do_lseek` is never dispatched.
- Races: every system call and interrupt is one atomic step; the assignment inside the assertion of `kernel/proc.c:171` is then harmless.
- IPC flag changes by the replies of fork, exit and wait: `Lifecycle` records the replies and leaves blocking to `Ipc`.
- The disk driver `kernel/hd.c`, with its eight-bit sector count; sector transfers are synchronous copies.
- `fs/disklog.c` and the log sectors, which no request reaches and which are not in the sector map.
- Printing, `dump_msg`, console scrolling, keyboard decoding, string and number formatting, message wrappers: they keep no state that the others depend on.
- Boot code, interrupt entry and exit, segments, memory allocation by pid, ELF loading, the shell.
