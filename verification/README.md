# A model of the NachOS kernel and machine

NachOS is a teaching operating system that runs on a simulated MIPS machine. This
project models its stateful core in Dafny and proves what the code is meant to keep.
`dafny verify dfyconfig.toml` checks everything. The modules follow the system:

- **File system.** `Bitmap`, `Storage`, `FileHeader`, `OpenFile`, `Directory`,
  `PersistentBitmap` and `FileSystem` are the classes of the full (not the stub) file
  system, down to the byte images on the disk: the free map and the directory are
  ordinary files stored through the same sectors they describe. `Volume` says what a
  consistent disk is, `FileSystem` relates every operation to a ten-slot abstract
  directory, and `FileSystemRuns` replays whole histories of creations, removals, writes
  and reads against a map from names to bytes.
- **Threads and synchronisation.** `Kernel` is the scheduler and the semaphores as a
  system of atomic steps: NachOS runs on one processor, and control changes hands only
  in Sleep, in Yield and where interrupts go from off to on. `Monitor` (lock and
  condition), `SynchList`, `SynchDisk` and `ProcessTable` (Exec, Join and Exit) are
  protocols on top of it, each with its invariant over every interleaving; `Sleepers` is
  the part of the argument they share. `JoinDiscipline` and `JoinProgress` say what Join
  and Exit promise to callers that join each child once, `JoinHistory` follows a join
  from its call to its return, and `SecondJoin` shows what happens to others. A woken
  thread is Mesa-style: it retests, and can lose.
- **Machine.** `Interrupt` and `LinkedList` are the event clock and the sorted list it
  keeps its events on, `DiskTiming` the head-position arithmetic, `Multiplier` the
  64-bit multiply, `Translation` and `Machine` the memory and the unaligned loads and
  stores of MIPS I, `AddressSpace` the page tables over a shared frame bitmap.
- **Algorithms.** `HashTable` is the self-expanding table, `ReadNumber` the integer
  reader that detects overflow by comparing its result with the text.

Conventions of the model, where C leaves a choice: `int` is 32 bits, two's complement,
wraps around and shifts right arithmetically; `char` is signed; the machine is little
endian, as the simulated one always is; memory that C leaves uninitialised is a
parameter called `undefined`, so results never depend on it. An ASSERT is a
precondition where the source demands something of its caller, and otherwise a claim
proved to hold. Interrupt handlers are described by what they schedule and whether they
ask for a yield (`Interrupt`), or by the V they do (`Kernel`, `SynchDisk`).

What the source demands of its callers and the model takes over: a file that
would be created (its name is new, and an entry and enough sectors are free) has at most
MaxFileSize bytes, because `FileHeader::Allocate` does not check the size of its table;
file positions are not negative and position plus count does not overflow; the
items of a list are distinct (Append asserts it); the main thread is process 0; a
process joins its children before it exits (`threads/ptable.cc:176` uses the parent's
slot unguarded); `Schedule` is called with a positive delay.

## Two places where the code is weaker than its purpose

- `PTable::JoinUpdate` may be called again by the parent for a child it has already
  joined. The check at `threads/ptable.cc:36` passes as long as the child has not left
  yet, and the child may leave, with its PCB deleted, at any point until line 55. Three
  things can go wrong, each shown by a run: the parent calls through a null pointer
  (`SecondJoins.SecondJoinFails`); the PCB is deleted with the semaphore on which the
  parent sleeps (`SecondJoins.DeletedUnderWaiter`); another process gets the slot and the
  parent waits for that one and takes the wake-up its own parent waits for
  (`SecondJoins.WaitsForAnothersChild`). The condition is one the caller can check before
  the call: each JoinUpdate that passes its test names a child not joined before
  (`JoinDisciplines.Disciplined`). When it is kept, every step is safe and each join
  returns the code of the child that was asked for (`NeverFails`, `JoinExitOverRuns`,
  `JoinReadsItsChild`), and there is no deadlock (`JoinProgress.NeverDeadlocks`). When a
  call breaks it, that call never gets past JoinWait on the child it named, however the
  run goes on (`SecondJoinNeverReturns`). The test compares slot numbers: a later process
  in the parent's old slot would pass it as well, but by then a parent that joins its
  children before it exits has left none unjoined, so that such a call breaks the
  condition too.
- `compareNumAndString` answers wrongly for the least integer, whose negation wraps:
  `NumberReaders.CompareNumAndString` states what it returns. `SysReadNum` treats that
  integer before, so `NumberReaders.NumberReader.SysReadNum` holds for every input.

## Model

| member | source | states |
|---|---|---|
| Bitmaps.BitOfOrBit | NachOS-4.0/code/lib/bitmap.cc:56-63 | setting bit k of a word makes exactly bit k set and leaves every other bit |
| Bitmaps.BitOfAndNotBit | NachOS-4.0/code/lib/bitmap.cc:73-80 | clearing bit k of a word clears exactly bit k |
| Bitmaps.BitIsDigit | NachOS-4.0/code/lib/bitmap.cc:90-99 | bit k of a word is its binary digit of weight 2^k |
| Bitmaps.MarkedMeans | NachOS-4.0/code/lib/bitmap.cc:90-99 | bit i of the map is digit i % 32 of word i / 32 |
| Bitmaps.Bitmap.constructor | NachOS-4.0/code/lib/bitmap.cc:21-36 | a new bitmap of any positive size stands for the empty set |
| Bitmaps.Bitmap.Mark | NachOS-4.0/code/lib/bitmap.cc:56-63 | the set of marked bits gains exactly the one asked for |
| Bitmaps.Bitmap.Clear | NachOS-4.0/code/lib/bitmap.cc:73-80 | the set of marked bits loses exactly the one asked for |
| Bitmaps.Bitmap.Test | NachOS-4.0/code/lib/bitmap.cc:90-99 | membership in the set of marked bits |
| Bitmaps.Bitmap.FindAndSet | NachOS-4.0/code/lib/bitmap.cc:111-120 | first fit: marks and returns the least clear bit, or returns -1 exactly when every bit is set |
| Bitmaps.Bitmap.NumClear | NachOS-4.0/code/lib/bitmap.cc:129-139 | size minus the cardinality of the marked set |
| Bytes.DecodeEncodeWords | NachOS-4.0/code/filesys/filehdr.cc:84-100 | an array of 32-bit integers survives being written and read as raw bytes |
| Storage.CopyInto | NachOS-4.0/code/filesys/openfile.cc:116-183 | bcopy into the middle of a buffer replaces exactly that stretch |
| FileHeaders.DecodeEncodeHeader | NachOS-4.0/code/filesys/filehdr.cc:84-100 | FetchFrom after WriteBack gives the header back, field for field and entry for entry; the sector holds numBytes, numSectors and the table as little-endian words, in this order |
| FileHeaders.FileHeader.Allocate | NachOS-4.0/code/filesys/filehdr.cc:44-58 | succeeds exactly when ceil(size/128) sectors are free (none are needed for a size of 0 or less); then it takes that many distinct free sectors and marks exactly those; on failure the map is untouched. Called with any size but one whose sectors are free and do not fit the table of 30, which the loop would overrun |
| FileHeaders.FileHeader.ClaimSectors | NachOS-4.0/code/filesys/filehdr.cc:52-57 | the allocation loop: its ASSERT never fires, and the sectors taken are distinct and were free |
| FileHeaders.FileHeader.Deallocate | NachOS-4.0/code/filesys/filehdr.cc:68-74 | unmarks exactly the file's data sectors; the ASSERT on each holds |
| FileHeaders.FileHeader.FetchFrom | NachOS-4.0/code/filesys/filehdr.cc:84-87 | the header in memory is the one decoded from the sector |
| FileHeaders.FileHeader.WriteBack | NachOS-4.0/code/filesys/filehdr.cc:97-100 | the sector holds the header's bytes, no other sector changes |
| OpenFiles.OpenFile.ReadAt | NachOS-4.0/code/filesys/openfile.cc:116-142 | for every alignment of start and end, returns exactly the slice of the file's bytes from the position on: as many as were asked for, or all there are if that is less; 0 for a position outside or a non-positive count |
| OpenFiles.OpenFile.WriteAt | NachOS-4.0/code/filesys/openfile.cc:145-183 | the file becomes the old file with the source laid over it at position: as many bytes as were asked for, or as many as fit before the end of the file; sectors of no other file change |
| OpenFiles.OpenFile.Read | NachOS-4.0/code/filesys/openfile.cc:74-79 | ReadAt at the seek position, which advances by the count read |
| OpenFiles.OpenFile.Write | NachOS-4.0/code/filesys/openfile.cc:82-87 | WriteAt at the seek position, which advances by the count written |
| OpenFiles.OpenFile.PrepareBuffer | NachOS-4.0/code/filesys/openfile.cc:163-177 | the read-modify-write buffer: whole sectors from first to last, holding the old bytes outside the write and the source inside, whatever the alignment |
| OpenFiles.LoadedSlice | NachOS-4.0/code/filesys/openfile.cc:129-140 | the slice of the sectors loaded is the slice of the file |
| OpenFiles.StoredIsFile | NachOS-4.0/code/filesys/openfile.cc:179-183 | storing a prepared buffer sector by sector leaves exactly the prepared file |
| OpenFiles.OtherFileUnchanged | NachOS-4.0/code/filesys/openfile.cc:145-183 | bytes of a file whose sectors were not touched are the same |
| Directories.StrnEqualIsCut | NachOS-4.0/code/filesys/directory.cc:90-96 | strncmp over 9 characters is equality of the 9-character prefixes, cut at the first zero |
| Directories.NamesMatch | NachOS-4.0/code/filesys/directory.cc:90-96 | an entry matches a name exactly when their keys (9-character prefixes) are equal |
| Directories.CopiedName | NachOS-4.0/code/filesys/directory.cc:129-142 | the name strncpy leaves in an entry, over whatever was there, has the key of the name added |
| Directories.DecodeEncodeTable | NachOS-4.0/code/filesys/directory.cc:63-79 | the table survives being written to its file and read back |
| Directories.Directory.FindIndex | NachOS-4.0/code/filesys/directory.cc:90-96 | the first used entry with the name's key, or -1 when there is none |
| Directories.Directory.Find | NachOS-4.0/code/filesys/directory.cc:108-115 | the header sector of that entry, or -1 |
| Directories.Directory.Add | NachOS-4.0/code/filesys/directory.cc:129-142 | succeeds exactly when the key is absent and a slot is free; then the first free slot holds the name and sector and nothing else changes |
| Directories.Directory.Remove | NachOS-4.0/code/filesys/directory.cc:153-161 | succeeds exactly when the key is present; then only that entry's inUse bit changes |
| Directories.Directory.FetchFrom | NachOS-4.0/code/filesys/directory.cc:63-66 | the table in memory is the one in the directory file |
| Directories.Directory.WriteBack | NachOS-4.0/code/filesys/directory.cc:76-79 | the directory file holds the table; other files' sectors are untouched |
| PersistentBitmaps.FetchFrom | NachOS-4.0/code/filesys/pbitmap.cc:63-66 | the bitmap in memory is the set of bits in its file |
| PersistentBitmaps.WriteBack | NachOS-4.0/code/filesys/pbitmap.cc:76-79 | the file holds the bitmap's words; other files' sectors are untouched |
| Volumes.OwnedCount | NachOS-4.0/code/filesys/filesys.cc:175-214 | on a volume without sharing, the number of sectors owned is the sum of 1 + ceil(size/128) over the files |
| Volumes.ConsistentAfterFill | NachOS-4.0/code/filesys/filesys.cc:200-207 | writing a new file's header, directory and map keeps the volume consistent: the map is exactly the disjoint union of what the files own |
| Volumes.ConsistentAfterVacate | NachOS-4.0/code/filesys/filesys.cc:271-281 | the same after the map and the directory are written back without a file |
| Volumes.LookupKept | NachOS-4.0/code/filesys/filesys.cc:175-286 | what a name that was not touched looks up, content included, is the same afterwards |
| FileSystems.FileSystem.Format | NachOS-4.0/code/filesys/filesys.cc:81-143 | formatting any disk leaves a consistent volume with an empty directory; the ASSERTs on both Allocates hold |
| FileSystems.FileSystem.Mount | NachOS-4.0/code/filesys/filesys.cc:137-142 | opening a consistent disk gives a usable file system |
| FileSystems.FileSystem.Create | NachOS-4.0/code/filesys/filesys.cc:175-214 | for every name and size whose sector list the header can hold if it comes to that: success and the new directory are those of the abstract specification: key absent, slot free, and 1 + ceil(size/128) sectors within the budget; on failure no sector of the disk changes; on success only sectors that were free are taken, they are all marked, and every other file keeps its content |
| FileSystems.FileSystem.CreateAbsent | NachOS-4.0/code/filesys/filesys.cc:189-211 | for a new name, succeeds exactly when a directory slot is free and enough sectors are clear in the map on disk |
| FileSystems.SpecCreateAbsent | NachOS-4.0/code/filesys/filesys.cc:189-211 | the condition on the disk (clear bits, free entry) and the condition of the specification (budget, slots) are the same one |
| FileSystems.SpecCreate | NachOS-4.0/code/filesys/filesys.cc:175-214 | the specification of Create: it succeeds if and only if no slot has the key, some slot is free and the budget covers header and data; then one free slot gets key and size and nothing else changes |
| FileSystems.SpecRemove | NachOS-4.0/code/filesys/filesys.cc:257-286 | the specification of Remove: it succeeds if and only if some slot has the key; then that slot is free and nothing else changes |
| FileSystems.FileSystem.Open | NachOS-4.0/code/filesys/filesys.cc:227-240 | null exactly when the name is absent; otherwise an open file with the content the volume holds for the name |
| FileSystems.FileSystem.WriteOpened | NachOS-4.0/code/filesys/openfile.cc:145-183 | a write through an opened file changes that file as WriteAt says, with the same count, keeps the volume consistent and every other name's content |
| FileSystems.FileSystem.Remove | NachOS-4.0/code/filesys/filesys.cc:257-286 | success and the new directory are those of the specification; on success exactly the file's sectors are unmarked and every other file keeps its content; the ASSERTs in Deallocate hold |
| FileSystems.MarkedCount | NachOS-4.0/code/filesys/filesys.cc:81-143 | on a consistent volume the marked bits are 5 metadata sectors plus what the named files use |
| FileSystems.SlotsMatchTable | NachOS-4.0/code/filesys/directory.cc:90-96 | searching the specification's directory and searching the table on disk give the same slot |
| FileSystems.VolumeAfterFileWrite | NachOS-4.0/code/filesys/openfile.cc:145-183 | writing sectors of one file leaves the map, the directory and every other file as they were |
| FileSystemRuns.Replay | NachOS-4.0/code/filesys/filesys.cc:81-286 | from any disk, formatting and then any sequence of Create, Remove, writes and reads by name: each operation succeeds exactly when the slot specification says so, every read answers exactly what the creations and writes before it left in that file, and at the end the volume is consistent, the files that can be looked up and all their bytes are those of the history, and the marked sectors are 5 plus what they cost |
| FileSystemRuns.Apply | NachOS-4.0/code/filesys/openfile.cc:116-183 | one operation takes the disk from holding one set of named contents to holding the set the specification says, all other files byte for byte the same |
| FileSystemRuns.CreateThenRemove | NachOS-4.0/code/filesys/filesys.cc:175-286 | Create followed by Remove of the same name restores the map of free sectors, the directory as seen by name, and every file's content |
| FileSystemRuns.CreateRemoveSlots | NachOS-4.0/code/filesys/filesys.cc:175-286 | in the specification, Remove undoes a successful Create slot for slot |
| FileSystemRuns.BudgetKept | NachOS-4.0/code/filesys/filesys.cc:175-286 | no sequence of operations ever uses more than the disk has |
| Kernels.StepInv | NachOS-4.0/code/threads/synch.cc:78-125 | every step of P, V, Yield, dispatch, Fork, Finish, new and delete keeps: each thread in exactly the place its status names, the accounting of each semaphore, and a woken thread for every unit of a value that has waiters |
| Kernels.RunInv | NachOS-4.0/code/threads/scheduler.cc:57-167 | ... over every run from boot |
| Kernels.ValueIsCount | NachOS-4.0/code/threads/synch.cc:78-125 | over every run the value is the initial value plus completed Vs minus completed Ps, never negative |
| Kernels.NoOvertaking | NachOS-4.0/code/threads/synch.cc:78-125 | first come, first served over every run: on a semaphore queue and on the ready list nobody overtakes a thread that stays there |
| Kernels.FinishedIsDying | NachOS-4.0/code/threads/scheduler.cc:103-167 | a thread that finishes is in no queue any more, and its object is deleted when the next thread runs, and not before |
| Kernels.AppendAssertsHold | NachOS-4.0/code/lib/list.cc:75-89 | the duplicate ASSERT in Append never fires on a semaphore queue or the ready list, nor the toBeDestroyed ASSERT in Run |
| Kernels.ExactlyOnePlace | NachOS-4.0/code/threads/thread.cc:215-268 | a thread is running, ready, or on one semaphore's queue, in one place only and once |
| Kernels.QuiescentValue | NachOS-4.0/code/threads/synch.cc:78-125 | when nothing can run, no semaphore with a waiter has anything to give |
| Sleepers.AwakeIsFree | NachOS-4.0/code/threads/thread.cc:253-268 | a running thread that no protocol has put to sleep is outside P with interrupts on |
| Sleepers.MayP | NachOS-4.0/code/threads/synch.cc:78-94 | a thread sleeping in P runs again only to retest the semaphore it sleeps on |
| Sleepers.QuiescentAsleep | NachOS-4.0/code/threads/thread.cc:253-268 | when nothing can run every live thread sleeps on a semaphore whose value is 0 |
| Monitors.NeverFails | NachOS-4.0/code/threads/synch.cc:189-305 | no ASSERT in Acquire, Release, Wait, Signal or Broadcast fails, no semaphore is used after its deletion or deleted while a queue or a pending wake-up refers to it |
| Monitors.DoInv | NachOS-4.0/code/threads/synch.cc:189-305 | every step keeps the invariant of lock and condition |
| Monitors.RunInv | NachOS-4.0/code/threads/synch.cc:189-305 | ... over every run |
| Monitors.MutualExclusion | NachOS-4.0/code/threads/synch.cc:189-211 | at most one thread is between the end of P in Acquire and V in Release, across the tick before lockHolder is set; the inner semaphore is 0 or 1; a non-null lockHolder is that thread |
| Monitors.SignalsKept | NachOS-4.0/code/threads/synch.cc:252-291 | a waiter's private semaphore gets at most one V; a signal that arrives between Release and P is kept; waiters are signalled in the order they waited |
| Monitors.SignalOrder | NachOS-4.0/code/threads/synch.cc:252-291 | of two Waits of a run, as long as the first has not been signalled neither has the second |
| Monitors.SignalEndsOneWait | NachOS-4.0/code/threads/synch.cc:279-291 | a Signal ends the wait of the first thread in the queue and no other: its semaphore becomes 1, it becomes ready if it sleeps there, and the signaller goes on holding the lock |
| Monitors.ProgramOrder | NachOS-4.0/code/threads/synch.cc:189-305 | the order of the steps: each leads to the next, and a P that does not get through leaves the thread asleep there to try again |
| Monitors.QuiescentMonitor | NachOS-4.0/code/threads/synch.cc:189-305 | no lost signal and no deadlock: when nothing can run, the lock is free and everyone left waits unsignalled |
| Monitors.BroadcastSignalsAll | NachOS-4.0/code/threads/synch.cc:300-305 | over a run, everyone waiting when a Broadcast begins has been signalled when it ends |
| SynchLists.ListNeverFails | NachOS-4.0/code/threads/synchlist.cc:53-81 | no lock or condition ASSERT fails in Append or RemoveFront, whatever the interleaving |
| SynchLists.ListDoInv | NachOS-4.0/code/threads/synchlist.cc:53-81 | every step keeps the invariant, including: while a consumer waits there are no more items than consumers signalled, plus one owed by the producer about to signal |
| SynchLists.QueueOverRuns | NachOS-4.0/code/threads/synchlist.cc:53-81 | over every run, items removed followed by items queued are the items appended, in order; while a consumer waits every item on the list has a signalled consumer or a producer about to signal |
| SynchLists.TakesWhatWasAppended | NachOS-4.0/code/threads/synchlist.cc:53-81 | read off the events of a run: the item the k-th RemoveFront takes is the one with which the k-th Append to reach the list was called |
| SynchLists.RemoveFrontReturns | NachOS-4.0/code/threads/synchlist.cc:71-81 | the item with which a RemoveFront returns is the one it took, and so that one |
| SynchLists.ProgramOrder | NachOS-4.0/code/threads/synchlist.cc:53-81 | the order of the steps of Append and RemoveFront: each leads to the next |
| SynchLists.InsideOrder | NachOS-4.0/code/threads/synchlist.cc:71-81 | with the lock a producer appends, and a consumer waits exactly while the list is empty and takes otherwise |
| SynchLists.AtMostOneOwes | NachOS-4.0/code/threads/synchlist.cc:53-59 | at most one producer is between its insertion and its Signal |
| SynchLists.QuiescentList | NachOS-4.0/code/threads/synchlist.cc:71-81 | when nothing can run, every thread is a consumer asleep in Wait and the list is empty |
| SynchDisks.DiskNeverFails | NachOS-4.0/code/filesys/synchdisk.cc:58-94 | the disk's ASSERT(!active) never fails, nor the lock's, whatever the threads and the interrupt timing |
| SynchDisks.DiskDoInv | NachOS-4.0/code/filesys/synchdisk.cc:58-94 | every step keeps the handshake between lock, disk and completion semaphore |
| SynchDisks.DiskOverRuns | NachOS-4.0/code/filesys/synchdisk.cc:58-94 | over every run: while the lock is free the disk is idle and the semaphore 0, and each completed ReadSector returned what the last completed WriteSector to that sector stored |
| SynchDisks.LoggedCall | NachOS-4.0/code/filesys/synchdisk.cc:58-94 | the k-th call to return did the operation it was called for; the log of completed operations is that of the calls |
| SynchDisks.RequestsAnswered | NachOS-4.0/code/filesys/synchdisk.cc:58-94 | over every run the disk answers each request with one interrupt and is busy in between |
| SynchDisks.ProgramOrder | NachOS-4.0/code/filesys/synchdisk.cc:58-94 | the order of the steps of ReadSector and WriteSector: each leads to the next |
| SynchDisks.QuiescentDisk | NachOS-4.0/code/filesys/synchdisk.cc:58-94 | with nothing runnable and no interrupt pending no thread is left in a disk call |
| FiniteSets.LeastFree | NachOS-4.0/code/threads/ptable.cc:211-219 | the least free number, or the limit when all are taken: slots of the process table, frames of memory |
| JoinDisciplines.NeverFails | NachOS-4.0/code/threads/ptable.cc:33-219 | when no parent joins a child again: no step of Exec, Join or Exit uses a null PCB pointer or a semaphore that has been deleted, and Remove never deletes a semaphore on which a thread sleeps or from which one has just been woken |
| JoinDisciplines.MayDelete | NachOS-4.0/code/threads/ptable.cc:201-209 | nobody is queued at, or woken from, either semaphore of the PCB that Remove deletes |
| JoinDisciplines.DStepKeeps | NachOS-4.0/code/threads/ptable.cc:33-219 | every step that keeps the discipline keeps the invariant: slots, bitmap, semaphores with their PCBs, one joiner per child, each return recorded once with the child's code |
| JoinDisciplines.ProcessRunInv | NachOS-4.0/code/threads/ptable.cc:33-219 | over every run that keeps the discipline, every step is safe |
| JoinDisciplines.JoinExitOverRuns | NachOS-4.0/code/threads/ptable.cc:33-219 | over every such run: a slot's bit is set exactly when its pointer is not null; for every JoinUpdate that has returned, the very child found at its check has called ExitUpdate with the code returned; no two returned for the same child; a PCB is deleted only after its code was returned |
| JoinDisciplines.JoinReadsItsChild | NachOS-4.0/code/threads/ptable.cc:50-56 | the second look at pcb[pid], after JoinWait, finds the PCB that passed the check, released and with its exit code, and that code is what JoinUpdate returns |
| JoinHistories.JoinReturns | NachOS-4.0/code/threads/ptable.cc:33-187 | from call to return, on the events of the run: JoinUpdate(pid) returns the code that the process in slot pid at the time of the call has given to ExitUpdate, and that process was made by the caller's own process in ExecUpdate |
| JoinDisciplines.SecondJoinNeverReturns | NachOS-4.0/code/threads/ptable.cc:36-50 | a JoinUpdate that passes its check on a child already joined never gets past JoinWait on that child, on any continuation of any run |
| ProcessTables.StepKeeps | NachOS-4.0/code/threads/ptable.cc:33-219 | every step that touches no null pointer and no dead semaphore, disciplined or not, keeps the agreement of slots, bitmap, PCBs and their semaphores, which go with their PCB |
| ProcessTables.SafeRunInv | NachOS-4.0/code/threads/ptable.cc:33-219 | ... over every run of such steps |
| ProcessTables.JoinProceedsIff | NachOS-4.0/code/threads/pcb.cc:199-205 | JoinWait lets a join through exactly when the child has been through JoinRelease and no join has been through before |
| ProcessTables.JoinedStays | NachOS-4.0/code/threads/pcb.cc:199-205 | a join once through is never undone, nor had again by another thread |
| ProcessTables.CodeStays | NachOS-4.0/code/threads/ptable.cc:172-185 | no step changes the code a process has given to ExitUpdate |
| ProcessTables.CodeOverRuns | NachOS-4.0/code/threads/ptable.cc:172-185 | over every run, the code a PCB holds is the argument of the ExitUpdate its process called |
| ProcessTables.ExecOrder | NachOS-4.0/code/threads/ptable.cc:59-109 | the order of the steps of ExecUpdate: each leads to the next, the new thread is the new PCB's |
| ProcessTables.JoinOrder | NachOS-4.0/code/threads/ptable.cc:33-57 | the order of the steps of JoinUpdate; a call that does not pass the test changes nothing |
| ProcessTables.ExitOrder | NachOS-4.0/code/threads/ptable.cc:155-187 | the order of the steps of ExitUpdate, up to the empty slot |
| ProcessTables.QuiescentProcesses | NachOS-4.0/code/threads/ptable.cc:33-187 | when nothing can run, every thread sleeps on a live semaphore; in JoinWait, at a PCB that is still there and whose process has not exited or has been joined; in ExitWait, at its own, which has not been joined |
| JoinProgress.LiveRunInv | NachOS-4.0/code/threads/ptable.cc:33-219 | over every disciplined run: each process in the table has its thread or is about to get it, the parent of an unjoined child is older than the child, and bmsem is 0 only while a thread is inside Exec |
| JoinProgress.NobodyInJoinWait | NachOS-4.0/code/threads/ptable.cc:33-187 | when nothing can run nobody is left in JoinWait: the youngest child waited for would have to be running |
| JoinProgress.NeverDeadlocks | NachOS-4.0/code/threads/ptable.cc:33-219 | on a run that keeps the discipline some thread can always run |
| SecondJoins.SecondJoinFails | NachOS-4.0/code/threads/ptable.cc:36-50 | a reachable state in which a second JoinUpdate on the same child is past its check and about to use a null pointer |
| SecondJoins.DeletedUnderWaiter | NachOS-4.0/code/threads/ptable.cc:201-209 | a reachable state in which a child is about to delete its PCB while its parent, joining it a second time, sleeps on that PCB's semaphore |
| SecondJoins.WaitsForAnothersChild | NachOS-4.0/code/threads/ptable.cc:36-50 | a reachable state in which a parent, joining a second time, waits for a process that is another's child and has taken the slot |
| LinkedLists.InsertedPlace | NachOS-4.0/code/lib/list.cc:234-260 | SortedList::Insert puts the item after everything that is not bigger and before the first that is |
| LinkedLists.InsertAllSorts | NachOS-4.0/code/lib/list.cc:234-260 | inserting items one by one sorts them, loses none, and keeps the insertion order of those that tie |
| LinkedLists.List.Append | NachOS-4.0/code/lib/list.cc:75-89 | the contents gain the item at the end; links, last and the count stay right |
| LinkedLists.List.Prepend | NachOS-4.0/code/lib/list.cc:98-112 | the contents gain the item at the front |
| LinkedLists.List.RemoveFront | NachOS-4.0/code/lib/list.cc:125-142 | returns the first item, the rest is the contents |
| LinkedLists.List.Remove | NachOS-4.0/code/lib/list.cc:151-178 | exactly that item is unlinked, wherever it is; last is kept right; it is not in the list afterwards |
| LinkedLists.List.IsInList | NachOS-4.0/code/lib/list.cc:187-197 | membership in the contents |
| LinkedLists.List.Insert | NachOS-4.0/code/lib/list.cc:234-260 | the pointer version of the sorted insertion |
| LinkedLists.List.SanityCheck | NachOS-4.0/code/lib/list.cc:272-289 | on any chain of elements the ASSERTs pass if and only if the count is right, so on every legal list |
| Interrupts.FewerDue | NachOS-4.0/code/machine/interrupt.cc:259-324 | each firing leaves fewer interrupts due, although handlers schedule more |
| Interrupts.ScheduledInv | NachOS-4.0/code/machine/interrupt.cc:259-268 | scheduling keeps the order in which interrupts are to fire, ties in the order they were scheduled |
| Interrupts.FiredDueInv | NachOS-4.0/code/machine/interrupt.cc:283-324 | after the firing loop nothing pending is due, and everything fired on time and in order |
| Interrupts.DoInv | NachOS-4.0/code/machine/interrupt.cc:124-324 | scheduling, a tick and idling each keep the clock's accounts and the order and punctuality of interrupts |
| Interrupts.FiringOverRuns | NachOS-4.0/code/machine/interrupt.cc:124-324 | over any run: firing in nondecreasing time, ties as scheduled, each at t with when <= t < when + SystemTick; every interrupt scheduled is once among the fired and the pending; nothing pending is due; total = idle + system + user |
| Interrupts.AskedOverRuns | NachOS-4.0/code/machine/interrupt.cc:259-268 | an interrupt asked for fromNow ticks ahead is ever after pending or fired, for that time and that handler |
| Interrupts.HandlersOverRuns | NachOS-4.0/code/machine/interrupt.cc:259-324 | so is everything a handler asks for, counted from its firing; and nothing is pending or fires that was not asked for |
| Interrupts.TicksOverRuns | NachOS-4.0/code/machine/interrupt.cc:150-178 | over every run user time is the number of user ticks and system time ten times that of the others |
| Interrupts.FiredDueSteady | NachOS-4.0/code/machine/interrupt.cc:191-196 | firing takes no time, and a yield is asked for exactly when some handler that ran asked for it |
| Interrupts.Interrupt.Schedule | NachOS-4.0/code/machine/interrupt.cc:259-268 | the request joins the pending list, due at now + fromNow and with its own handler; nothing else changes |
| Interrupts.Interrupt.CheckIfDue | NachOS-4.0/code/machine/interrupt.cc:283-324 | fires all that is due, jumping the clock first when idling; reports whether anything fired |
| Interrupts.Interrupt.OneTick | NachOS-4.0/code/machine/interrupt.cc:150-178 | charges 10 to the system or 1 to the user, fires what became due, and says to yield exactly when some handler fired asked for it |
| Interrupts.Interrupt.SetLevel | NachOS-4.0/code/machine/interrupt.cc:124-138 | time passes exactly when interrupts go from off to on: one tick, with the yield it may ask for |
| Interrupts.Interrupt.Idle | NachOS-4.0/code/machine/interrupt.cc:210-229 | with something pending the clock jumps to it, charged as idle time, and it fires; with nothing pending the machine halts |
| DiskTimings.ModuloDiff | NachOS-4.0/code/machine/disk.cc:200-206 | the least number of sectors to wait until the target is at the head |
| DiskTimings.WaitIsFirstPass | NachOS-4.0/code/machine/disk.cc:230-250 | rounding up and waiting that many sectors reaches the first pass of the sector |
| DiskTimings.BufferTest | NachOS-4.0/code/machine/disk.cc:236-243 | the track-buffer test holds exactly when a whole pass of the sector lies between bufferInit and now rounded up |
| DiskTimings.Disk.TimeToSeek | NachOS-4.0/code/machine/disk.cc:177-191 | 500 ticks for each track crossed, and rotation to the next sector boundary |
| DiskTimings.Disk.ComputeLatency | NachOS-4.0/code/machine/disk.cc:230-250 | one transfer for a read in the track buffer, otherwise the end of the first pass after the seek; between 500 and 31999 ticks |
| DiskTimings.Disk.UpdateLast | NachOS-4.0/code/machine/disk.cc:259-268 | bufferInit becomes the arrival time, on a boundary, exactly when the track changes |
| DiskTimings.Disk.Request | NachOS-4.0/code/machine/disk.cc:114-151 | when a request is accepted bufferInit is a multiple of RotationTime and not in the future; latency as ComputeLatency says |
| DiskTimings.Disk.CallBack | NachOS-4.0/code/machine/disk.cc:159-163 | completion makes the disk idle, with the track buffer begun by then |
| Multipliers.Mult | NachOS-4.0/code/machine/mipssim.cc:771-828 | hi:lo is the exact 64-bit product for all operands, signed and unsigned, through the early exit and the least integer |
| Multipliers.MultiplyBits | NachOS-4.0/code/machine/mipssim.cc:792-815 | the shift-and-add loop multiplies the unsigned readings exactly, although the multiplier is shifted arithmetically |
| Multipliers.AccountStep | NachOS-4.0/code/machine/mipssim.cc:796-815 | one turn of the loop keeps sum + remaining bits * shifted multiplicand equal to the product |
| Translations.TranslateInMemory | NachOS-4.0/code/machine/translate.cc:185-251 | Translate's final ASSERT never fails, whatever the page table or TLB holds |
| Translations.TranslateMeans | NachOS-4.0/code/machine/translate.cc:185-251 | each outcome if and only if its cause: address error for misalignment or a page past the table; page fault when no valid entry maps the page; read-only exception when the entry forbids the write; bus error when its frame is outside memory; otherwise the physical address through that entry, in a TLB the first valid match |
| Translations.TranslateBytes | NachOS-4.0/code/machine/translate.cc:185-251 | an aligned access stays in one page: its bytes translate one by one, consecutively |
| Translations.TouchedTranslates | NachOS-4.0/code/machine/translate.cc:244-246 | the use and dirty bits never change a translation |
| Translations.BitsOverRuns | NachOS-4.0/code/machine/translate.cc:244-246 | after any accesses an entry is marked used if and only if it was or some access went through it, dirty if and only if it was or some write did; nothing else in it changes |
| Translations.ReadIsBytes | NachOS-4.0/code/machine/translate.cc:86-120 | ReadMem gives the little-endian number of the bytes the program sees at the address, a single byte sign-extended, and fails exactly when the access does not translate, with that exception |
| Translations.WriteIsBytes | NachOS-4.0/code/machine/translate.cc:136-167 | after WriteMem the program sees the low bytes of the value at the address, the lowest first; no other byte of memory changes; it fails exactly when the access does not translate |
| Translations.ReadAfterWrite | NachOS-4.0/code/machine/translate.cc:86-167 | ReadMem after WriteMem at any size gives back what was written, cut to the size, a byte sign-extended |
| Machines.MergedBytes | NachOS-4.0/code/machine/mipssim.cc:343-416 | the byte layout each mask-and-shift case of LWL, LWR, SWL and SWR produces |
| Machines.LoadPairLoads | NachOS-4.0/code/machine/mipssim.cc:312-418 | LWL then LWR load the little-endian word whose bytes are at register + offset + 0..3 (modulo 2^32), at any alignment, with or without an interrupt applying the delayed load in between; no other register nor memory changes |
| Machines.LoadPairCompletes | NachOS-4.0/code/machine/mipssim.cc:312-418 | the pair completes if and only if all four of these bytes can be read |
| Machines.StorePairStores | NachOS-4.0/code/machine/mipssim.cc:552-668 | SWL then SWR write the register to register + offset + 0..3 (modulo 2^32), low byte first, and nothing else, at any alignment, across pages and with aliased frames |
| Machines.StoreLoadRoundTrip | NachOS-4.0/code/machine/mipssim.cc:312-668 | unaligned store then unaligned load gives the register stored |
| Machines.LoadPartMeans | NachOS-4.0/code/machine/mipssim.cc:312-418 | LWL alone takes the bytes up to its address into the top of the register, LWR those from its address on into the bottom, within the aligned word; the rest of the register stays |
| Machines.StorePartMeans | NachOS-4.0/code/machine/mipssim.cc:552-668 | SWL alone stores the top of the register into the bytes up to its address, SWR the bottom into those from its address on, within the aligned word, and nothing else |
| Machines.PartEnds | NachOS-4.0/code/machine/machine.cc:100-113 | a completed access goes on to the next instruction; one that traps leaves the program counters, records the aligned address, raises the exception of its translation and writes nothing |
| Machines.Machine.DelayedLoad | NachOS-4.0/code/machine/mipssim.cc:711-718 | applies the load in progress, keeps R0 zero and records the next |
| Machines.Machine.Translate | NachOS-4.0/code/machine/translate.cc:185-251 | page-table and TLB translation with every error case, as the specification function says; only the use and dirty bits of the entry change |
| Machines.Machine.Read | NachOS-4.0/code/machine/translate.cc:86-120 | ReadMem, raising the exception when translation fails |
| Machines.Machine.Write | NachOS-4.0/code/machine/translate.cc:136-167 | WriteMem: only the bytes at the translated address change |
| Machines.Machine.LoadUnaligned | NachOS-4.0/code/machine/mipssim.cc:312-418 | LWL and LWR as the functions about which the pair theorems are proved |
| Machines.Machine.StoreUnaligned | NachOS-4.0/code/machine/mipssim.cc:552-668 | SWL and SWR as the functions about which the pair theorems are proved |
| AddressSpaces.NewFramesFree | NachOS-4.0/code/userprog/addrspace.cc:134-145 | when enough frames are free, the calls of FindAndSet give distinct frames that were free |
| AddressSpaces.DoInv | NachOS-4.0/code/userprog/addrspace.cc:107-196 | creation, deletion and every access keep frames single-owned and the bitmap exact |
| AddressSpaces.RunInv | NachOS-4.0/code/userprog/addrspace.cc:107-196 | over any sequence, live spaces own pairwise disjoint frames and the bitmap marks exactly those |
| AddressSpaces.NoLeak | NachOS-4.0/code/userprog/addrspace.cc:124-196 | free frames plus owned frames make NumPhysPages |
| AddressSpaces.EventView | NachOS-4.0/code/machine/translate.cc:86-251 | each space is a private, initially zero memory: only its own writes change what it reads, and just the bytes written |
| AddressSpaces.Isolation | NachOS-4.0/code/machine/translate.cc:86-251 | a WriteMem under one page table never changes a ReadMem under another, at any addresses and sizes |
| AddressSpaces.AddrSpace.constructor | NachOS-4.0/code/userprog/addrspace.cc:107-145 | takes and zeroes one frame per page, or none when there are not enough |
| AddressSpaces.AddrSpace.Delete | NachOS-4.0/code/userprog/addrspace.cc:188-196 | gives back exactly the frames of the page table |
| HashTables.HashTable.Insert | NachOS-4.0/code/lib/hash.cc:110-124 | the map gains the item under its key; at most 3 items per bucket on average, always |
| HashTables.HashTable.ReHash | NachOS-4.0/code/lib/hash.cc:136-153 | four times the buckets, the same map, every item in the bucket its key hashes to; both SanityChecks pass |
| HashTables.HashTable.Find | NachOS-4.0/code/lib/hash.cc:168-198 | what the map has for the key, or nothing |
| HashTables.HashTable.Remove | NachOS-4.0/code/lib/hash.cc:210-223 | returns the map's item for the key and removes only that |
| HashTables.HashTable.SanityCheck | NachOS-4.0/code/lib/hash.cc:272-288 | passes if and only if every item is in the bucket its key hashes to and the count is right, so on every legal table |
| HashTables.MoveOne | NachOS-4.0/code/lib/hash.cc:145-150 | moving one item keeps every entry in exactly one of the two arrays |
| HashTables.FlatIsContents | NachOS-4.0/code/lib/hash.cc:249-259 | running through the buckets meets each item of the map exactly once |
| HashTables.HashIterator.constructor | NachOS-4.0/code/lib/hash.cc:332-340 | the iterator starts with every item still to come |
| HashTables.HashIterator.Next | NachOS-4.0/code/lib/hash.cc:348-360 | exactly the current item is used up, so the iteration ends |
| NumberReaders.DigitsOfValue | NachOS-4.0/code/userprog/ksyscall.h:164-177 | digits without a leading zero are the numeral of their value |
| NumberReaders.NumeralShape | NachOS-4.0/code/userprog/ksyscall.h:147-184 | what the characters of a canonical numeral look like, and that they add up to the number |
| NumberReaders.CompareNumAndString | NachOS-4.0/code/userprog/ksyscall.h:80-105 | true exactly when the string is the numeral (for the least integer, exactly when it is a lone minus sign), never indexing in front of the string, for every integer and string but a positive integer with a proper suffix of its digits |
| NumberReaders.RunsOutIff | NachOS-4.0/code/userprog/ksyscall.h:93-102 | that exception is exact: the loop gets in front of the string if and only if it is a proper suffix of the digits |
| NumberReaders.LongRoom | NachOS-4.0/code/userprog/ksyscall.h:194-217 | where SysReadNum compares, the string is never such a suffix |
| NumberReaders.TokenIsWord | NachOS-4.0/code/userprog/ksyscall.h:37-74 | the word is the longest run of at most 12 characters without line feed, carriage return, tab, space or EOF; what is left begins behind it and the character that ended it |
| NumberReaders.NumeralRead | NachOS-4.0/code/userprog/ksyscall.h:164-191 | wrap-around in the accumulation does not spoil the numeral of any int |
| NumberReaders.Interpret | NachOS-4.0/code/userprog/ksyscall.h:151-218 | n if the characters are the canonical numeral of an int n, 0 for every other string |
| NumberReaders.NumberReader.ReadUntilBlank | NachOS-4.0/code/userprog/ksyscall.h:45-74 | the buffer holds the word, at most 12 characters, padded with zeros, and the input is consumed past its end |
| NumberReaders.NumberReader.SysReadNum | NachOS-4.0/code/userprog/ksyscall.h:147-218 | the same for the next word of the console |

## Left out

- Concurrency is modelled on values, as step systems, because P, Wait, Acquire and the
  disk calls block: the code between two points where control can change hands is one
  step. Updates in place of the C objects are then updates of one state value. Switching
  at more points than the code allows would only add interleavings; switching at fewer
  is not assumed.
- The file header's table, the directory's table, the buckets of the hash table, the
  pending interrupts and the page table are sequences held in a field; the sector store
  is a sequence of sectors. Their aliasing is not modelled. `LinkedList` has the nodes
  and pointers of `list.cc`; List and SortedList are one class there.
- Fairness and real time: the `Quiescent` lemmas say what is true when nothing can run,
  not that something eventually runs.
- `PCB::numwait` and its `multex`, which count waiting children: the decrement clips at
  zero, so the count is not exact and nothing depends on it. The deletion of `multex`
  with its PCB is left out with it.
- ExecV and argument passing, STable, file names of processes, the checks of ExecUpdate
  on the name (any of them is the step ExecFail).
- A process that exits before joining its children, and the exit of process 0, which
  halts the machine.
- Loading of program segments into an address space, which the code places at
  virtualAddr plus frame times PageSize: only frame allocation, zeroing, release and
  translation are modelled. The size of a program is a parameter.
- AddressSpaces.AddrSpace.constructor: a file that cannot be opened or is not an object
  file is not modelled; when there are not enough frames the page table, which the code
  leaves unset with a page count of 0, is the empty one; addrLock makes the allocation
  one step.
- AddressSpaces.RunInv: the parameterless constructor of AddrSpace, which zeroes memory
  that is not its own, is not modelled.
- Translations.ReadAfterWrite: HOST_IS_BIG_ENDIAN is not modelled; the host is little
  endian.
- Machines.LoadPairLoads: a load in progress into the base register when the pair
  begins, or rs equal to rt with an interrupt between the two, is excluded; MIPS I
  forbids relying on a register in its load delay slot.
- Machines.StorePairStores: the same for a load in progress into either register.
- Instructions other than LWL, LWR, SWL, SWR and the multiplications, the decoding of
  instructions, and system calls: expressions over registers.
- The logical right shifts of the simulator shift a signed int, so they do not do what
  the instruction set says; they are not modelled.
- Interrupts.Interrupt.OneTick: the Yield of the current thread is an out-parameter;
  what threads do with it is the business of `Kernel`. The DelayedLoad that precedes
  the handlers is the interruption in `Machine`.
- DiskTimings.Disk.Request: the data moved is in `SynchDisk`, the time in `DiskTiming`.
- OpenFiles.OpenFile.WriteAt: slack bytes past the end of a file in its last sector are
  unspecified; they are not visible through a file.
- Directories.DecodeEncodeTable: the padding bytes of a directory entry are written as
  zero, for the 20-byte layout of i386.
- FileHeaders.FileHeader.Allocate: more free sectors than the table of 30 can list, where
  the code writes past the end of the object, are not modelled.
- FileSystems.FileSystem.Create: creating a new file of more than MaxFileSize bytes when
  an entry and the sectors for it are free, for the same reason.
- FileSystems.FileSystem.CreateAbsent: the same.
- FileSystemRuns.Replay: the bytes of a new file are those its sectors held before; the
  history records them as found.
- FileSystems.FileSystem.WriteOpened: a file that is used after it was removed is not
  modelled, nor are crashes between two sector writes.
- HashTables.HashIterator.Next: changing the table during an iteration is not modelled.
- The stub file system, sockets, consoles, the network, the debugger, the timer device
  and its random intervals, stack allocation and the context switch itself.
