# Models of the kFreeBSD port of the GNU C library

The kFreeBSD port adds to the GNU C library the code that only this system needs. Most of it is thin; this project
models the parts that have an algorithm or a protocol of their own, and proves what they promise.

**The multi-reader lock of the run-time linker** (`rtld-lowlevel.h`). One machine word packs a writer bit, two waiting
flags and a count of readers; it is changed only by compare-and-exchange, atomic or, and exchange-and-add, and threads
sleep on it in the kernel. `mrlock_word.dfy` keeps the word as a number with the real masks and refines it to a record.
`mrlock.dfy` is the protocol as a transition system for any number of threads, one atomic access per action.
`mrlock_safety.dfy` and `mrlock_progress.dfy` prove exclusion, that no wake-up is lost, writer preference, freedom from
deadlock, and that from any reachable state everybody can leave; `mrlock_tries.dfy` says what the attempts come to and who sets
the waiting flags, and `mrlock_wait.dfy` bounds the writer's wait over every schedule. `mrlock_macros.dfy` has the four macros as loops over a
shared word while the other threads interfere, and shows that what they do is a run of the transition system.

**`getifaddrs`** (`ifaddrs.c`). Pass one computes the size of a single block from the kernel's messages; pass two fills
an array of records, an area of addresses with alignment padding, and an area of names. `ifaddrs.dfy` says which list
the messages stand for, `ifaddrs_layout.dfy` what it means that the block holds that list, with all its pieces apart,
and `ifaddrs_passes.dfy` has the two passes on arrays. `ifaddrs_messages.dfy` builds messages from interfaces and
addresses, byte by byte as the kernel lays them out, and proves that the list is those interfaces and addresses.

**POSIX timers** (`nptl/kernel-posix-timers.h`, `timer_create.c`, `timer_delete.c`, `timer_routines.c`). A table of slots
claimed by compare-and-exchange, a linked list under a mutex, and a helper thread that gets raw pointers out of signals
which may be stale. `timers.dfy` is a transition system in which touching freed or unwritten memory, following a null
pointer, or finding an id or a slot missing is a fault; `timers_invariant.dfy`, `timers_frame.dfy` and
`timers_safety.dfy` build the invariant; `timers_theorems.dfy` states the results and `timers_solo.dfy` what create and
delete do undisturbed; `timers_full.dfy` reaches a full table, and `timers_leak.dfy` says for every run exactly when a
create that fails loses its block. `timers_helper.dfy` says which timer the helper serves for a signal. `timer_list.dfy` has the table and the linked list in place, on objects.

**utmp and utmpx** (`utmp-compat`). `utmp.dfy` has the two conversions, `utmp_codec.dfy` proves exactly which records
survive the way there and back, and exactly when the hidden pid does; `utmp_records.dfy` looks from the side of the
file: equality, records read and written back, and exactly which records are determined by their conversion.
`utmp_fields.dfy` says for every record, field by field, what is written and what is read. `utmp_convert.dfy` has the
converters on buffers, and `utmp_search.dfy` the searches over the file, in terms of the file's own records.
`cstrings.dfy` gives the meaning of `strlen`, `strncmp`, `strncpy`, `sprintf ("%lu")` and `strtoul` they need.

**`if_nameindex`** (`if_index.c`), in `if_nameindex.dfy`: two arrays that grow by `realloc`, which may fail or move
them at every call, and offsets that become pointers at the end.

**Two walks.** `readonly_area.dfy` has the coverage loop of `__readonly_area`, and `cmsg.dfy` the macros and the walk
for ancillary data (section 4.3 of RFC 2292), in arithmetic that wraps around at 32 or 64 bits.

`memory.dfy` holds bytes and `memcpy`; `bits.dfy` the bitwise operators and alignment by masks.

## Where the code and its comments differ

- `utmp-compat/utmpconv.c:22` calls the mapping from `struct utmp` to `struct utmpx` injective. It is not: a line that
  is not a terminal is cut to the size of `ut_id` (line 107), and a blank record loses its time.
  `UtmpRecords.LineForgotten` gives for every record with such a line another one with the same conversion, and
  `UtmpRecords.InjectiveExactly` the condition under which a record is determined.
- `readonly-area.c:30` says -1 means that the area is writable. The code also answers -1 when part of the area is not
  mapped or not readable; `ReadonlyArea.Check` states that.
- A create that finds no slot keeps the block it allocated (`nptl/kernel-posix-timers.h:77-86`). In any run a create that
  fails loses its block exactly if every slot was taken at the moment its search looked at it, and frees it otherwise:
  `TimersLeak.LeakExactly`. While some slot stays free nothing is lost (`TimersLeak.FreeSlotNoLeak`); a slot that is free
  when the create is called is not enough (`TimersLeak.InterferedLeak`), unless the create is undisturbed
  (`TimersSolo.FailureLeavesNoTrace`). That the table can become full is `TimersFull.LeakReachable`.
- `__utmpx_to_utmp` takes the length of a host string that may fill its field without a NUL, and prints a negative pid
  into a buffer of eleven bytes. The model calls both an overrun; `UtmpCodec.OverrunExactly` says exactly when it happens,
  and there is a record for each.
- The sums of `__cmsg_nxthdr` can wrap around in 32 bits, where a socklen_t is as wide as an address: the walk may then
  stay where it is for ever or step out of the buffer (`Cmsg.EndlessWalk`, `Cmsg.BackwardStep`). `Cmsg.WalkExactly` says
  exactly when it does not; in 64 bits it does not happen in a buffer that ends more than 2^32 bytes below the end of the
  address space (`Cmsg.WideWalk`).

## Model

Paths are below the root of the repository's sources.

| member | source | states |
|---|---|---|
| MrLockWord.EncodeDecode | glibc-ports/kfreebsd/rtld-lowlevel.h:27-32 | the word and the record (writer, rwait, wwait, readers) carry the same information |
| MrLockWord.MaskConstants | glibc-ports/kfreebsd/rtld-lowlevel.h:27-32 | what the masks are, as numbers |
| MrLockWord.Tests | glibc-ports/kfreebsd/rtld-lowlevel.h:53-102 | each mask test of the macros asks exactly the intended question about the record |
| MrLockWord.ReaderWordIs | glibc-ports/kfreebsd/rtld-lowlevel.h:58-59 | a reader's new value is the record with one reader more and no flag: RWAIT is dropped, nothing overflows |
| MrLockWord.WriterWordIs | glibc-ports/kfreebsd/rtld-lowlevel.h:104-105 | the writer's new value has the writer bit, keeps RWAIT, drops WWAIT |
| MrLockWord.UnlockWordIs | glibc-ports/kfreebsd/rtld-lowlevel.h:82-82 | subtracting INC takes one reader away and borrows from no flag |
| MrLockWord.DoneWordIs | glibc-ports/kfreebsd/rtld-lowlevel.h:125-125 | subtracting WRITER clears the writer bit and nothing else |
| MrLockWord.OrRwaitIs | glibc-ports/kfreebsd/rtld-lowlevel.h:71-72 | the atomic or sets RWAIT and nothing else |
| MrLockWord.OrWwaitIs | glibc-ports/kfreebsd/rtld-lowlevel.h:115-116 | the atomic or sets WWAIT and nothing else |
| MrLockSafety.KeepReaderWins | glibc-ports/kfreebsd/rtld-lowlevel.h:57-66 | a reader's winning CAS keeps the invariant although it drops RWAIT |
| MrLockSafety.KeepWriterWins | glibc-ports/kfreebsd/rtld-lowlevel.h:103-112 | the writer's winning CAS keeps the invariant although it drops WWAIT |
| MrLockSafety.KeepReaderWait | glibc-ports/kfreebsd/rtld-lowlevel.h:69-74 | a reader goes to sleep only on a word that still makes somebody wake it |
| MrLockSafety.KeepWriterWait | glibc-ports/kfreebsd/rtld-lowlevel.h:115-117 | the same for the writer |
| MrLockSafety.KeepUnlock | glibc-ports/kfreebsd/rtld-lowlevel.h:80-89 | unlock keeps the invariant: the last reader out owes the waiting writer a wake |
| MrLockSafety.KeepDone | glibc-ports/kfreebsd/rtld-lowlevel.h:123-128 | done keeps the invariant: it owes waiting readers a wake |
| MrLockSafety.KeepWake | glibc-ports/kfreebsd/linuxthreads/lowlevellock.h:37-40 | a wake of everybody keeps the invariant |
| MrLockSafety.ActionKeepsInv | glibc-ports/kfreebsd/rtld-lowlevel.h:44-128 | every atomic access of every thread keeps the invariant |
| MrLockSafety.RunKeepsInv | glibc-ports/kfreebsd/rtld-lowlevel.h:44-128 | the invariant holds in every state of every run |
| MrLockSafety.MutualExclusion | glibc-ports/kfreebsd/rtld-lowlevel.h:53-125 | in every reachable state the writer bit says whether the writer is inside, the count is the number of readers inside, and they exclude each other |
| MrLockSafety.NoLostWakeUp | glibc-ports/kfreebsd/rtld-lowlevel.h:57-127 | a sleeping reader or writer has its flag set where the waker looks, or the wake is already owed |
| MrLockSafety.WwaitHoldsReadersOff | glibc-ports/kfreebsd/rtld-lowlevel.h:53-56 | while WWAIT is set no action lets a reader in |
| MrLockSafety.WwaitStays | glibc-ports/kfreebsd/rtld-lowlevel.h:102-116 | only the writer's winning CAS clears WWAIT |
| MrLockSafety.WriterPreference | glibc-ports/kfreebsd/rtld-lowlevel.h:53-117 | over any run from WWAIT to the writer's winning CAS, the readers inside are among those that were inside already |
| MrLockProgress.SomebodyFinishes | glibc-ports/kfreebsd/rtld-lowlevel.h:44-128 | while a thread is busy, some thread can run alone to the end of its operation in at most six accesses |
| MrLockProgress.Drain | glibc-ports/kfreebsd/rtld-lowlevel.h:44-128 | from every state with the invariant some schedule makes everybody leave |
| MrLockProgress.DeadlockFree | glibc-ports/kfreebsd/rtld-lowlevel.h:44-128 | whenever a thread sleeps, another one is awake and can take a step |
| MrLockProgress.EverybodyCanFinish | glibc-ports/kfreebsd/rtld-lowlevel.h:44-128 | after any run all threads can leave within six accesses each, and the word is free again |
| MrLockTries.AttemptStep | glibc-ports/kfreebsd/rtld-lowlevel.h:49-68 | one access of an attempt of either kind of thread: a CAS follows on a word that lets it in, else the next attempt, and after the last one it gives up |
| MrLockTries.Attempts | glibc-ports/kfreebsd/rtld-lowlevel.h:49-114 | over every run: until a thread wins it has used up one attempt for each access at which the word kept it out, a lost CAS included |
| MrLockTries.WriterAnnounces | glibc-ports/kfreebsd/rtld-lowlevel.h:99-117 | over every run: after the TRIES-th time that readers keep the writer out, its next access sets WWAIT and nothing else, and the one after puts it to sleep exactly if the word is what it last saw, with WWAIT; else it starts again |
| MrLockTries.ReaderAnnounces | glibc-ports/kfreebsd/rtld-lowlevel.h:49-75 | the same for a reader kept out by WRITER or WWAIT, with RWAIT, which it sets only if it saw none |
| MrLockTries.WriterGetsPreference | glibc-ports/kfreebsd/rtld-lowlevel.h:99-117 | over every schedule: a writer that meets readers at each of its accesses has set WWAIT after TRIES loads and one more access, and it stays set |
| MrLockTries.WakesExactly | glibc-ports/kfreebsd/rtld-lowlevel.h:80-128 | a reader that leaves wakes exactly if it is the last and a writer waits, the writer exactly if a reader waits |
| MrLockTries.WakesAll | glibc-ports/kfreebsd/linuxthreads/lowlevellock.h:37-40 | a wake lets every sleeper, reader and writer, begin again and leaves the word and the others |
| MrLockWait.ActionMisses | glibc-ports/kfreebsd/rtld-lowlevel.h:99-118 | with WWAIT set and no reader inside, each access of the writer that does not win brings it nearer to the one that wins, and no action of others takes it further away |
| MrLockWait.WriterWaitBounded | glibc-ports/kfreebsd/rtld-lowlevel.h:99-118 | over every schedule, once WWAIT is set and the readers have left, the writer makes at most four accesses before the one that wins; it does not go to sleep again, and if it still sleeps its wake is owed |
| MrLockMacros.Machine.Lock | glibc-ports/kfreebsd/rtld-lowlevel.h:44-77 | the loop, under any finite list of interfering actions, performs actions of the transition system; unless the list ends first, the reader is inside |
| MrLockMacros.Machine.Unlock | glibc-ports/kfreebsd/rtld-lowlevel.h:80-89 | the same; it ends with the reader outside and its wake delivered |
| MrLockMacros.Machine.Change | glibc-ports/kfreebsd/rtld-lowlevel.h:93-120 | the same; unless the list ends first, the writer is inside |
| MrLockMacros.Machine.Done | glibc-ports/kfreebsd/rtld-lowlevel.h:123-128 | the same; it ends with the writer outside and its wake delivered |
| MrLockMacros.Machine.FutexWait | glibc-ports/kfreebsd/linuxthreads/lowlevellock.h:42-45 | compare and sleep, until a wake or an interruption |
| MrLockMacros.Machine.FutexWake | glibc-ports/kfreebsd/linuxthreads/lowlevellock.h:37-40 | the owed wake is delivered |
| MrLockMacros.Machine.IsReachable | glibc-ports/kfreebsd/rtld-lowlevel.h:44-128 | what the macros have done so far is a run from the initial word, so the theorems above speak about them |
| Alignment.MaskRoundsUp | glibc-ports/kfreebsd/bits/socket.h:246-247 | for a power of two the mask form of the alignment macros is the next multiple, in any word that holds the sum |
| IfAddrs.RlenIsMask | glibc-ports/kfreebsd/ifaddrs.c:62-63 | the mask of SA_RLEN computes the rounded length used here |
| IfAddrs.AlignIsMask | glibc-ports/kfreebsd/ifaddrs.c:72-73 | the mask of ALIGN computes the aligned address used here |
| IfAddrs.CountIsLength | glibc-ports/kfreebsd/ifaddrs.c:140-204 | pass one counts as many records as there are nodes to make |
| IfAddrsPasses.ScanAlen | glibc-ports/kfreebsd/ifaddrs.c:176-189 | the scan finds the length of the interface address |
| IfAddrsPasses.SumSizes | glibc-ports/kfreebsd/ifaddrs.c:190-201 | the sizes of all address, netmask and broadcast pieces, a netmask of length zero counting as the address |
| IfAddrsPasses.PassOne | glibc-ports/kfreebsd/ifaddrs.c:140-204 | the counts; EINVAL exactly if an address belongs to another interface than the latest one |
| IfAddrsPasses.Packer.CopySockaddrs | glibc-ports/kfreebsd/ifaddrs.c:294-328 | every selected address is copied into a piece of its own and data advances by exactly the sum of the sizes |
| IfAddrsPasses.Packer.CopyName | glibc-ports/kfreebsd/ifaddrs.c:239-245 | the name and its NUL are written at names, which advances past them |
| IfAddrsPasses.Packer.CopyLink | glibc-ports/kfreebsd/ifaddrs.c:247-257 | the link address and, aligned, the interface data are written at data within the reserved size |
| IfAddrsPasses.Packer.AddAddress | glibc-ports/kfreebsd/ifaddrs.c:274-337 | one address node is added, sharing the latest interface's name and flags |
| IfAddrsPasses.Packer.AddInterface | glibc-ports/kfreebsd/ifaddrs.c:235-262 | one interface node is added; data and names stay within what pass one reserved for it |
| IfAddrsPasses.Packer.AddMessage | glibc-ports/kfreebsd/ifaddrs.c:228-340 | one message of pass two: the nodes it stands for, or the EINVAL exit exactly for a mismatch |
| IfAddrsPasses.Packer.PassTwo | glibc-ports/kfreebsd/ifaddrs.c:226-340 | after pass one it never takes the EINVAL exit, makes all nodes in order, and names end exactly at the block's end |
| IfAddrsLayout.FillOne | glibc-ports/kfreebsd/ifaddrs.c:262-337 | a further record with pieces of its own keeps all earlier nodes readable and unchanged |
| IfAddrsLayout.OrderedDisjoint | glibc-ports/kfreebsd/ifaddrs.c:213-221 | pieces written one after the other lie inside their area and do not overlap |
| IfAddrsLayout.RegionsDisjoint | glibc-ports/kfreebsd/ifaddrs.c:213-340 | all address, data and name pieces of the list lie inside the bytes behind the records, pairwise disjoint |
| IfAddrsLayout.BlockDisjoint | glibc-ports/kfreebsd/ifaddrs.c:213-221 | in the one block that is allocated, the records and all pieces lie inside and none overlaps another |
| IfAddrsLayout.Finish | glibc-ports/kfreebsd/ifaddrs.c:345-347 | ending the chain at the last record gives the NULL-terminated list of the nodes |
| IfAddrsMessages.LinkNodeIs | glibc-ports/kfreebsd/ifaddrs.c:232-262 | a message laid out as struct sockaddr_dl gives the node with exactly this name, these flags, this link-level address and this data |
| IfAddrsMessages.AddrNodeIs | glibc-ports/kfreebsd/ifaddrs.c:265-337 | sockaddrs of kinds 2, 5 and 7 packed one after the other, each rounded up, give the node with exactly these as netmask, address and broadcast address; a netmask of length zero becomes zeros as long as the address |
| IfAddrsMessages.ListIs | glibc-ports/kfreebsd/ifaddrs.c:140-340 | for all interfaces and addresses laid out as the kernel does, with other messages between them: the list is exactly these in order, each address under the latest interface; refused exactly if an address belongs to another; the counted sizes are what the nodes hold |
| IfAddrsPasses.GetIfAddrs | glibc-ports/kfreebsd/ifaddrs.c:140-353 | the whole: EINVAL, no memory, NULL exactly if there are no nodes, or the list in a block of exactly the computed size with all interface data aligned; the EINVAL exit of pass two and the last free are never reached |
| TimersSafety.GoodCScan | glibc-ports/kfreebsd/nptl/kernel-posix-timers.h:79-86 | the CAS scan never indexes outside the table and claims one free slot, or gives up at the end |
| TimersSafety.GoodCHead | glibc-ports/kfreebsd/nptl/timer_create.c:199-203 | the push keeps the invariant |
| TimersSafety.GoodCId | glibc-ports/kfreebsd/nptl/timer_create.c:205-205 | the search for the id finds it |
| TimersSafety.GoodDLookup | glibc-ports/kfreebsd/nptl/timer_delete.c:50-52 | a valid id still stands for its timer |
| TimersSafety.GoodDWalk | glibc-ports/kfreebsd/nptl/timer_delete.c:66-76 | the walk of delete touches only live timers, reads no null head, and takes its timer out |
| TimersSafety.GoodFClear | glibc-ports/kfreebsd/nptl/kernel-posix-timers.h:115-117 | the slot cleared is the timer's own |
| TimersSafety.GoodFFree | glibc-ports/kfreebsd/nptl/kernel-posix-timers.h:118-118 | the block freed is live and on no list |
| TimersSafety.GoodHelper | glibc-ports/kfreebsd/nptl/timer_routines.c:111-137 | the helper's walk and its reading of a timer touch live, written memory |
| TimersSafety.GoodAction | glibc-ports/kfreebsd/nptl/timer_routines.c:77-146 | every enabled action is free of faults and keeps the invariant |
| TimersTheorems.NeverFaults | glibc-ports/kfreebsd/nptl/timer_routines.c:109-137 | in every reachable state, under every interleaving and with any stale pointer in a signal, no action is a fault |
| TimersTheorems.HelperAndDelete | glibc-ports/kfreebsd/nptl/timer_delete.c:57-86 | the helper reads a timer only on the list under the lock; delete frees one only off the list and out of the table |
| TimersHelper.ServesLatest | glibc-ports/kfreebsd/nptl/timer_routines.c:105-133 | in every reachable state the timer that the helper looks for or reads is the one that the latest signal named |
| TimersHelper.ServesSignalled | glibc-ports/kfreebsd/nptl/timer_routines.c:107-137 | over every run: if the signal's timer is on the list when the helper takes the lock, it reads that timer within as many of its steps as the list is long; if not, it reads none; then it gives the lock back |
| TimersTheorems.FirstIs | glibc-ports/kfreebsd/nptl/kernel-posix-timers.h:104-112 | what the linear search finds: the first place, if any |
| TimersTheorems.LookupsInverse | glibc-ports/kfreebsd/nptl/kernel-posix-timers.h:89-112 | id2ptr and ptr2id are inverse to each other: one slot for each timer, one timer for each slot |
| TimersTheorems.IdStays | glibc-ports/kfreebsd/nptl/kernel-posix-timers.h:73-119 | no action but its own delete takes an id away from its timer |
| TimersTheorems.IdStable | glibc-ports/kfreebsd/nptl/kernel-posix-timers.h:73-119 | over any run an id names the same timer from create to delete |
| TimersTheorems.ActiveListIs | glibc-ports/kfreebsd/nptl/timer_create.c:194-205 | the list is without cycles and repetitions, and holds exactly the SIGEV_THREAD timers pushed and not yet unlinked |
| TimersTheorems.ListChanges | glibc-ports/kfreebsd/nptl/timer_delete.c:59-78 | an action pushes its own timer in front, takes just its own timer out, or leaves the list |
| TimersTheorems.WithoutIs | glibc-ports/kfreebsd/nptl/timer_delete.c:62-76 | taking one out keeps the order of the rest |
| TimersSolo.RefusedCreate | glibc-ports/kfreebsd/nptl/timer_create.c:105-113 | a create the kernel refuses, run alone with a free slot, leaves table, list and heap as before |
| TimersSolo.CrowdedOut | glibc-ports/kfreebsd/nptl/kernel-posix-timers.h:77-86 | a create that finds the table full leaves its block behind |
| TimersSolo.FailureLeavesNoTrace | glibc-ports/kfreebsd/nptl/timer_create.c:69-212 | an undisturbed create that ends without an id, whatever the kernel would answer, leaves no trace if and only if malloc failed or a slot was free |
| TimersSolo.SuccessIssues | glibc-ports/kfreebsd/nptl/timer_create.c:69-206 | undisturbed, with memory, a slot and the kernel's consent, a create that ends has put its timer into the first free slot and issued that slot as its id, and the whole state is `Created` |
| TimersSolo.RefusedDelete | glibc-ports/kfreebsd/nptl/timer_delete.c:50-98 | a delete that the kernel refuses, run alone, leaves everything as it was and the id valid |
| TimersFull.FillUp | glibc-ports/kfreebsd/nptl/kernel-posix-timers.h:79-83 | from every initial state any number of slots can be filled, up to all of them |
| TimersFull.LeakReachable | glibc-ports/kfreebsd/nptl/kernel-posix-timers.h:77-86 | a state with a full table is reachable, and from it one that differs only by a block nobody owns |
| TimersLeak.LeakExactly | glibc-ports/kfreebsd/nptl/kernel-posix-timers.h:73-87 | in every run: the block of a create that ends without an id is lost if and only if each slot its search looked at was taken at that moment, and then it has looked at all; otherwise the block is freed; it is never left in table or list |
| TimersLeak.FreeSlotNoLeak | glibc-ports/kfreebsd/nptl/kernel-posix-timers.h:77-86 | while some slot stays free, a create that fails loses nothing |
| TimersLeak.InterferedLeak | glibc-ports/kfreebsd/nptl/kernel-posix-timers.h:77-86 | a run in which a slot is free when malloc answers, and the block is lost all the same |
| TimersLeak.PhaseOn | glibc-ports/kfreebsd/nptl/timer_create.c:69-212 | whatever the others do, a create is either still searching and has found every slot so far taken, or has its place since it looked at a free slot |
| TimersSolo.DeleteUndoesCreate | glibc-ports/kfreebsd/nptl/timer_delete.c:50-89 | create and then delete of either kind of timer, run alone, bring back table, list, ids and heap |
| TimerList.Registry.Alloc | glibc-ports/kfreebsd/nptl/kernel-posix-timers.h:73-87 | the new timer is in the first free slot and all other slots are unchanged; NULL exactly without memory or slot, and without a slot the block stays allocated |
| TimerList.Registry.Ptr2Id | glibc-ports/kfreebsd/nptl/kernel-posix-timers.h:103-112 | the first slot of the timer, or -1 |
| TimerList.Registry.Id2Ptr | glibc-ports/kfreebsd/nptl/kernel-posix-timers.h:89-101 | the timer whose ptr2id is this id; NULL exactly if there is none |
| TimerList.Registry.Free | glibc-ports/kfreebsd/nptl/kernel-posix-timers.h:114-119 | the timer's slot, and no other, becomes free, and its block with it |
| TimerList.Registry.Push | glibc-ports/kfreebsd/nptl/timer_create.c:201-202 | the list is the new timer followed by the old list |
| TimerList.Registry.Unlink | glibc-ports/kfreebsd/nptl/timer_delete.c:62-76 | the list loses exactly this timer and keeps its order; the walk ends and follows no null pointer |
| TimerList.Registry.Lookup | glibc-ports/kfreebsd/nptl/timer_routines.c:113-120 | for any address, however stale: the timer on the list that is there, or NULL if none is |
| TimerList.Registry.CreateSignal | glibc-ports/kfreebsd/nptl/timer_create.c:64-114 | the id is the first free slot and the list is untouched, or everything is as before |
| TimerList.Registry.CreateThread | glibc-ports/kfreebsd/nptl/timer_create.c:150-212 | the id is the first free slot and the timer heads the list, or table and list are as before |
| TimerList.Registry.Delete | glibc-ports/kfreebsd/nptl/timer_delete.c:50-89 | the timer leaves slot and list and nothing else changes, or -1 and nothing changes at all |
| CStrings.PrintAndRead | glibc-ports/kfreebsd/utmp-compat/utmpconv.c:128-221 | an int printed as unsigned long and read back by strtoul is the same int, for 32 and 64 bits |
| UtmpCodec.PidRoundTrip | glibc-ports/kfreebsd/utmp-compat/utmpconv.c:216-224 | the host is kept; the hidden pid comes back if it fits and 0 does otherwise |
| UtmpCodec.OverrunExactly | glibc-ports/kfreebsd/utmp-compat/utmpconv.c:216-224 | the encoder overruns exactly for a pid that is not 0 with a host that fills its field, or a negative pid in 64 bits |
| UtmpCodec.FullHostOverruns | glibc-ports/kfreebsd/utmp-compat/utmpconv.c:219-219 | a record whose host fills the field, and which overruns |
| UtmpCodec.NegativePidOverruns | glibc-ports/kfreebsd/utmp-compat/utmpconv.c:221-221 | a record with a negative pid, which overruns in 64 bits |
| UtmpCodec.PidFitsExactly | glibc-ports/kfreebsd/utmp-compat/utmpconv.c:113-132 | a positive pid fits exactly if the host leaves two bytes behind its NUL and the pid has no more digits than bytes left |
| UtmpCodec.MarkRoundTrip | glibc-ports/kfreebsd/utmp-compat/utmpconv.c:61-85 | round trip of the run level, boot, accounting and clock records |
| UtmpCodec.ProcessRoundTrip | glibc-ports/kfreebsd/utmp-compat/utmpconv.c:86-109 | round trip of the process records, whatever the buffer's line held before |
| UtmpCodec.RoundTrip | glibc-ports/kfreebsd/utmp-compat/utmpconv.c:50-227 | a record converted there and back is equal by __utmpx_equal if and only if it follows the conventions |
| UtmpFields.WrittenFields | glibc-ports/kfreebsd/utmp-compat/utmpconv.c:146-227 | for every record that is written, conventional or not, what each field holds: reserved line and name of the type, the line of a process cut to its field whether terminal or not, or else its id over what the buffer held, user, host, pid and time |
| UtmpFields.ReadFields | glibc-ports/kfreebsd/utmp-compat/utmpconv.c:50-139 | for every record that is read: its type from line and name, exactly when there is none, and what each field holds |
| UtmpFields.NoTerminalBack | glibc-ports/kfreebsd/utmp-compat/utmpconv.c:98-183 | a process whose line is no terminal comes back with an empty line and its line cut to the size of an id; exactly the lines of the three marks do not come back as processes |
| UtmpFields.ReadDigits | glibc-ports/kfreebsd/utmp-compat/utmpconv.c:113-132 | digits behind the host's NUL, whoever wrote them, are read as the pid |
| UtmpFields.ReadNoPid | glibc-ports/kfreebsd/utmp-compat/utmpconv.c:113-132 | nothing there, no room for it, or anything but a number is no pid |
| UtmpRecords.ReadBack | glibc-ports/kfreebsd/utmp-compat/pututxline.c:33-47 | a record read from the file and converted back into any buffer reads the same if and only if its pid fits again and its id, over what the buffer held, is not taken for a terminal; the latter cannot happen with ids of three bytes |
| UtmpRecords.BufferIrrelevant | glibc-ports/kfreebsd/utmp-compat/utmpconv.c:182-185 | with ids of three bytes or more, what the buffer held does not matter |
| UtmpRecords.LineForgotten | glibc-ports/kfreebsd/utmp-compat/utmpconv.c:105-108 | every process record with a long line that is no terminal shares its conversion with one of another line |
| UtmpRecords.InjectiveExactly | glibc-ports/kfreebsd/utmp-compat/utmpconv.c:21-23 | a record is determined by its conversion if and only if it is not blank and its line is stored |
| UtmpRecords.EqualAgrees | glibc-ports/kfreebsd/utmp-compat/utmp-equal.h:25-50 | __utmp_equal holds exactly for two records that convert to processes and have equal lines; then the converted ids and lines are equal |
| UtmpConvert.ToUtmpx | glibc-ports/kfreebsd/utmp-compat/utmpconv.c:50-139 | the in-place conversion computes Decode; on failure the result is all zero |
| UtmpConvert.FindType | glibc-ports/kfreebsd/utmp-compat/utmpconv.c:61-95 | the classification by reserved lines and names |
| UtmpConvert.FindPid | glibc-ports/kfreebsd/utmp-compat/utmpconv.c:113-132 | the pid parsed behind the host's NUL stays inside its buffers |
| UtmpConvert.ToUtmp | glibc-ports/kfreebsd/utmp-compat/utmpconv.c:141-227 | the in-place conversion computes Encode, refuses exactly the unknown types and then changes nothing, and overruns exactly when Encode does |
| UtmpConvert.PutPid | glibc-ports/kfreebsd/utmp-compat/utmpconv.c:216-224 | the pid is printed into eleven bytes and hidden behind the host's NUL, within the field; or one of the two arrays is overrun |
| UtmpConvert.PrintUnsigned | glibc-ports/kfreebsd/utmp-compat/utmpconv.c:221-221 | the digits and their NUL are written exactly if the array has room for them |
| UtmpSearch.WantedIs | glibc-ports/kfreebsd/utmp-compat/getutxid.c:42-66 | the tests of the code, made on converted records, choose exactly the entries of the file that are wanted, told by their lines and names |
| UtmpSearch.WantedByRecord | glibc-ports/kfreebsd/utmp-compat/getutxid.c:28-67 | with a record of the file as the key, getutxid accepts exactly the processes with the same id, whatever their types, the marks with the same line and name, or the blank records |
| UtmpSearch.EqualIsWanted | glibc-ports/kfreebsd/utmp-compat/utmp-equal.h:25-50 | what __utmp_equal takes for the same process, getutxid accepts |
| UtmpSearch.WantedByLine | glibc-ports/kfreebsd/utmp-compat/getutxline.c:26-40 | with a record of the file as the key, getutxline accepts exactly the login and user processes on its terminal, or, for a key without terminal, those without one |
| UtmpSearch.EqualIsWantedByLine | glibc-ports/kfreebsd/utmp-compat/utmp-equal.h:25-50 | among what __utmp_equal takes for the same process, getutxline accepts exactly the logins |
| UtmpSearch.Reader.Getutxent | glibc-ports/kfreebsd/utmp-compat/getutxent.c:29-44 | the next entry that converts; those passed over do not, and nothing is read beyond it |
| UtmpSearch.Reader.Getutxid | glibc-ports/kfreebsd/utmp-compat/getutxid.c:26-68 | the first wanted entry of the file from the cursor on, with none before it and nothing read beyond it; a key that is the static buffer, which the search overwrites, wants the next process, or any entry |
| UtmpSearch.Reader.Getutxline | glibc-ports/kfreebsd/utmp-compat/getutxline.c:26-40 | the same for login and user processes by line; a key that is the static buffer wants the next of them |
| IfNameIndex.Heap.Realloc | glibc-ports/kfreebsd/if_index.c:204-213 | any behaviour of realloc: failure, growth in place or a move |
| IfNameIndex.NameAt | glibc-ports/kfreebsd/if_index.c:242-245 | from its offset one reads the k-th name and its NUL |
| IfNameIndex.Locals.AddS | glibc-ports/kfreebsd/if_index.c:198-219 | one entry more and all others kept, or out of memory and nothing changed; copies stay below twice the length |
| IfNameIndex.Locals.AddC | glibc-ports/kfreebsd/if_index.c:221-246 | the name and its NUL are appended at the returned offset; copies stay below twice the length |
| IfNameIndex.Locals.Add | glibc-ports/kfreebsd/if_index.c:248-261 | one interface more in both arrays, or out of memory |
| IfNameIndex.Locals.Relocate | glibc-ports/kfreebsd/if_index.c:276-281 | every offset becomes the pointer to the same place |
| IfNameIndex.IfNameIndex | glibc-ports/kfreebsd/if_index.c:265-294 | one entry per interface with its index and name and a last {0, NULL}; exactly two new blocks, one without interfaces; none on failure, which is exactly a failed realloc; copies below twice the final lengths |
| IfNameIndex.IfFreeNameIndex | glibc-ports/kfreebsd/if_index.c:300-310 | both blocks are found again from the first entry and released |
| ReadonlyArea.Check | glibc-ports/kfreebsd/readonly-area.c:60-95 | for disjoint mappings in any order: 1 exactly if every byte of the area can be read and not written; size never underflows |
| ReadonlyArea.LeftNext | glibc-ports/kfreebsd/readonly-area.c:69-86 | a mapping takes exactly its overlap off what is left |
| Cmsg.AlignIs | glibc-ports/kfreebsd/bits/socket.h:246-247 | CMSG_ALIGN rounds up, but takes the last lengths below the word size to 0 |
| Cmsg.AlignLen | glibc-ports/kfreebsd/bits/socket.h:246-250 | for a message whose size is a socklen_t nothing wraps around, and CMSG_ALIGN of CMSG_LEN is CMSG_SPACE |
| Cmsg.StepExactly | glibc-ports/kfreebsd/bits/socket.h:265-281 | on any contents a step ends the walk, or goes up to a header inside the buffer with its data, if and only if neither sum wraps around or it lands at a header that is too long |
| Cmsg.WalkExactly | glibc-ports/kfreebsd/bits/socket.h:242-281 | on any contents the walk ends, goes upwards and stays inside if and only if the step from the last header of the plain arithmetic does not wrap around, or lands at a header that is too long |
| Cmsg.WideWalk | glibc-ports/kfreebsd/bits/socket.h:242-281 | in 64 bits, in a buffer that ends more than 2^32 bytes below the end of the address space, every walk ends, goes upwards and stays inside |
| Cmsg.EndlessWalk | glibc-ports/kfreebsd/bits/socket.h:268-280 | in 32 bits a first header with one of the greatest lengths is its own successor, and the walk never ends |
| Cmsg.BackwardStep | glibc-ports/kfreebsd/bits/socket.h:272-280 | in 32 bits a first header whose length passes the end of memory leads in front of the buffer |
| Cmsg.Witnesses | glibc-ports/kfreebsd/bits/socket.h:265-281 | buffers for these two cases |
| Cmsg.LayoutWalk | glibc-ports/kfreebsd/bits/socket.h:242-281 | on messages laid out with CMSG_SPACE the walk visits each once in order, then NULL, and CMSG_DATA is its data; zeroed room behind them is visited as one header of length 0 if a header fits in it; this holds if and only if one fits, or room for a header is left below the end of memory |

## Left out

- Memory ordering weaker than sequential consistency, and the overlap of the 32-bit `iv` with the 64-bit `lv` in the lock word: the futex compare is on `iv`.
- MrLockMacros.Machine.Lock: a finite list of interfering actions stands for the other threads, so the loop is stated up to the point where the list ends; fairness is not modelled.
- MrLockMacros.Machine.Change: the same.
- More than 2^28 - 1 threads in the lock: the reader count could then reach the sign bit.
- The sysctl calls with their retries, the freeing of the message buffer (which the EINVAL exits keep), and `freeifaddrs`.
- IfAddrsPasses.GetIfAddrs: messages are given as parsed values with sockaddrs that lie inside them, and sizes do not overflow; the interface data of address messages (`HAVE_IFAM_DATA`, undefined here) is not copied.
- Cmsg.WideWalk: says nothing of a buffer that ends at most 2^32 bytes below the end of the 64-bit address space; `Cmsg.WalkExactly` says what happens there.
- The timer registry takes it that the program deletes an id at most once and only after create returned it, and that every delete is of a timer whose id is valid; the EINVAL exit for other ids is in `TimerList.Registry.Delete` only.
- A `malloc` that returns NULL ends `timer_create` at once; the code reaches the same end through a CAS of NULL with NULL.
- The `malloc` of the timer helper, which may fail and then starts no thread, the threads it starts, `pthread_once`, the restart after fork, and the `compat_timer_*` fallbacks, which come from elsewhere.
- The `linuxthreads` copies of the timer code, which have the same logic.
- `timer_settime` and the other calls that only look an id up.
- TimerList.Registry.Free: counts the block among those not allocated any more; that no freed block is touched is proved on the transition system.
- The utmp file itself: `__getutent` is a cursor over a sequence of records, `__pututline` is not part of this model, so neither is `pututxline`; `getutmp`, `getutmpx` and `updwtmpx` only pass on a conversion.
- UtmpConvert.ToUtmp: what an overrun leaves behind is not said; `strtoul` and `isspace` are those of the C locale.
- `if_iterate`'s parsing of the messages, `if_nametoindex` and `if_indextoname`: linear scans.
- ReadonlyArea.Check: takes the list of mappings as given and disjoint, each with at least one byte; the answer 1 without sysctl is not modelled, nor is the end of the address space.
- The syscall wrappers, the `*at` fallbacks, constants, struct layouts and one-line macros, inline assembly and start-up code: nothing to prove beyond their definitions.
