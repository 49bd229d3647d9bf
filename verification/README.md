# Verified models of the lab drivers

Three groups of drivers of this repository, modelled in Dafny with proofs of what they guarantee.

**RCU list and cells** (`Lab11`). The list driver lets any number of readers walk a linked list
without a lock while updaters, one at a time under a spinlock, replace entries by changed copies,
wait for a grace period and free the old entry. It is modelled as a transition system whose events
are single loads, single stores (those of `prev` pointers included), allocations, frees, lock
operations and grace periods, for any number of threads and a list of any length n (the source has
n = 5). Freed addresses may be reused at once; any access to memory that is not allocated is a
fault. The two cell drivers, one with RCU and one with a reader/writer lock, run the same steps and
differ in the lock and the grace period; they are one transition system with the kind of lock as a
parameter, proved to implement one specification, an atomic register. The driver classes beside them
are the routines as written, loops over shared memory, with other threads running between any two
accesses; each access is checked against the transition system.

**Typed message queues** (`ku_ipc.c.txt`, `ku_ipc_lib.c.txt`). Keyed queues of typed messages with
a bound of 10 messages and 135 bytes, reads by type with optional truncation, and library calls
that poll. The driver's state is modelled as objects changed in place, with an allocator whose
allocated blocks are proved to be at all times exactly those of the linked queues and messages. Its
methods are proved equal to functions on values, about which the laws over all runs are proved.

**Stepper sweep controller** (`ku_SnA.c`). Nested loops that turn a motor by half-steps, a sweep up
or down with notes at every switch interrupt, and two commands. Ghost fields record the positions,
the coil patterns, every single pin write and the notes.

| file | content |
|---|---|
| Common.dfy | options, sequences, fresh addresses |
| RcuList.dfy | the RCU list as a transition system |
| RcuListHistory.dfy | its history variables do not steer it |
| RcuListInvariant.dfy | its inductive invariant |
| RcuListRuns.dfy | its guarantees over all runs |
| RcuListDriver.dfy | init, READ, UPDATE and exit as loops over shared memory |
| RcuListProgress.dfy | readers finish, nobody deadlocks, grace periods end |
| Register.dfy | the atomic register, and the READ code that both cells share |
| Cell.dfy | the two cell drivers as one transition system, and its inductive invariant |
| CellRuns.dfy | their guarantees over all runs |
| CellDriver.dfy | their ioctls as straight-line code over shared memory |
| MsgQueue.dfy | the queues as values, and what each call does to them |
| MsgQueueLaws.dfy | accounting, FIFO per type, the keyed list as a map, refused calls |
| MsgQueueDrain.dfy | when a queue can be emptied |
| IpcKernel.dfy | the queue driver in place, with its memory |
| IpcLib.dfy | the library calls and their polling loops under interference |
| Sweep.dfy | patterns, walks, angles and sweeps as values |
| Stepper.dfy | the stepper driver in place |

## Results that differ from what one might expect

- Keys of queues are distinct only among positive keys. A key that is not positive is never
  recognised as existing (`ESS_201411303_이준호_1/새 폴더/ku_ipc_lib.c.txt:25`), so every request for it makes another queue, and
  closing key 0 reports success without closing anything. KeysUniqueIff and CloseTellsTheTruthIff
  say exactly when keys are distinct and when a reported close took place; KeyZeroCollides and
  CloseOfKeyZero are runs in which they are not and it did not.
- A read of a queue whose messages are all empty is refused with NOVOL (`ESS_201411303_이준호_1/새 폴더/ku_ipc.c.txt:197`), so
  empty messages can be stuck. DrainableIff says exactly which queues receivers can empty; ten empty
  messages make a queue on which no read and no write ever succeeds again (WedgedIff, WedgedForever).
- A series of angles moves less than their sum in one move exactly when truncation drops 45 degrees
  or more in all (SplitMoveIff; SplitMoveFallsShort is such a case).
- The RCU cell can show a value that has been replaced (StaleReadIsPossible). SecondPrintCurrentIff
  says exactly when: if and only if a different value was published since the reader loaded the
  pointer, and then it is the value immediately before. The cell with the reader/writer lock never
  does (ValueStaysCurrent).

## Model

| member | source | states |
|---|---|---|
| RcuListHistory.HistoryDoesNotSteer | Lab11/simple_rculist/simple_rculist.c:38-136 | the history variables that the transition system carries are idle: no event's outcome depends on them |
| RcuListInvariant.StepReaderGood | Lab11/simple_rculist/simple_rculist.c:40-51 | a step of a READ is never blocked, touches only allocated memory, and keeps the invariant, in every state that satisfies it |
| RcuListInvariant.ReadLockGood | Lab11/simple_rculist/simple_rculist.c:40 | a read section may begin in any such state |
| RcuListInvariant.WalkGood | Lab11/simple_rculist/simple_rculist.c:55-56 | the same of an updater's walk along the list |
| RcuListInvariant.AllocGood | Lab11/simple_rculist/simple_rculist.c:58 | the same of kmalloc, whatever address and contents it returns, freed addresses included |
| RcuListInvariant.StepReplaceGood | Lab11/simple_rculist/simple_rculist.c:59-63 | the same of each single store of memcpy, `data++` and list_replace_rcu, of the grace period, and of kfree |
| RcuListInvariant.StepDeleteGood | Lab11/simple_rculist/simple_rculist.c:125-127 | the same of each single store of list_del_rcu, of the grace period, and of kfree |
| RcuListInvariant.ExitWalkGood | Lab11/simple_rculist/simple_rculist.c:122-128 | the same of the walk of the exit routine |
| RcuListInvariant.StepWriterGood | Lab11/simple_rculist/simple_rculist.c:53-71 | the same of every step of the lock holder |
| RcuListInvariant.StepGood | Lab11/simple_rculist/simple_rculist.c:38-76 | the invariant is inductive: every event of every thread keeps it and none faults |
| RcuListRuns.BootedInv | Lab11/simple_rculist/simple_rculist.c:103-110 | the list that init builds satisfies the invariant |
| RcuListRuns.RunInv | Lab11/simple_rculist/simple_rculist.c:38-136 | so does every state of every run, of any number of threads and with exit at any point |
| RcuListRuns.NoUseAfterFree | Lab11/simple_rculist/simple_rculist.c:122-130 | no event of any thread ever touches or frees memory that is not allocated, in any reachable state, the teardown included |
| RcuListRuns.CursorsAllocated | Lab11/simple_rculist/simple_rculist.c:42-48 | whatever a reader may dereference next is the list head or an allocated entry |
| RcuListRuns.OneChangePerSection | Lab11/simple_rculist/simple_rculist.c:53-65 | at most one replacement or deletion is published during any one read section, because the grace period runs inside the lock |
| RcuListRuns.HistoryCounts | Lab11/simple_rculist/simple_rculist.c:61 | the history variables of the model count exactly the publications, in all and per id |
| RcuListRuns.DataStable | Lab11/simple_rculist/simple_rculist.c:59-60 | no step writes the id or data of an entry but those of an updater's unpublished copy |
| RcuListRuns.LinearizableRead | Lab11/simple_rculist/simple_rculist.c:40-51 | the value a READ reports was the data of that id on the list at some instant between its lock and its unlock |
| RcuListRuns.CurrentIff | Lab11/simple_rculist/simple_rculist.c:42-44 | what is current in this sense is what a walk along `next` in memory finds |
| RcuListRuns.FoundIffListed | Lab11/simple_rculist/simple_rculist.c:42-50 | outside exit a READ finds its id if and only if it is one of 1, ..., n; during exit it finds no other |
| RcuListProgress.ReadersFinish | Lab11/simple_rculist/simple_rculist.c:42-48 | wait-freedom: a READ is over after at most 2n+3 of its own steps whatever the others do, and its next step is never blocked |
| RcuListRuns.NotFoundWasAbsent | Lab11/simple_rculist/simple_rculist.c:42-50 | the id that a READ does not find, during exit too, was off the list at some instant between its lock and its unlock |
| RcuListRuns.VisitsInOrder | Lab11/simple_rculist/simple_rculist.c:42-48 | outside exit the k-th pointer a traversal loads leads to the entry with id k and the one after the last to the head, across old and new entries |
| RcuListRuns.ListShape | Lab11/simple_rculist/simple_rculist.c:105-110 | in every state satisfying the invariant, a walk along `next` sees the ids 1, ..., n in order and the head after them |
| RcuListRuns.ListRefines | Lab11/simple_rculist/simple_rculist.c:58-63 | in every reachable state before exit each id has as data 100 plus the number of updates of it published so far, modulo the word size |
| RcuListRuns.HeapExactly | Lab11/simple_rculist/simple_rculist.c:58-63 | the allocated memory is the list and at most the one entry of the lock holder |
| RcuListRuns.AllocationConserved | Lab11/simple_rculist/simple_rculist.c:58-63 | allocations minus frees is that memory; an entry in limbo is off the list and its `next` leads back into it |
| RcuListRuns.TeardownFreesAll | Lab11/simple_rculist/simple_rculist.c:122-130 | after exit the list is empty, and every entry ever allocated has been freed, once |
| RcuListProgress.HolderOrReaderMoves | Lab11/simple_rculist/simple_rculist.c:53-66 | no deadlock: the lock holder can step, or every section it waits for can |
| RcuListProgress.GraceShrinks | Lab11/simple_rculist/simple_rculist.c:62 | no event makes a running grace period wait for more sections |
| RcuListProgress.GraceDescends | Lab11/simple_rculist/simple_rculist.c:62 | each step of a section that is waited for makes the rest of a grace period shorter, and no event makes it longer |
| RcuListProgress.GraceIsBounded | Lab11/simple_rculist/simple_rculist.c:62 | a grace period is over after at most 2n+3 steps of each section that it waits for |
| RcuListDriver.AddedBuilt | Lab11/simple_rculist/simple_rculist.c:106-109 | list_add_tail_rcu of a new entry extends the list by the next id |
| RcuListDriver.BuildList | Lab11/simple_rculist/simple_rculist.c:103-110 | the init loop, by its stores: it builds the list with ids 1, ..., n and data 100 |
| RcuListDriver.Driver.constructor | Lab11/simple_rculist/simple_rculist.c:92-115 | init starts a run of the transition system |
| RcuListDriver.Driver.Interfere | Lab11/simple_rculist/simple_rculist.c:38-76 | what other threads do between two accesses of a call leaves alone the caller's section, or the list while the caller holds the lock |
| RcuListDriver.Driver.LoadId | Lab11/simple_rculist/simple_rculist.c:43 | `pos->id == arg` as an access of the traversal, one step closer to its end |
| RcuListDriver.Driver.LoadNext | Lab11/simple_rculist/simple_rculist.c:42 | `pos = pos->list.next` likewise |
| RcuListDriver.Driver.LoadData | Lab11/simple_rculist/simple_rculist.c:44 | `pos->data` likewise |
| RcuListDriver.Driver.EndSection | Lab11/simple_rculist/simple_rculist.c:45 | at rcu_read_unlock the result was current, or the id off the list, at an instant of the section, and is found if and only if listed |
| RcuListDriver.Driver.Read | Lab11/simple_rculist/simple_rculist.c:39-51 | IOCTL_READ as its loop: it terminates under any interference, with a linearizable result, a not found included, and finds before exit if and only if the id is one of 1, ..., n |
| RcuListDriver.ReplaceStores | Lab11/simple_rculist/simple_rculist.c:59-61 | memcpy, `data++` and list_replace_rcu are, in this order, the stores that the transition system makes |
| RcuListDriver.DeleteStores | Lab11/simple_rculist/simple_rculist.c:125 | the stores of list_del_rcu into the successor and into the entry are those of the transition system |
| RcuListDriver.Driver.SpinLock | Lab11/simple_rculist/simple_rculist.c:53 | the lock is obtained, and was free in the state before |
| RcuListDriver.Driver.Prepare | Lab11/simple_rculist/simple_rculist.c:59-61 | the four stores into the new entry make it the old one with its data increased, and nothing else is written |
| RcuListDriver.Driver.PublishNew | Lab11/simple_rculist/simple_rculist.c:61 | the store into `next` of the predecessor publishes exactly one update of `arg` |
| RcuListDriver.Driver.Finish | Lab11/simple_rculist/simple_rculist.c:61 | after publication the successor is linked back to the new entry and the old one is poisoned |
| RcuListDriver.Driver.Snapshot | Lab11/simple_rculist/simple_rculist.c:62 | synchronize_rcu begins with exactly the sections that are open |
| RcuListDriver.Driver.Await | Lab11/simple_rculist/simple_rculist.c:62 | and is over exactly when none of them is open any more |
| RcuListDriver.Driver.Publication | Lab11/simple_rculist/simple_rculist.c:58-61 | the memory after kmalloc, memcpy, `data++` and list_replace_rcu, under any interference between their stores |
| RcuListDriver.Driver.Free | Lab11/simple_rculist/simple_rculist.c:63 | kfree of exactly the replaced or deleted entry, after its grace period |
| RcuListDriver.Driver.Report | Lab11/simple_rculist/simple_rculist.c:64 | the data reported is 100 plus all updates of the id, modulo the word size |
| RcuListDriver.Driver.Replace | Lab11/simple_rculist/simple_rculist.c:56-66 | copy, publish, wait, free: one update, one allocation, one free, and the memory that results, or still waiting |
| RcuListDriver.Driver.Update | Lab11/simple_rculist/simple_rculist.c:52-71 | IOCTL_UPDATE as its loop: exactly one update, allocation and free while it holds the lock, the entry being replaced by its successor, whose data it reports, or nothing; updated before exit only if, and not found only if not, the id is one of 1, ..., n |
| RcuListDriver.Driver.ListDel | Lab11/simple_rculist/simple_rculist.c:125 | the memory after list_del_rcu: successor and predecessor linked past the entry, which is poisoned |
| RcuListDriver.Driver.ExitRound | Lab11/simple_rculist/simple_rculist.c:124-128 | one round of the exit loop: the entry is unlinked and after its grace period freed, and the walk goes on from the saved successor |
| RcuListDriver.Driver.ExitLoop | Lab11/simple_rculist/simple_rculist.c:124-130 | the exit loop makes one round, with one free, for every entry that was on the list |
| RcuListDriver.Driver.Teardown | Lab11/simple_rculist/simple_rculist.c:117-130 | exit leaves an empty list and everything allocated freed |
| Register.ReadsAreAtomic | Lab11/simple_rcu/simple_rcu.c:34-39 | the specification: both values a read shows are the one that was current at one instant after its call |
| Register.StepPcRefines | Lab11/simple_rwlock/simple_rwlock.c:34-39 | each step of IOCTL_READ, the same code in both drivers, is the register action it stands for |
| Register.BeginRefines | Lab11/simple_rcu/simple_rcu.c:34 | so is the beginning of a section |
| Cell.HistoryDoesNotSteer | Lab11/simple_rcu/simple_rcu.c:33-52 | the history variables of the model are idle |
| Cell.ReadLockGood | Lab11/simple_rwlock/simple_rwlock.c:34 | a section may begin whenever the lock admits it, and this is a call of the register |
| Cell.ReadStepGood | Lab11/simple_rcu/simple_rcu.c:35-39 | a reader's step does not fault, keeps the invariant and is the register's |
| Cell.WriterStepGood | Lab11/simple_rcu/simple_rcu.c:42-51 | a writer's step likewise, in either driver |
| Cell.WriterRefines | Lab11/simple_rwlock/simple_rwlock.c:47 | only the pointer store changes the register, and it writes the argument |
| Cell.StepGood | Lab11/simple_rcu/simple_rcu.c:33-52 | the invariant is inductive and every step is simulated, in either driver |
| CellRuns.RunInv | Lab11/simple_rcu/simple_rcu.c:33-52 | the invariant holds in every state of every run before exit of either driver |
| CellRuns.NoUseAfterFree | Lab11/simple_rwlock/simple_rwlock.c:34-50 | in every run before exit of either driver nobody touches or frees memory that is not allocated, and a reader inside is never blocked |
| CellRuns.RefinesRegister | Lab11/simple_rwlock/simple_rwlock.c:34-50 | every run before exit of either driver is a run of one and the same atomic register |
| CellRuns.ReadsAreLinearizable | Lab11/simple_rcu/simple_rcu.c:34-39 | the two values a READ prints are equal, and the cell held that value at one instant of the section |
| CellRuns.SecondReadIsRecent | Lab11/simple_rcu/simple_rcu.c:35-38 | the second read sees the value of the first, unfreed, and it is the current value or the one immediately before it |
| CellRuns.PointerCurrentIff | Lab11/simple_rcu/simple_rcu.c:35-38 | the pointer that a reader holds is the current one if and only if nothing was published since it was loaded |
| CellRuns.SecondPrintCurrentIff | Lab11/simple_rcu/simple_rcu.c:35-38 | the second print shows the current value if and only if nothing was published since the load, or the one value that was is the same; otherwise the value immediately before |
| CellRuns.StaleReadIsPossible | Lab11/simple_rcu/simple_rcu.c:35-38 | a run in which the other case occurs |
| CellRuns.WrittenIsHistory | Lab11/simple_rcu/simple_rcu.c:47 | the history variable is 0 and then the values published |
| CellRuns.OneWritePerSection | Lab11/simple_rcu/simple_rcu.c:42-51 | at most one value is published during any one section |
| CellRuns.AllocationConserved | Lab11/simple_rcu/simple_rcu.c:44-50 | at most two blocks are allocated, and while nobody writes exactly one |
| CellRuns.ValueStaysCurrent | Lab11/simple_rwlock/simple_rwlock.c:34-39 | with the reader/writer lock, stronger: until its unlock a reader's pointer is the current one and its value the current value |
| CellRuns.ReadersExcludeWriters | Lab11/simple_rwlock/simple_rwlock.c:34-42 | because while a reader is inside, no event changes the pointer, the memory or the value |
| CellDriver.Driver.constructor | Lab11/simple_rcu/simple_rcu.c:82-84 | init starts a run |
| CellDriver.Driver.Interfere | Lab11/simple_rcu/simple_rcu.c:33-52 | what other threads do between two accesses of a call leaves alone the caller's section, or the cell while the caller holds the lock |
| CellDriver.Driver.BeginSection | Lab11/simple_rwlock/simple_rwlock.c:34 | a section begins only when the lock admits it |
| CellDriver.Driver.Read | Lab11/simple_rcu/simple_rcu.c:34-39 | IOCTL_READ: both values are equal and were current at one instant of the call, under any interference; with the reader/writer lock they are current still when it returns |
| CellDriver.Driver.Acquire | Lab11/simple_rwlock/simple_rwlock.c:42 | a writer begins only when the lock admits it |
| CellDriver.Driver.Prepare | Lab11/simple_rcu/simple_rcu.c:44-46 | a block of its own, filled with the argument before anybody can see it |
| CellDriver.Driver.Put | Lab11/simple_rcu/simple_rcu.c:47 | the pointer store: it leads to the filled block |
| CellDriver.Driver.Snapshot | Lab11/simple_rcu/simple_rcu.c:49 | synchronize_rcu begins with exactly the sections that are open |
| CellDriver.Driver.Await | Lab11/simple_rcu/simple_rcu.c:49 | and is over exactly when none of them is open any more |
| CellDriver.Driver.Release | Lab11/simple_rcu/simple_rcu.c:50-51 | the old block is freed only then, and then the lock is dropped |
| CellDriver.Driver.Write | Lab11/simple_rwlock/simple_rwlock.c:41-50 | IOCTL_WRITE: while it holds the lock it alone publishes, it publishes its argument, and it leaves one block allocated |
| MsgQueue.FindQueue | ESS_201411303_이준호_1/새 폴더/ku_ipc.c.txt:95-107 | the first queue in the list with the key, or none |
| MsgQueue.FindType | ESS_201411303_이준호_1/새 폴더/ku_ipc.c.txt:203-211 | the first message in the queue with the type, or none |
| MsgQueueLaws.PushAccounted | ESS_201411303_이준호_1/새 폴더/ku_ipc.c.txt:265-284 | a write keeps the counters true and within their bounds |
| MsgQueueLaws.PullAccounted | ESS_201411303_이준호_1/새 폴더/ku_ipc.c.txt:226-243 | so does a read, a truncating one included, since it subtracts the stored size |
| MsgQueueLaws.RunAccounted | ESS_201411303_이준호_1/새 폴더/ku_ipc.c.txt:265-284 | after any run, in every queue `size` is the number of messages, at most 10, and `vol` the sum of their sizes, at most 135 |
| MsgQueueLaws.PushAnswers | ESS_201411303_이준호_1/새 폴더/ku_ipc.c.txt:265-284 | what a write to a queue answers, by number: FULLMSG at ten messages, otherwise FULLVOL beyond 135 bytes, otherwise 0; and the message it appends |
| MsgQueueLaws.WriteAcceptedIff | ESS_201411303_이준호_1/새 폴더/ku_ipc.c.txt:260-288 | in any reachable state a write is accepted if and only if the queue exists and has room for one message more and for its bytes |
| MsgQueueLaws.WriteRefusedIff | ESS_201411303_이준호_1/새 폴더/ku_ipc.c.txt:260-272 | in any reachable state each refusal of a write, by number, if and only if its reason holds |
| MsgQueueLaws.CutDequeues | ESS_201411303_이준호_1/새 폴더/ku_ipc.c.txt:203-242 | removing the first match dequeues the FIFO of its type and no other |
| MsgQueueLaws.ReadDelivers | ESS_201411303_이준호_1/새 폴더/ku_ipc.c.txt:203-247 | a successful read returns the oldest message of the type, whole or its prefix of `len` bytes, and the number of bytes |
| MsgQueueLaws.ReadRefusedIff | ESS_201411303_이준호_1/새 폴더/ku_ipc.c.txt:193-247 | each refusal of a read, and its success, if and only if its reason holds: the codes by number, truncation by the MSG_NOERROR bits |
| MsgQueueLaws.ReadNoQueueIff | ESS_201411303_이준호_1/새 폴더/ku_ipc.c.txt:188-192 | NOMSQ exactly when there is no such queue |
| MsgQueueLaws.FlagBits | ESS_201411303_이준호_1/새 폴더/ku_ipc_lib.c.txt:75-76 | which bits of the flags switch waiting off and truncation on |
| MsgQueueLaws.GetAnswers | ESS_201411303_이준호_1/새 폴더/ku_ipc_lib.c.txt:24-31 | a request for an existing positive key fails exactly for IPC_EXCL and changes nothing; any other makes a new queue |
| MsgQueueLaws.CheckFailsIff | ESS_201411303_이준호_1/새 폴더/ku_ipc_lib.c.txt:63-66 | the library takes a check for failed exactly if there is no such queue or the key is negative |
| MsgQueueLaws.ApplyLookup | ESS_201411303_이준호_1/새 폴더/ku_ipc.c.txt:95-107 | key isolation: a call on one key changes the queue under that key and no other, and its reply depends on that queue alone |
| MsgQueueLaws.RunPositiveUnique | ESS_201411303_이준호_1/새 폴더/ku_ipc_lib.c.txt:24-31 | no two queues share a positive key, after any run |
| MsgQueueLaws.FifoPerType | ESS_201411303_이준호_1/새 폴더/ku_ipc.c.txt:203-284 | after any run, for every key and type, sent = received followed by still queued |
| MsgQueueLaws.ReadsReplyInOrder | ESS_201411303_이준호_1/새 폴더/ku_ipc.c.txt:203-247 | the k-th successful read of a type replies with the k-th message of that type sent, or with the prefix of it that it offered room for; as many were sent as were read and are queued |
| MsgQueueLaws.RunRefinesDirectory | ESS_201411303_이준호_1/새 폴더/ku_ipc_lib.c.txt:16-56 | with positive keys the list gives the replies, and ends in the queues, of a map from keys to queues |
| MsgQueueLaws.NonPositiveKeysPileUp | ESS_201411303_이준호_1/새 폴더/ku_ipc_lib.c.txt:25-31 | under a key that is not positive every request makes one more queue, never closed |
| MsgQueueLaws.KeysUniqueIff | ESS_201411303_이준호_1/새 폴더/ku_ipc_lib.c.txt:25-31 | no two queues share a key if and only if no key that is not positive is asked for twice |
| MsgQueueLaws.KeyZeroCollides | ESS_201411303_이준호_1/새 폴더/ku_ipc_lib.c.txt:25-31 | a run with two queues under key 0 |
| MsgQueueLaws.CloseTellsTheTruthIff | ESS_201411303_이준호_1/새 폴더/ku_ipc_lib.c.txt:42-54 | ku_msgclose succeeds exactly for a key that exists and is not negative, and closes only a positive one |
| MsgQueueLaws.CloseOfKeyZero | ESS_201411303_이준호_1/새 폴더/ku_ipc_lib.c.txt:42-54 | a close that reports success and leaves the queue in place |
| MsgQueueLaws.RefusedIff | ESS_201411303_이준호_1/새 폴더/ku_ipc.c.txt:187-272 | the calls that count as refused are those answered by an error |
| MsgQueueLaws.RefusedIsInvisible | ESS_201411303_이준호_1/새 폴더/ku_ipc.c.txt:187-272 | a refused call leaves the whole system as it was |
| MsgQueueLaws.RunEqualsErased | ESS_201411303_이준호_1/새 폴더/ku_ipc.c.txt:187-272 | any run ends as, and its successful calls reply as in, the run without its refused calls |
| MsgQueueDrain.SentNonEmpty | ESS_201411303_이준호_1/새 폴더/ku_ipc.c.txt:265-284 | if every message sent is non-empty, so is every message queued, after any run |
| MsgQueueDrain.NonEmptyNeverNovol | ESS_201411303_이준호_1/새 폴더/ku_ipc.c.txt:193-200 | and then `size` >= 1 if and only if `vol` >= 1, and NOVOL is never the answer |
| MsgQueueDrain.HeadDrainsIff | ESS_201411303_이준호_1/새 폴더/ku_ipc.c.txt:197-243 | for all receives that ask for the head's type with MSG_NOERROR, whatever length they offer: they all deliver if and only if the last message is not empty, and then leave the queue empty |
| MsgQueueDrain.HeadDrainThenWrite | ESS_201411303_이준호_1/새 폴더/ku_ipc.c.txt:226-272 | in any reachable system, after such receives any write of up to 135 bytes is accepted |
| MsgQueueDrain.DrainProgress | ESS_201411303_이준호_1/새 폴더/ku_ipc.c.txt:226-272 | in particular whenever every message sent is non-empty |
| MsgQueueDrain.DrainableIff | ESS_201411303_이준호_1/새 폴더/ku_ipc.c.txt:197-243 | receivers can empty a queue if and only if it is empty or the newest message of some type is not empty |
| MsgQueueDrain.KeeperDrains | ESS_201411303_이준호_1/새 폴더/ku_ipc.c.txt:197-243 | and then as many receives as it has messages do it |
| MsgQueueDrain.DrainThenWrite | ESS_201411303_이준호_1/새 폴더/ku_ipc.c.txt:226-272 | in any reachable system a queue that receivers can empty at all can be emptied by `size` receives, after which any write of up to 135 bytes succeeds |
| MsgQueueDrain.WedgedIff | ESS_201411303_이준호_1/새 폴더/ku_ipc.c.txt:197-268 | no read and no write can ever succeed exactly when the queue holds ten messages that are all empty |
| MsgQueueDrain.WedgedForever | ESS_201411303_이준호_1/새 폴더/ku_ipc.c.txt:197-268 | and then nothing but closing it changes it |
| MsgQueueDrain.WedgedIsReachable | ESS_201411303_이준호_1/새 폴더/ku_ipc.c.txt:265-284 | such a queue is reachable |
| IpcKernel.Memory.MsgCreate | ESS_201411303_이준호_1/새 폴더/ku_ipc.c.txt:60-84 | four new blocks, none of them in use |
| IpcKernel.Memory.MsgDelete | ESS_201411303_이준호_1/새 폴더/ku_ipc.c.txt:86-93 | the four blocks of a message are freed, each once |
| IpcKernel.Memory.MsqCreate | ESS_201411303_이준호_1/새 폴더/ku_ipc.c.txt:109-119 | an empty queue in a new block |
| IpcKernel.Memory.FreeMessages | ESS_201411303_이준호_1/새 폴더/ku_ipc.c.txt:126-128 | every message of a queue is freed |
| IpcKernel.Memory.MsqDelete | ESS_201411303_이준호_1/새 폴더/ku_ipc.c.txt:121-132 | and then the queue |
| IpcKernel.Kernel.MsqGet | ESS_201411303_이준호_1/새 폴더/ku_ipc.c.txt:95-107 | the search loop finds what FindQueue says |
| IpcKernel.Kernel.Check | ESS_201411303_이준호_1/새 폴더/ku_ipc.c.txt:140-147 | the key if it is there, and NOMSQ if not |
| IpcKernel.Kernel.Create | ESS_201411303_이준호_1/새 폴더/ku_ipc.c.txt:149-153 | one more queue at the end of the list; allocated memory stays what is linked |
| IpcKernel.Kernel.CloseQueue | ESS_201411303_이준호_1/새 폴더/ku_ipc.c.txt:155-160 | the first queue with the key leaves the list and all its memory is freed, once |
| IpcKernel.Kernel.Enqueue | ESS_201411303_이준호_1/새 폴더/ku_ipc.c.txt:275-284 | a message is allocated and linked, and both counters follow |
| IpcKernel.Kernel.WriteTo | ESS_201411303_이준호_1/새 폴더/ku_ipc.c.txt:265-288 | on a queue, the refusals and the append of Push, in place |
| IpcKernel.Kernel.Write | ESS_201411303_이준호_1/새 폴더/ku_ipc.c.txt:250-289 | ku_ipc_write is DoWrite; a refusal changes no queue and no allocation |
| IpcKernel.Kernel.FirstOfType | ESS_201411303_이준호_1/새 폴더/ku_ipc.c.txt:203-211 | the search loop finds what FindType says |
| IpcKernel.Kernel.Dispose | ESS_201411303_이준호_1/새 폴더/ku_ipc.c.txt:240-243 | the message is unlinked and freed, and both counters follow by its stored size |
| IpcKernel.Kernel.ReadFrom | ESS_201411303_이준호_1/새 폴더/ku_ipc.c.txt:193-247 | on a queue, the refusals and the removal of Pull, in place |
| IpcKernel.Kernel.Read | ESS_201411303_이준호_1/새 폴더/ku_ipc.c.txt:169-248 | ku_ipc_read is DoRead; a refusal changes no queue and no allocation |
| IpcLib.MsgGet | ESS_201411303_이준호_1/새 폴더/ku_ipc_lib.c.txt:16-36 | ku_ipc_msgget is DoGet |
| IpcLib.MsgClose | ESS_201411303_이준호_1/새 폴더/ku_ipc_lib.c.txt:38-56 | ku_msgclose is DoClose |
| IpcLib.Interfere | ESS_201411303_이준호_1/새 폴더/ku_ipc_lib.c.txt:76-79 | other processes' calls between two polls |
| IpcLib.WriteRefused | ESS_201411303_이준호_1/새 폴더/ku_ipc_lib.c.txt:74-79 | a refused write changes nothing, and says NOMSQ exactly when the queue is gone |
| IpcLib.PollWrite | ESS_201411303_이준호_1/새 폴더/ku_ipc_lib.c.txt:77-79 | the polling loop ends when an attempt is accepted or the queue is gone; all attempts before the last were answered FULLMSG or FULLVOL |
| IpcLib.MsgSnd | ESS_201411303_이준호_1/새 폴더/ku_ipc_lib.c.txt:58-95 | a send whose flags have no IPC_NOWAIT bit returns SUCCESS exactly when its last attempt appended, its only append; FAIL exactly when the queue is gone or not recognised, having changed nothing; it polls on exactly after FULLMSG and FULLVOL |
| IpcLib.ReadRefused | ESS_201411303_이준호_1/새 폴더/ku_ipc_lib.c.txt:114-119 | a refused read changes nothing, and says NOMSQ exactly when the queue is gone |
| IpcLib.PollRead | ESS_201411303_이준호_1/새 폴더/ku_ipc_lib.c.txt:117-119 | the polling loop ends with a delivery, NOMSQ or SHORT; all attempts before the last were refused otherwise |
| IpcLib.MsgRcv | ESS_201411303_이준호_1/새 폴더/ku_ipc_lib.c.txt:97-138 | a receive returns n >= 0 exactly when its last attempt removed one message of the type, its only removal; with no IPC_NOWAIT bit it fails exactly after NOMSQ or SHORT and polls on exactly after any other refusal, having changed nothing |
| Sweep.CoilsAt | ESS_201411303_이준호_2/src/driver/ku_SnA.c:28-31 | which coils a position energises: pins 1 to 4 at 0, 2, 4 and 6 modulo 8 and beside them |
| Sweep.OneCoilPerStep | ESS_201411303_이준호_2/src/driver/ku_SnA.c:28-31 | along every walk, changes of direction included, consecutive patterns differ in exactly one coil |
| Sweep.NoGlitch | ESS_201411303_이준호_2/src/driver/ku_SnA.c:35-40 | though the four pins are written one by one, no write makes them show anything but the pattern of the old or of the new position, from the first half-step on |
| Sweep.WalkOn | ESS_201411303_이준호_2/src/driver/ku_SnA.c:42-71 | a leg in either direction continues a walk |
| Sweep.BackwardUndoesForward | ESS_201411303_이준호_2/src/driver/ku_SnA.c:42-71 | a backward with the same arguments passes through the positions of the forward in reverse and ends where it began |
| Sweep.HalfStepsOf | ESS_201411303_이준호_2/src/driver/ku_SnA.c:58-71 | the closed form of the nested loops: 512 times `step` half-steps a round, none if an argument is not positive |
| Sweep.TruncatedIff | ESS_201411303_이준호_2/src/driver/ku_SnA.c:77 | the division by 45 truncates towards zero |
| Sweep.MoveOf | ESS_201411303_이준호_2/src/driver/ku_SnA.c:72-90 | 512 half-steps for every whole 45 degrees, none for a negative angle |
| Sweep.AngleMoved | ESS_201411303_이준호_2/src/driver/ku_SnA.c:77 | an exact account of the angle that a series of moves makes and of what truncation drops |
| Sweep.UndershootBounded | ESS_201411303_이준호_2/src/driver/ku_SnA.c:77 | n moves undershoot their total angle by less than 45 n degrees |
| Sweep.SplitMoveIff | ESS_201411303_이준호_2/src/driver/ku_SnA.c:77-85 | a series of moves equals one combined move if and only if the angles dropped are together less than 45 degrees |
| Sweep.SplitMoveFallsShort | ESS_201411303_이준호_2/src/driver/ku_SnA.c:77-85 | two moves of 30 degrees make no half-step, one of 60 makes 512 |
| Sweep.MultiplesAddUp | ESS_201411303_이준호_2/src/driver/ku_SnA.c:77-85 | in particular when every angle is a multiple of 45 |
| Sweep.PathStaysInRange | ESS_201411303_이준호_2/src/driver/ku_SnA.c:108-129 | after n sweeps the motor is at 4096 times n mod 2, having stayed within [0, 4096] |
| Sweep.TuneRises | ESS_201411303_이준호_2/src/driver/ku_SnA.c:103 | the notes rise by an octave on the way up and fall on the way down |
| Sweep.NotesAtPositions | ESS_201411303_이준호_2/src/driver/ku_SnA.c:112-124 | note i sounds at 512 (i + 1) in a sweep up and at 512 i in a sweep down, over any number of sweeps |
| Stepper.Driver.constructor | ESS_201411303_이준호_2/src/driver/ku_SnA.c:25-33 | the driver starts at position 0 with all pins low |
| Stepper.Driver.SetStep | ESS_201411303_이준호_2/src/driver/ku_SnA.c:35-40 | four writes, one pin after the other |
| Stepper.Driver.ForwardOnce | ESS_201411303_이준호_2/src/driver/ku_SnA.c:63-68 | the next column of the tables, wrapping after 7, is the pattern for the next position; which pins are then high |
| Stepper.Driver.ForwardRow | ESS_201411303_이준호_2/src/driver/ku_SnA.c:62-69 | max(step, 0) half-steps |
| Stepper.Driver.Forward | ESS_201411303_이준호_2/src/driver/ku_SnA.c:58-71 | 512 max(round, 0) max(step, 0) half-steps upwards, and `c_step` as before because 8 divides 512 |
| Stepper.Driver.BackwardOnce | ESS_201411303_이준호_2/src/driver/ku_SnA.c:47-53 | the previous column of the tables, wrapping before 0, is the pattern for the previous position; which pins are then high |
| Stepper.Driver.BackwardRow | ESS_201411303_이준호_2/src/driver/ku_SnA.c:46-54 | max(step, 0) half-steps back |
| Stepper.Driver.Backward | ESS_201411303_이준호_2/src/driver/ku_SnA.c:42-56 | 512 max(round, 0) max(step, 0) half-steps downwards, and `c_step` as before |
| Stepper.Driver.MoveDegree | ESS_201411303_이준호_2/src/driver/ku_SnA.c:72-90 | a move by the angle divided by 45, truncated; direction 0 is up, 1 down, any other no move |
| Stepper.Driver.SweepUp | ESS_201411303_이준호_2/src/driver/ku_SnA.c:112-115 | the sweep up: 4096 half-steps and its eight notes |
| Stepper.Driver.SweepDown | ESS_201411303_이준호_2/src/driver/ku_SnA.c:121-124 | the sweep down |
| Stepper.Driver.Func | ESS_201411303_이준호_2/src/driver/ku_SnA.c:108-131 | `state` toggles and the motor goes to the other end |
| Stepper.Driver.SwitchIrqIsr | ESS_201411303_이준호_2/src/driver/ku_SnA.c:133-156 | a sweep if and only if the application runs |
| Stepper.Driver.KuIoctl | ESS_201411303_이준호_2/src/driver/ku_SnA.c:161-179 | RUN and END set `app_state`; any other command is refused and changes nothing |
| Stepper.Driver.Serve | ESS_201411303_이준호_2/src/driver/ku_SnA.c:133-179 | any sequence of commands and interrupts makes exactly the sweeps that found the application running |

## Left out

- CellRuns.NoUseAfterFree: covers runs up to the start of the exit routine, which frees the cell without waiting for readers (`Lab11/simple_rcu/simple_rcu.c:91-99`, `Lab11/simple_rwlock/simple_rwlock.c:88-89`); so do all claims about the cells.
- IpcLib.MsgSnd: with IPC_NOWAIT it reports SUCCESS also when its one attempt was refused, as the source does (`ESS_201411303_이준호_1/새 폴더/ku_ipc_lib.c.txt:75-94`), so in that mode only "at most one append" is stated; polling is described over finite stretches of other processes' calls, after which the call is still polling.
- IpcLib.MsgRcv: polling is described over finite stretches of other processes' calls, after which the call is still polling.
- RcuListDriver.Driver.Update: waiting for the lock and for a grace period is described over finite stretches of other threads' events, after which the call is still pending; RcuListDriver.Driver.Teardown and CellDriver.Driver.Write likewise, and CellDriver.Driver.Read with the reader/writer lock.
- Updaters that wait for the lock have no state of their own; an update is modelled from the moment it holds the lock.
- Kernel primitives (`list_add_tail_rcu`, `list_replace_rcu`, `list_del_rcu`, the RCU calls, locks) are not in this repository; they are modelled by the stores and the waiting that the Linux kernel documents for them. `synchronize_rcu` waits for the sections open when it starts.
- Memory is sequentially consistent: barriers and the orderings they give are not modelled.
- IpcKernel.Memory.Kmalloc: always succeeds, as does every other allocation, and copies between user and kernel space succeed; the error paths for them are not modelled. Sleeping in a spinlock is not modelled either.
- Each `ku_ipc_msgget` and `ku_msgclose` is one atomic step, although the driver does not lock ioctl; the races this leaves open have no stated guarantee.
- `write` is given the size stored in the message, as the library guarantees (`ESS_201411303_이준호_1/새 폴더/ku_ipc_lib.c.txt:71-74`); sizes are not negative.
- A read subtracts the size that the message had before it was freed; the source reads that field after the free (`ESS_201411303_이준호_1/새 폴더/ku_ipc.c.txt:241-243`).
- The kernel's doubly linked lists of queues and messages are sequences; of a stored message the fields `len`, `msqid` and `msgflg`, which are never read, are not kept.
- The IPC_CREAT flag, which the source never looks at, and opening and closing the device.
- Durations (`udelay`, `mdelay`), the waveform of a note, time stamps and `printk`.
- Overflow of `ONEROUND * round` for rounds beyond 2^22, which no caller makes.
- Interrupts and commands of the stepper driver are atomic; a command during a sweep would only set `app_state`, which the sweep does not read.
- Device registration, open and release, module plumbing, build files, and the single-register labs: no properties.
- `ESS_201411303_이준호_1/ku_ipc.c` and its library, whose calls and declarations disagree, and the unfinished `assign2/src` copies of the stepper driver.
