# RT-Thread 1.1: kernel objects, allocators and the finsh compiler

This project models the RT-Thread 1.1 kernel and its finsh shell and proves what they promise. Every component comes
in two layers. A specification module gives the meaning of the data and of every operation, and states what holds in
every reachable state: over any history of calls, and for the kernel objects over any interleaving of threads, timeouts
and interrupts, one step being one section with interrupts disabled. A class keeps the fields, arrays and linked nodes
of the source, updates them in place with the source's loops and branches, and is proved to do exactly what the
specification says.

- **IPC** (`src/ipc.c`): waiting lists (`IpcList`), semaphores (`SemaphoreSpec`, `Semaphore`), the mutex with priority
  inheritance (`MutexSpec`, `Mutex`), event sets (`EventSpec`, `Event`), mailboxes (`MailboxSpec`, `Mailbox`), message
  queues with their two-phase send and receive (`MessageQueueSpec`, `MessageQueue`).
- **POSIX** (`components/pthreads`): the read-write lock over conditions made of semaphores (`RwLockSpec`, `RwLock`).
- **Scheduling** (`src/scheduler.c`, `src/thread.c`, `src/timer.c`, `src/clock.c`): ready lists and their bitmap for 32
  or 256 priorities (`ReadyBitmap`, `SchedulerSpec`, `Scheduler`), hard timers in unbounded time (`TimerSpec`) and on
  wrapping 32-bit ticks (`TimerList`).
- **Memory** (`src/mem.c`, `src/memheap.c`, `src/slab.c`): runs of blocks and their headers (`Blocks`, `BlockHeaders`),
  the small heap with its bytes (`SmallHeapSpec`, `SmallHeapRuns`, `SmallHeap`), the memory heap with its linked free
  list (`MemHeapSpec`, `MemHeapRuns`, `MemHeap`), slab pages (`SlabPages`, `SlabPageList`) and slab zones on top of them
  (`SlabSpec`, `SlabRuns`, `Slab`).
- **Lists** (`include/rtservice.h`): circular doubly linked lists in arrays of links (`RtList`).
- **finsh** (`components/finsh`): trees and code (`FinshTree`, `FinshCode`), the stack machine (`FinshMachine`,
  `FinshVm`), the meaning of an expression and of its code (`FinshMeaning`, `FinshEffect`), compiler and parser on
  linked nodes (`FinshNode`, `FinshCompiler`, `FinshParser`), the grammar (`FinshGrammar`), a 32-bit machine
  (`FinshArm`), and a whole line (`FinshLine`).

Where the code does not meet a property, the project gives an input that shows it and the exact condition under which
the property holds: a nested mutex take and a semaphore release that overflow their counters, a FIFO mutex handed past a
more urgent thread, a writer whose timeout strands readers, a timer restarted by its own function or with period 0, a
shrinking realloc that hides a hole, memory-heap payloads off `RT_ALIGN_SIZE`, an operator dropped over a call, a
variable of type `void *` that is not loaded, empty statements that cost a token.

Configuration: `RT_ALIGN_SIZE` 8, 32-bit sizes and pointers, 8-bit `hold` and 16-bit semaphore `value`, 4096-byte pages.
`rt_system_heap_init` gets an area with room for one minimal block, `rt_memheap_init` one with room for two headers.
`rt_memheap_alloc` is modelled as the debug build compiles it: in a release build the statement that returns the address
of a whole block is inside a debug macro. `rt_schedule` relies on a ready idle thread; the model has one.

## Model

| member | source | states |
|---|---|---|
| IpcList.SuspendedSorted | src/ipc.c:80-127 | a priority list stays sorted, and a newcomer goes behind every thread of its own priority |
| IpcList.Suspend | src/ipc.c:80-127 | the walk over the list puts the thread where the list function says |
| MailboxSpec.StepKeepsInv | src/ipc.c:1346-1648 | every section of send, receive, timeout and reset keeps the waiting lists exact and loses no wake-up: as long as a receiver sleeps there are no more mails than resumed receivers that have not looked yet, and dually for senders and room |
| MailboxSpec.NobodySleepsInVain | src/ipc.c:1346-1608 | once every resumed thread has looked again, receivers sleep only on an empty mailbox and senders only on a full one |
| MailboxSpec.StepMovesOneMail | src/ipc.c:1346-1608 | only an accepted mail enters, at the tail; only a delivered one leaves, from the head |
| MailboxSpec.CallEnds | src/ipc.c:1346-1608 | a send is accepted exactly while there is room, a receive served exactly while there is a mail; RT_EFULL and RT_ETIMEOUT come exactly if nothing is left of the timeout; otherwise the caller is on the list; the first thread waiting for the other side is resumed and no other call touched |
| MailboxSpec.CallAgainEnds | src/ipc.c:1411-1608 | so does a resumed call with what is left of its timeout, unless it reports its failure; a negative timeout never runs down |
| MailboxSpec.SleepEnds | src/ipc.c:1411-1648 | a sleep ends with RT_ERROR exactly by a reset, with RT_ETIMEOUT exactly by its own timeout, and well exactly by a mail or by room while it is first |
| MailboxSpec.ForeverIsForever | src/ipc.c:1346-1608 | over every run, a call begun with a negative timeout ends by success or a reset, never with RT_ETIMEOUT or RT_EFULL |
| MailboxSpec.ReachableMailbox | src/ipc.c:1346-1648 | in every reachable interleaving the mailbox is the bounded FIFO of what was accepted and not yet delivered |
| Mailbox.AroundIsModulo | src/ipc.c:1432-1440 | stepping round the ring is addition modulo its size |
| Mailbox.Mailbox.InFollowsOut | src/ipc.c:1432-1440 | in_offset == (out_offset + entry) % size in every valid mailbox |
| Mailbox.Mailbox.constructor | src/ipc.c:1199-1224 | an empty mailbox |
| Mailbox.Mailbox.Send | src/ipc.c:1346-1460 | the first section of rt_mb_send_wait is a step of the specification |
| Mailbox.Mailbox.SendAgain | src/ipc.c:1411-1460 | a resumed sender looks again with what is left of its timeout, or reports its failure |
| Mailbox.Mailbox.Recv | src/ipc.c:1487-1608 | the first section of rt_mb_recv is a step of the specification |
| Mailbox.Mailbox.RecvAgain | src/ipc.c:1554-1608 | a resumed receiver looks again with what is left of its timeout, or reports its failure |
| Mailbox.Mailbox.Expire | src/thread.c:607-628 | a timed-out thread leaves its list with RT_ETIMEOUT |
| Mailbox.Mailbox.Reset | src/ipc.c:1618-1648 | all waiting threads fail, the ring is empty |
| MessageQueueSpec.StepKeepsInv | src/ipc.c:1848-2192 | every section of send, urgent send, receive, timeout and reset keeps each node in exactly one of queue, free list and in-flight calls, with its message intact |
| MessageQueueSpec.StepIsDeque | src/ipc.c:1848-2138 | a send appends, an urgent send prepends, a receive takes the head; nothing else but a reset moves messages |
| MessageQueueSpec.ReceivedIsWhatWasSent | src/ipc.c:2106-2132 | what a receive copies out is the message its node was sent with, whatever happened in between |
| MessageQueueSpec.SendBeginsExactly | src/ipc.c:1858-1880 | a send is refused as an error exactly if its message is too long, as full exactly if every node is queued or in flight, and has a free node otherwise |
| MessageQueueSpec.SendEndsWell | src/ipc.c:1887-1926 | the second section always succeeds, and resumes the first sleeping receiver and nobody else |
| MessageQueueSpec.RecvEndsExactly | src/ipc.c:2018-2120 | a receive has the first message exactly if there is one, is refused with RT_ETIMEOUT exactly if nothing is left of its timeout, and sleeps otherwise |
| MessageQueueSpec.RecvAgainEndsExactly | src/ipc.c:2087-2120 | so does a resumed receiver with what is left, unless it reports its failure |
| MessageQueueSpec.SleepEnds | src/ipc.c:2087-2192 | what ends a sleep, and how |
| MessageQueueSpec.GivenBackIsNext | src/ipc.c:2125-2138 | the node a receive gives back is the next one a send gets |
| MessageQueueSpec.ResetReversesNodes | src/ipc.c:2148-2192 | a reset puts the queued nodes on the free list one after the other, the last one first |
| MessageQueueSpec.ForeverIsForever | src/ipc.c:2018-2138 | over every run, a receive begun with a negative timeout never ends with RT_ETIMEOUT |
| MessageQueueSpec.NobodySleepsInVain | src/ipc.c:2018-2138 | once every resumed receiver has looked again, receivers sleep only on an empty queue |
| MessageQueueSpec.ReachableQueue | src/ipc.c:1848-2192 | in every reachable interleaving nodes are partitioned and counted, messages are conserved, and without urgent sends they keep their order |
| MessageQueue.PoolIsCut | src/ipc.c:1684-1694 | the pool is cut into as many nodes, rounded up to 8 bytes, with their links as fit |
| MessageQueue.MessageQueue.constructor | src/ipc.c:1670-1713 | the pool cut into nodes, all on the free list |
| MessageQueue.MessageQueue.SendBegin | src/ipc.c:1858-1880 | a free node is taken, or the send refused as full or too long |
| MessageQueue.MessageQueue.Fill | src/ipc.c:1882-1885 | the message is copied into a node that belongs to the sender alone |
| MessageQueue.MessageQueue.SendEnd | src/ipc.c:1887-1926 | the node is linked at the tail, or for an urgent send at the head, and one receiver resumed |
| MessageQueue.MessageQueue.Recv | src/ipc.c:2018-2120 | the first section of rt_mq_recv is a step of the specification |
| MessageQueue.MessageQueue.RecvAgain | src/ipc.c:2087-2120 | a resumed receiver looks again, or reports its failure |
| MessageQueue.MessageQueue.Drain | src/ipc.c:2122-2123 | min(size, msg_size) bytes are copied out of a node that belongs to the receiver alone |
| MessageQueue.MessageQueue.RecvEnd | src/ipc.c:2125-2138 | the node goes back on the free list |
| MessageQueue.MessageQueue.Expire | src/thread.c:607-628 | a timed-out receiver leaves the list |
| MessageQueue.MessageQueue.Reset | src/ipc.c:2148-2192 | receivers fail, queued nodes return to the free list, in-flight ones stay with their calls |
| SemaphoreSpec.StepKeepsInv | src/ipc.c:308-484 | the list names exactly the waiting threads, and nobody waits for a semaphore with a positive value |
| SemaphoreSpec.TakeEndsExactly | src/ipc.c:308-387 | a take is granted exactly while the value is positive, refused exactly if it is 0 and the caller does not wait, and waits otherwise |
| SemaphoreSpec.ReleaseEndsExactly | src/ipc.c:409-444 | a release goes to the first waiting thread, or else into the value |
| SemaphoreSpec.ReturnEndsExactly | src/ipc.c:372-387 | a suspended take returns RT_EOK exactly if it was handed a release |
| SemaphoreSpec.SleepEnds | src/ipc.c:308-484 | what ends a sleep, and how |
| SemaphoreSpec.ResetEndsExactly | src/ipc.c:454-483 | a reset empties the list and sets the value, cut to 16 bits |
| SemaphoreSpec.ForeverIsForever | src/ipc.c:308-387 | over every run, a take that waits forever never returns RT_ETIMEOUT |
| SemaphoreSpec.RecordKeepsExactly | src/ipc.c:308-442 | initial value plus releases equals value plus granted takes (hand-overs included) after a step exactly when the step does not overflow the 16-bit value |
| SemaphoreSpec.ReachableSemaphore | src/ipc.c:308-442 | the same over every run: no release is lost or granted twice |
| SemaphoreSpec.OverflowLosesRelease | src/ipc.c:409-444 | a semaphore created with value 65535: one release and the account no longer holds |
| SemaphoreSpec.BroadcastWakesAll | components/pthreads/pthread_cond.c:89-120 | run without a break, the loop ends with every waiting thread woken, in order, the queue empty, and one release left over if there was none |
| SemaphoreSpec.InterruptedBroadcast | components/pthreads/pthread_cond.c:89-120 | with timeouts between its turns the loop ends after at most 2 * waiters + 4 turns, nobody waits then, and semaphore and woken threads are what they would be had the timeouts come first and the whole loop after them |
| Semaphore.Semaphore.TryTake | src/ipc.c:308-330 | a take without waiting |
| Semaphore.Semaphore.Release | src/ipc.c:409-444 | the first waiting thread is resumed, or else the 16-bit value counts up |
| Semaphore.Semaphore.Broadcast | components/pthreads/pthread_cond.c:89-120 | the loop itself, which ends with everybody woken |
| Semaphore.Semaphore.BroadcastTurn | components/pthreads/pthread_cond.c:96-117 | one turn of the loop, after which a timeout may come |
| Semaphore.Takers.Take | src/ipc.c:308-387 | rt_sem_take up to its suspension |
| Semaphore.Takers.TakeReturn | src/ipc.c:372-387 | rt_sem_take from where a suspended thread runs again |
| Semaphore.Takers.Release | src/ipc.c:409-444 | rt_sem_release is a step of the specification |
| Semaphore.Takers.Expire | src/thread.c:607-628 | a timed-out thread leaves the list |
| Semaphore.Takers.Reset | src/ipc.c:454-483 | all waiting threads fail, the value is set and cut to 16 bits |
| MutexSpec.StepKeepsInvExactly | src/ipc.c:615-819 | a step keeps the mutex sound (free with value 1, or owned with value 0; waiters in order; only the owner's priority changed, and to that of the most urgent thread that has asked) exactly when it is not the 256th nested take, which wraps the 8-bit hold |
| MutexSpec.StepKeepsCoveredExactly | src/ipc.c:615-819 | nobody more urgent than the owner waits, after a step, exactly when the step does not hand the mutex past a more urgent waiter |
| MutexSpec.PriorityNeverInverts | src/ipc.c:782-797 | with RT_IPC_FLAG_PRIO that hand-over never happens |
| MutexSpec.ReleaseRestores | src/ipc.c:775-780 | the last release gives the owner the priority it had when it got the mutex |
| MutexSpec.HandsOverToFirst | src/ipc.c:782-797 | the mutex goes to the waiter that is before all others: by priority, among equals by arrival |
| MutexSpec.TakeEndsExactly | src/ipc.c:615-705 | a take is granted exactly if the mutex is free or the caller's own, refused exactly if it is another's and the caller does not wait, and waits otherwise |
| MutexSpec.GrantedTake | src/ipc.c:639-665 | a granted take counts up the hold in 8 bits and changes nothing of the others |
| MutexSpec.BlockedTake | src/ipc.c:670-700 | a waiting one gives the owner the caller's priority exactly if that is more urgent |
| MutexSpec.ReleaseEndsExactly | src/ipc.c:739-819 | a release is refused exactly if the caller is not the owner; the last one hands over to the first waiting thread or frees; any other counts down |
| MutexSpec.ReturnEndsExactly | src/ipc.c:705-729 | a suspended take returns RT_EOK exactly if the mutex was handed to it |
| MutexSpec.SleepEnds | src/ipc.c:705-819 | what ends a sleep, and how |
| MutexSpec.ForeverIsForever | src/ipc.c:615-729 | over every run, a take that waits forever never returns RT_ETIMEOUT |
| MutexSpec.ReachableMutex | src/ipc.c:615-819 | over every run without 256 nested takes: at most one thread has unreleased takes and it is the owner; priorities are what inheritance says; with the priority flag nobody more urgent waits |
| MutexSpec.FifoInverts | src/ipc.c:782-797 | a run that shows the condition is needed: a FIFO mutex handed to a thread less urgent than one that keeps waiting |
| MutexSpec.WrappedHold | src/ipc.c:639-643 | the wrapped hold count keeps the next release from freeing the mutex |
| MutexSpec.WrapIsReachable | src/ipc.c:639-643 | 255 takes by one thread lead any mutex to where the next take wraps the hold |
| Mutex.Mutex.constructor | src/ipc.c:498-520 | a free mutex |
| Mutex.Mutex.Take | src/ipc.c:615-705 | rt_mutex_take up to where it returns or suspends, with the boost of the owner |
| Mutex.Mutex.TakeReturn | src/ipc.c:705-729 | a take that succeeds after waiting returns to the owner |
| Mutex.Mutex.Release | src/ipc.c:739-819 | rt_mutex_release is a step of the specification |
| Mutex.Mutex.Expire | src/thread.c:607-628 | a timed-out waiter leaves the list; the owner keeps the priority it was given |
| EventSpec.StepKeepsInv | src/ipc.c:958-1184 | after every send, receive, timeout or reset no thread on the list has its AND or OR condition fulfilled |
| EventSpec.ScanStrandsNobody | src/ipc.c:979-1025 | the walk that resumes threads and clears bits as it goes strands nobody, and gives each resumed thread what it asked for |
| EventSpec.ReceivedIsProper | src/ipc.c:1052-1146 | a successful receive gets all its bits with the AND flag, some of them with OR |
| EventSpec.HoldsByFlags | src/ipc.c:990-1008 | AND asks for all bits, OR without AND for one, neither flag for what never comes |
| EventSpec.RecvEndsExactly | src/ipc.c:1052-1130 | a receive succeeds at once exactly if its bits are there by its flags, is refused exactly if they are not and it does not wait, and waits otherwise; what it gets and what it leaves |
| EventSpec.ReturnEndsExactly | src/ipc.c:1110-1146 | a resumed receiver returns what it was given, or its failure |
| EventSpec.SleepEnds | src/ipc.c:958-1185 | what ends a sleep, and how |
| EventSpec.ResetEndsExactly | src/ipc.c:1157-1185 | a reset clears all bits and the list |
| EventSpec.WalkServesInOrder | src/ipc.c:980-1027 | whether the k-th receiver is resumed, and what it gets, is decided by the bits its predecessors with the CLEAR flag have left |
| EventSpec.WalkLeaves | src/ipc.c:980-1027 | and what all of them have left is the set behind the walk |
| EventSpec.SendServesInOrder | src/ipc.c:958-1037 | the same for a send, which is refused exactly if it raises no bit |
| EventSpec.ScanWithoutClear | src/ipc.c:979-1025 | without the CLEAR flag a send resumes exactly the threads whose bits are then there: all of them with AND, one of them with OR |
| EventSpec.TakersExactly | src/ipc.c:1013-1025 | a bit that disappears in a walk was taken by exactly one CLEAR receiver |
| EventSpec.ReachableEvent | src/ipc.c:958-1184 | over every run, of every waiting AND receiver a bit is missing and of every waiting OR receiver all are, and each raise of a bit was taken by exactly one CLEAR receiver or is still there |
| Event.Event.Send | src/ipc.c:958-1034 | rt_event_send, with the walk that removes nodes from the list it goes through |
| Event.Event.Recv | src/ipc.c:1052-1124 | rt_event_recv up to where it returns or suspends |
| Event.Event.RecvReturn | src/ipc.c:1123-1146 | rt_event_recv from where a suspended thread runs again |
| Event.Event.Expire | src/thread.c:607-628 | a timed-out thread leaves the list |
| Event.Event.Reset | src/ipc.c:1157-1184 | all waiting threads fail, all bits are cleared |
| RwLockSpec.StepKeepsInv | components/pthreads/pthread_rwlock.c:95-265 | every step keeps rw_refcount and both waiting counts equal to the numbers of threads they stand for |
| RwLockSpec.StepDesertsExactly | components/pthreads/pthread_rwlock.c:95-265 | a step leaves waiting readers behind for good exactly when the last waiting writer gives up, its time being over, while nobody is inside and they wait only for it; it leaves waiting writers behind exactly when a wake-up overflows the 16-bit semaphore of their condition |
| RwLockSpec.WritersFirst | components/pthreads/pthread_rwlock.c:95-210 | a reader gets in only while no writer waits, a writer only while nobody is inside |
| RwLockSpec.LockEndsExactly | components/pthreads/pthread_rwlock.c:95-262 | a reader goes in exactly if no writer is inside or waits, a writer exactly if nobody is inside; otherwise they wait |
| RwLockSpec.TryLockEndsExactly | components/pthreads/pthread_rwlock.c:122-210 | so with trying, which is refused otherwise |
| RwLockSpec.AgainEndsExactly | components/pthreads/pthread_rwlock.c:95-262 | so with a thread that is back from its wait; one whose time is up goes away |
| RwLockSpec.SemTakeEndsExactly | components/pthreads/pthread_cond.c:131-179 | the wait takes a wake-up exactly if there is one |
| RwLockSpec.ExpireEndsExactly | src/thread.c:607-628 | a timeout takes exactly one thread off its list |
| RwLockSpec.UnlockEndsExactly | components/pthreads/pthread_rwlock.c:212-240 | an unlock wakes the first sleeping writer if writers wait and nobody is left inside, all sleeping readers if no writer waits, and nobody otherwise |
| RwLockSpec.UnlockLeavesWriters | components/pthreads/pthread_rwlock.c:227-232 | a wake-up nobody sleeps for stays in the writers' semaphore |
| RwLockSpec.UnlockLeavesReaders | components/pthreads/pthread_rwlock.c:233-236 | the readers' semaphore changes exactly if readers wait and no writer does |
| RwLockSpec.ReachableLock | components/pthreads/pthread_rwlock.c:95-265 | over every run: -1 with one writer and no reader, or n with n readers and no writer; counts right; nobody left behind unless a step did that |
| RwLockSpec.CrossingIsReachable | components/pthreads/pthread_rwlock.c:141-191 | a run up to the point where a late writer and a sleeping reader cross |
| RwLockSpec.ReaderIsStranded | components/pthreads/pthread_rwlock.c:168-240 | from there the writer's timeout leaves the reader asleep with nobody inside |
| RwLockSpec.OverflowIsReachable | components/pthreads/pthread_rwlock.c:212-240 | a run of 65535 wake-ups for a writer on its way to sleep, from where the next unlock leaves it behind |
| RwLockSpec.InterruptedUnlock | components/pthreads/pthread_rwlock.c:212-240 | an unlock whose broadcast is interrupted by timeouts leads where the timeouts followed by an unlock in one piece lead |
| RwLock.RwLock.RdLock | components/pthreads/pthread_rwlock.c:95-166 | rdlock and timedrdlock up to where they return or wait |
| RwLock.RwLock.WrLock | components/pthreads/pthread_rwlock.c:168-265 | wrlock and timedwrlock up to where they return or wait |
| RwLock.RwLock.TryRdLock | components/pthreads/pthread_rwlock.c:122-139 | tryrdlock |
| RwLock.RwLock.TryWrLock | components/pthreads/pthread_rwlock.c:193-210 | trywrlock |
| RwLock.RwLock.SemTake | components/pthreads/pthread_cond.c:135-154 | the wait on the condition's semaphore, after rw_mutex has been let go |
| RwLock.RwLock.Expire | src/thread.c:607-628 | the timeout of a timed wait |
| RwLock.RwLock.Again | components/pthreads/pthread_rwlock.c:106-119 | what a thread does with rw_mutex taken again: count itself out, then enter, wait on or give up |
| RwLock.RwLock.Unlock | components/pthreads/pthread_rwlock.c:212-240 | unlock, with its preference for waiting writers |
| RtList.RingInsert | include/rtservice.h:49-57 | inserting a node behind another keeps the ring doubly linked, with one entry more at that place |
| RtList.RingRemove | include/rtservice.h:77-83 | removing a node keeps the ring, without that entry |
| RtList.Lists.InsertAfter | include/rtservice.h:49-57 | rt_list_insert_after |
| RtList.Lists.InsertBefore | include/rtservice.h:64-72 | rt_list_insert_before |
| RtList.Lists.Remove | include/rtservice.h:77-83 | rt_list_remove, which leaves the node linked to itself |
| RtList.Lists.IsEmpty | include/rtservice.h:89-92 | rt_list_isempty |
| SmallHeapSpec.FitIsFirst | src/mem.c:261-270 | the scan finds the first block that fits, and nothing only if none does |
| SmallHeapSpec.AllocatedKeepsInv | src/mem.c:268-334 | handing out a block keeps the tiling, the accounting and lfree |
| SmallHeapSpec.FreedKeepsInv | src/mem.c:482-534 | so does freeing a live pointer; no two neighbours stay unused |
| SmallHeapSpec.ShrunkKeepsInv | src/mem.c:408-432 | so does cutting a block in place |
| SmallHeapSpec.ShrunkLfree | src/mem.c:408-432 | after a cut lfree is the lowest unused block exactly when it lay below the block or the rest merges with an unused one |
| SmallHeapRuns.MallocIsFirstFit | src/mem.c:229-351 | while lfree is the lowest unused block, malloc takes the first block of the whole heap that serves the request, and fails exactly when none does |
| SmallHeapRuns.MallocRefuses | src/mem.c:236-252 | empty and oversized requests are refused |
| SmallHeapRuns.WantedIsLeast | src/mem.c:245-256 | the size looked for is the least multiple of 8 that is neither below the request nor below 16 |
| SmallHeapRuns.MallocFailsExactly | src/mem.c:229-352 | wherever lfree is, malloc takes the first block from there on that would do, and fails exactly if the request is empty or too large or there is none |
| SmallHeapRuns.MallocHandsOut | src/mem.c:266-320 | it hands out exactly the size looked for if the rest has room for a header and 16 bytes, and the whole block otherwise |
| SmallHeapRuns.MallocAddsOne | src/mem.c:229-351 | a successful malloc adds one live payload of the size asked for or more and disturbs no other |
| SmallHeapRuns.LivePayloadsDisjoint | src/mem.c:229-534 | live payloads lie inside the heap and neither overlap nor reach into headers |
| SmallHeapRuns.FreeUndoesMalloc | src/mem.c:482-534 | freeing what was just allocated restores blocks, lfree and used_mem |
| SmallHeapRuns.FreedTakesOne | src/mem.c:482-535 | a free ends exactly one live payload |
| SmallHeapRuns.ReallocLfree | src/mem.c:363-450 | a realloc keeps lfree the lowest unused block exactly when it does not cut a block with everything used in front and behind |
| SmallHeapRuns.ReallocMovesOne | src/mem.c:363-450 | a realloc moves or resizes one payload and keeps the others; one that fails changes nothing |
| SmallHeapRuns.ReallocOfOthers | src/mem.c:363-395 | a realloc of NULL allocates exactly where a malloc would, a foreign address comes back as it is, too large a size is refused |
| SmallHeapRuns.ReallocEndsExactly | src/mem.c:363-447 | a realloc of a live payload leaves it in place exactly if it has the size or more than 28 bytes too many, and then gives it exactly the size; it fails exactly if that is more than the heap or no other block would do |
| SmallHeapRuns.MaxIsHighWater | src/mem.c:300-318 | max_mem is the running maximum of used_mem, the moment between malloc and free inside a moving realloc included |
| SmallHeapRuns.ReachableHeap | src/mem.c:124-534 | after any history on live pointers: blocks tile the heap, no two neighbours are unused, lfree is legal, the statistics are exact, and lfree is lowest if no realloc hid a hole |
| SmallHeapRuns.CrowdedIsReachable | src/mem.c:229-351 | two mallocs lead to the heap of the next row |
| SmallHeapRuns.HiddenHole | src/mem.c:408-432 | there a shrinking realloc leaves a hole that malloc no longer finds |
| SmallHeapRuns.PayloadsAligned | src/mem.c:168-247 | whatever address range the heap is given, after any history every payload starts on a multiple of RT_ALIGN_SIZE |
| SmallHeap.SmallHeap.constructor | src/mem.c:168-216 | one unused block between the aligned ends |
| SmallHeap.SmallHeap.PlugHoles | src/mem.c:124-166 | merging forward and backward, on the header arrays and the bytes under them |
| SmallHeap.SmallHeap.Malloc | src/mem.c:229-351 | malloc on the header arrays is that of the specification, and keeps the bytes of every live payload |
| SmallHeap.SmallHeap.Free | src/mem.c:482-534 | free likewise; only the payload given back loses its bytes |
| SmallHeap.SmallHeap.Realloc | src/mem.c:363-450 | realloc likewise, and the payload keeps its first min(old, new) bytes |
| MemHeapSpec.AllocatedKeepsInv | src/memheap.c:115-219 | an allocation keeps the ring of blocks, the free list and available_size in step |
| MemHeapSpec.FreedKeepsInv | src/memheap.c:226-302 | so does a free, with its merging to both sides |
| MemHeapRuns.AllocatedRefuses | src/memheap.c:129-150 | an allocation fails exactly when the request is not below available_size or no listed block has room |
| MemHeapRuns.AllocatedAddsOne | src/memheap.c:115-219 | a successful one adds one live payload with room for the request and leaves the others as they are |
| MemHeapRuns.WantedIsLeast | src/memheap.c:122-125 | the size looked for is rounded up to 8, but at least 12 |
| MemHeapRuns.AllocatedHandsOut | src/memheap.c:127-214 | the first listed block with room is taken: its front if the rest has room for a header and 12 bytes, which goes first on the list, or all of it |
| MemHeapRuns.FreedTakesOne | src/memheap.c:226-302 | a free ends exactly one live payload |
| MemHeapRuns.FreedListsExactly | src/memheap.c:226-300 | a free block that follows leaves the list, and the block goes first on it unless it is joined to a free one in front |
| MemHeapRuns.LivePayloadsDisjoint | src/memheap.c:115-302 | live payloads lie inside the pool and neither overlap nor reach into headers |
| MemHeapRuns.FreeUndoesAlloc | src/memheap.c:115-302 | freeing what was just allocated gives back the same blocks, the same total and the same free-list entries |
| MemHeapRuns.ReachableHeap | src/memheap.c:40-302 | after any history: blocks tile the pool, no two neighbours are free, the free list holds exactly the free blocks, available_size is their payload |
| MemHeapRuns.AllocatedGrainExactly | src/memheap.c:122-125 | an allocation keeps all headers on a grain of 4 or 8 bytes exactly when it fails, takes a whole block, or looks for a size on the grain; for 8 that means more than 8 bytes asked for |
| MemHeapRuns.PayloadsOnWords | src/memheap.c:122-125 | after any history payloads start on whole words |
| MemHeapRuns.PayloadsAligned | src/memheap.c:122-125 | and on multiples of 8 if every request was for more than 8 bytes |
| MemHeapRuns.SecondPayloadMisaligned | src/memheap.c:122-125 | a smaller request makes the next payload start off RT_ALIGN_SIZE |
| MemHeap.MemHeap.constructor | src/memheap.c:40-104 | one free block and the tailer, closed to a ring |
| MemHeap.MemHeap.Find | src/memheap.c:132-148 | the walk along the free list |
| MemHeap.MemHeap.Alloc | src/memheap.c:115-219 | rt_memheap_alloc on the header arrays and the linked free list |
| MemHeap.MemHeap.Free | src/memheap.c:226-302 | rt_memheap_free likewise |
| SlabPages.Determined | src/slab.c:235-321 | the list of runs is determined by the set of free pages |
| SlabPages.AllocIsLowest | src/slab.c:235-269 | rt_page_alloc returns the lowest page from which n pages are free, and nothing only if there is none |
| SlabPages.AllocTakes | src/slab.c:235-269 | exactly the n pages handed out stop being free |
| SlabPages.FreedAdds | src/slab.c:271-321 | exactly the pages given back become free |
| SlabPages.FreedKeeps | src/slab.c:271-321 | the list stays sorted, without empty or touching runs |
| SlabPages.FreeUndoesAlloc | src/slab.c:235-321 | giving back what was just handed out restores the very same list |
| SlabPages.FreesCommute | src/slab.c:271-321 | the order in which pages are given back does not matter |
| SlabPages.ReachablePages | src/slab.c:235-333 | over every history the list is canonical and pages are conserved; once nothing is in use it is the initial list again |
| SlabPageList.PageList.AllocPages | src/slab.c:235-269 | rt_page_alloc on the headers kept in the pages, edited through the link that led to a run |
| SlabPageList.PageList.FreePages | src/slab.c:271-321 | rt_page_free likewise; its assertion about neighbours holds |
| SlabSpec.ZoneIndexFits | src/slab.c:400-453 | zoneindex is below 72, its chunk size is a function of the index, fits the request, and wastes less than an eighth of it (or less than 8 bytes) |
| SlabSpec.LimitIsQuarter | src/slab.c:374-382 | chunks come up to a quarter of a zone, but at most 16 KB |
| SlabSpec.ZoneHolds | src/slab.c:625-643 | a zone has room for at least two chunks behind its header |
| SlabSpec.ZoneIsFilled | src/slab.c:620-636 | chunks whose size is a power of two are aligned to it, and no zone has room for one more |
| SlabRuns.MallocAddsOne | src/slab.c:475-668 | a malloc that succeeds adds one live block of the size asked for or more and disturbs no other; one that fails changes nothing |
| SlabRuns.MallocFailsExactly | src/slab.c:475-668 | it fails exactly if nothing is asked for, or a large block and no run of so many pages is free, or a chunk and no zone in use offers one of its size, none is spare, and no run of a zone's pages is free |
| SlabRuns.LargeIsLowest | src/slab.c:495-525 | a large block is the lowest run of just as many pages as it needs |
| SlabRuns.ChunkComesFrom | src/slab.c:527-660 | a chunk comes from a zone in use if one offers it, never-used ones first and then the one given back last; or starts a spare zone; or a zone on the lowest pages that will do, filled with as many chunks as fit |
| SlabRuns.ChunkFromFirst | src/slab.c:541-580 | of several zones the first on the list |
| SlabRuns.FreedTakesOne | src/slab.c:777-912 | a free ends exactly one live block, whichever zone is retired or released by it |
| SlabRuns.FreeGivesBackExactly | src/slab.c:777-912 | pages go back exactly for a large block, and for a zone without live chunks while another offers its size and two are spare already; before that the zone becomes spare |
| SlabRuns.AllFree | src/slab.c:861-880 | a zone whose free count equals its size has no live chunk |
| SlabRuns.LiveBlocksApart | src/slab.c:475-668 | no two live blocks overlap: chunks of one zone, of different zones, or large |
| SlabRuns.ReachableSlab | src/slab.c:475-912 | over every history: z_nfree is right in every zone, zone_array[i] holds exactly the index-i zones with a free chunk that are not in zone_free, live blocks lie in the heap and apart, every page is free or handed out |
| Slab.Slab.Malloc | src/slab.c:475-668 | rt_malloc with memusage, zone headers, zone_array and zone_free, and the address it returns |
| Slab.Slab.Free | src/slab.c:777-912 | rt_free: what the block is follows from its address through memusage |
| Slab.Slab.MarkZone | src/slab.c:612-619 | every page of a zone is marked with its offset |
| TimerSpec.StepKeepsInv | src/timer.c:221-430 | every step keeps the list sorted by time left, free of repetitions, in step with the flags, and within half the range of a tick |
| TimerSpec.FiredKeepsExactly | src/timer.c:394-421 | firing a timer keeps list and flags in step exactly when its function does not leave it stopped and started again |
| TimerSpec.RestartBreaks | src/timer.c:404-441 | a started timer of one tick whose function stops and starts it again: listed twice if it is periodic, listed but marked as stopped if not |
| TimerSpec.CheckKeeps | src/timer.c:373-430 | the check ends with nothing overdue |
| TimerSpec.QuietTurnStands | src/timer.c:388-424 | a turn of the check for a timer due now, whose function does nothing, changes nothing (so that the check never ends) exactly when the timer is periodic with period 0 |
| TimerSpec.StartedFires | src/timer.c:221-430 | a timer started at T for k ticks and not stopped fires in the check at T + k (T + 1 for k = 0) and in no earlier one |
| TimerSpec.FiresOnBeat | src/timer.c:409-416 | a periodic timer that is left alone fires at exactly the ticks due, due + period, due + 2 * period and so on |
| TimerSpec.FiresOnce | src/timer.c:373-433 | a one-shot timer that is left alone fires exactly once, at the tick it is due |
| TimerSpec.StoppedIsSilent | src/timer.c:303-327 | a stopped timer does not fire until it is started again |
| TimerSpec.StartPlaces | src/timer.c:221-295 | a start puts the timer behind those due earlier and in front of those due at its tick or later, so that of two due together the one started last fires first; a running timer is left alone |
| TimerSpec.StopTakesOff | src/timer.c:303-327 | a stop takes exactly this timer off the list |
| TimerSpec.ControlSetsExactly | src/timer.c:339-365 | the control commands change one setting of one timer, and no due time |
| TimerList.ReachedIsRight | src/timer.c:258-263 | the comparison of wrapped 32-bit ticks is right as long as two ticks lie within half the range |
| TimerList.TimerList.Start | src/timer.c:221-291 | rt_timer_start on wrapped ticks is that on unbounded ones |
| TimerList.TimerList.Stop | src/timer.c:303-324 | rt_timer_stop |
| TimerList.TimerList.SetTime | src/timer.c:339-365 | a new time leaves a running timer where it is |
| TimerList.TimerList.SetPeriodic | src/timer.c:339-365 | one-shot or periodic from now on |
| TimerList.TimerList.Check | src/timer.c:373-430 | rt_timer_check on wrapped ticks ends, and is that on unbounded ones |
| TimerList.TimerList.Tick | src/clock.c:73-95 | one tick and its check |
| ReadyBitmap.MarkSets | src/scheduler.c:324-337 | marking sets exactly one priority, in one level or two |
| ReadyBitmap.UnmarkClears | src/scheduler.c:368-380 | unmarking clears exactly one |
| ReadyBitmap.LowestBitmapIsGood | src/scheduler.c:51-69 | rt_lowest_bitmap gives the lowest bit of every byte but 0 |
| ReadyBitmap.LowestIsLeast | src/scheduler.c:227-256 | the lookup over bytes finds the most urgent marked priority |
| SchedulerSpec.StepKeepsInv | src/scheduler.c:216-383 | every call keeps thread states, ready lists and bitmap in agreement |
| SchedulerSpec.MostUrgentRuns | src/scheduler.c:216-300 | an unlocked rt_schedule makes a ready thread run that is the first of its list and than which none is more urgent |
| SchedulerSpec.MostUrgentRunsBehind | src/scheduler.c:216-300 | so does it behind every call that ends in it: start, timeout, yield, and the exit that unlocks |
| SchedulerSpec.StepSetsExactly | src/thread.c:181-628 | each call sets the states, priorities and lock depth it is for, and no others |
| SchedulerSpec.RunsOn | src/scheduler.c:216-300 | no other call changes the running thread, nor any while the scheduler is locked |
| SchedulerSpec.BecomesLast | src/scheduler.c:309-340 | a thread that becomes ready stands behind all of its priority that were |
| SchedulerSpec.MovedIsLast | src/thread.c:455-496 | so does a ready thread whose priority is changed |
| SchedulerSpec.LongerReadyStandsInFront | src/scheduler.c:309-340 | over every run, of two ready threads of one priority the one ready longer stands in front, as long as neither leaves its list nor yields |
| SchedulerSpec.PreemptedExactly | src/scheduler.c:216-340 | a thread that becomes ready takes the processor exactly if it is more urgent than the one running by right |
| SchedulerSpec.YieldTurns | src/thread.c:348-382 | a yield turns the list by one and runs the next thread of it |
| SchedulerSpec.RoundRobin | src/thread.c:348-382 | threads of one priority take turns |
| SchedulerSpec.ReachableScheduler | src/scheduler.c:216-383 | over every run, for 32 priorities or 256: a thread is ready exactly if it is on the list of its priority, once; a bit is set exactly if its list is not empty |
| Scheduler.Scheduler.constructor | src/scheduler.c:126-152 | empty lists |
| Scheduler.Scheduler.InsertThread | src/scheduler.c:309-340 | rt_schedule_insert_thread |
| Scheduler.Scheduler.RemoveThread | src/scheduler.c:349-383 | rt_schedule_remove_thread |
| Scheduler.Scheduler.Schedule | src/scheduler.c:216-300 | rt_schedule, with the most urgent ready thread current if it is not locked |
| Scheduler.Scheduler.Startup | src/thread.c:181-213 | rt_thread_startup |
| Scheduler.Scheduler.Resume | src/thread.c:562-597 | rt_thread_resume |
| Scheduler.Scheduler.SuspendThread | src/thread.c:524-552 | rt_thread_suspend |
| Scheduler.Scheduler.Timeout | src/thread.c:607-628 | rt_thread_timeout |
| Scheduler.Scheduler.Yield | src/thread.c:348-382 | rt_thread_yield |
| Scheduler.Scheduler.ChangePriority | src/thread.c:455-497 | a ready thread moves to the list of its new priority |
| Scheduler.Scheduler.CloseThread | src/thread.c:35-71 | an ended thread is on no ready list |
| Scheduler.Scheduler.EnterCritical | src/scheduler.c:388-400 | rt_enter_critical |
| Scheduler.Scheduler.ExitCritical | src/scheduler.c:406-427 | rt_exit_critical schedules when the last lock goes |
| FinshCode.EmittedCode | components/finsh/finsh_compiler.c:28-883 | type checking and compiling the tree of an expression emits the code defined on the expression |
| FinshCode.EmittedProgram | components/finsh/finsh_compiler.c:885-918 | and for a list of statements, with a pop between two |
| FinshMachine.RunExecutes | components/finsh/finsh_vm.c:32-59 | running the bytes of a program is executing its instructions |
| FinshMachine.RunSegment | components/finsh/finsh_vm.c:32-59 | and the rest of the text segment, filled with no-ops, changes nothing |
| FinshEffect.CodeHasEffect | components/finsh/finsh_compiler.c:28-739 | the code of any expression whose operators find their operands has exactly the effect described, names that are not loaded and operators that are not compiled included |
| FinshEffect.LoadedIsFed | components/finsh/finsh_compiler.c:28-739 | operators find their operands wherever every name is loaded |
| FinshMeaning.PartsMeanExactly | components/finsh/finsh_compiler.c:28-883 | on any host and memory the code of every part means what the part means exactly when every width that matters is there |
| FinshMeaning.TypedExactlyWhenPartsMean | components/finsh/finsh_compiler.c:741-883 | code and meaning of all parts agree on every host and memory exactly when the expression is typed: every name is loaded, and every operand that decides a width has one |
| FinshMeaning.TypedExactlyOnLawfulHosts | components/finsh/finsh_compiler.c:741-883 | the same over the hosts that read back what was stored, for expressions that store nothing: an untyped one fails on the ARM already |
| FinshMeaning.StoreHidesMissingWidth | components/finsh/finsh_compiler.c:293-353 | with a store the converse needs more: (*a = a) + *f with f at a is right on all those hosts |
| FinshMeaning.VoidPointerUnderflows | components/finsh/finsh_compiler.c:91-115 | p = n for p of type void *: p has a width but is not loaded, and the store finds one word on the stack |
| FinshMeaning.BinaryMeans | components/finsh/finsh_compiler.c:202-268 | a two-operand operator over operands that mean themselves is compiled exactly when the left one has a width |
| FinshMeaning.SetMeans | components/finsh/finsh_compiler.c:293-353 | an assignment exactly when its target has one |
| FinshMeaning.UnaryMeans | components/finsh/finsh_compiler.c:726-728 | unary minus and plus and & are always compiled |
| FinshMeaning.ComplementMeans | components/finsh/finsh_compiler.c:251-256 | ~ over an operand without width is dropped, and then does not mean itself |
| FinshMeaning.DerefMeans | components/finsh/finsh_compiler.c:700-724 | so is *, which then means itself only if it loads its own address |
| FinshMeaning.CallOnTheLeftLosesOperator | components/finsh/finsh_compiler.c:773-777 | f() + n leaves both operands |
| FinshMeaning.CallBelowLosesOperator | components/finsh/finsh_compiler.c:773-777 | ~f() and *f() are compiled as f() |
| FinshMeaning.RisesByOneExactlyWhenWhole | components/finsh/finsh_compiler.c:28-739 | the code of an expression whose names are loaded raises the stack by one exactly when no two-operand operator is dropped |
| FinshMeaning.UnloadedNameHidesLoss | components/finsh/finsh_compiler.c:91-115 | f() + p with p of type void * leaves one word although its operator is dropped |
| FinshMeaning.CompiledExpressionMeansItself | components/finsh/finsh_compiler.c:28-883 | a typed expression's code pushes its value and leaves the memory its evaluation leaves |
| FinshMeaning.CompiledLineMeansItself | components/finsh/finsh_compiler.c:885-918 | compiling a line and running the whole text segment leaves one value, that of the last statement, at the bottom of the stack |
| FinshCompiler.TypeCheck | components/finsh/finsh_compiler.c:741-883 | the walk over linked nodes writes the types and address marks the specification says |
| FinshCompiler.Compiler.Compile | components/finsh/finsh_compiler.c:28-739 | the walk over linked nodes appends the specification's code, and reports a node without a width to store |
| FinshCompiler.Compiler.Run | components/finsh/finsh_compiler.c:885-918 | finsh_compiler_run |
| FinshArm.LoadStore | components/finsh/finsh_ops.c:302-422 | four bytes of memory, stored and loaded again |
| FinshArm.DivModTruncate | components/finsh/finsh_ops.c:98-128 | signed division truncates and recombines with the remainder, but for a zero divisor and the one quotient that does not fit |
| FinshArm.DivisionCorners | components/finsh/finsh_ops.c:98-125 | division by zero, and the one quotient that does not fit |
| FinshArm.BitsOfOperators | components/finsh/finsh_ops.c:164-213 | each bit of the bitwise operators is the conjunction, the disjunction and the inequality of the operands' bits |
| FinshArm.InvertFlips | components/finsh/finsh_ops.c:230-235 | and of ~ the opposite |
| FinshArm.ShiftsScale | components/finsh/finsh_ops.c:252-279 | a shift by less than 32 multiplies by a power of two modulo 2^32, or divides by it rounding down |
| FinshArm.ShiftsOut | components/finsh/finsh_ops.c:252-279 | a longer one leaves nothing but the sign |
| FinshArm.SumsFit | components/finsh/finsh_ops.c:54-147 | sums, differences and products are those of the signed numbers wherever they fit |
| FinshArm.SumsWrap | components/finsh/finsh_ops.c:54-147 | and differ from them by a multiple of 2^32 otherwise |
| FinshArm.StoreIsLittleEndian | components/finsh/finsh.h:33-50 | a stored word has its low byte first, and no other byte changes |
| FinshVm.Vm.OpBinary | components/finsh/finsh_ops.c:54-283 | a two-operand operation on the stack array |
| FinshVm.Vm.OpStore | components/finsh/finsh_ops.c:413-422 | a store leaves the value in place of address and value |
| FinshVm.Vm.OpCall | components/finsh/finsh_ops.c:429-555 | a call replaces function and arguments by the result |
| FinshVm.Vm.Dispatch | components/finsh/finsh_vm.c:48-57 | one operation is one step of the specification |
| FinshVm.Vm.Run | components/finsh/finsh_vm.c:32-59 | finsh_vm_run over the text segment |
| FinshGrammar.ParsesAssign | components/finsh/finsh_parser.c:426-895 | the token sequence of any expression written without parentheses and casts is read back to exactly its tree, the next token left unread |
| FinshGrammar.ParsesLine | components/finsh/finsh_parser.c:900-978 | a line of statements is read into their trees side by side |
| FinshGrammar.OperatorsBindAsInC | components/finsh/finsh_parser.c:451-658 | of x s y t z, y goes with t exactly if t binds more tightly in C |
| FinshGrammar.PrefixesReadAsInC | components/finsh/finsh_parser.c:694-741 | each prefix sign is read as in C |
| FinshGrammar.PostfixAndSetReadAsInC | components/finsh/finsh_parser.c:426-797 | and so are x++, x-- and x = y |
| FinshGrammar.FaultsReported | components/finsh/finsh_parser.c:798-847 | an unknown name, a token that begins nothing and a full node table are reported, with no tree |
| FinshGrammar.LineSticks | components/finsh/finsh_parser.c:900-979 | no later statement hides an error: a line is accepted only if every part of it was |
| FinshGrammar.KeepsTokensExactly | components/finsh/finsh_parser.c:900-978 | a line with empty statements has every statement read from its first token exactly when each run of them between two statements has even length |
| FinshGrammar.EmptyStatementLosesToken | components/finsh/finsh_parser.c:954-965 | an empty statement behind another one costs the token behind it |
| FinshParser.Parser.AssignExpr | components/finsh/finsh_parser.c:426-449 | the recursive descent over linked nodes and one token of replay gives the specification's tree |
| FinshParser.Parser.ParamList | components/finsh/finsh_parser.c:848-879 | the arguments of a call, linked as siblings |
| FinshParser.Parser.MakeSys | components/finsh/finsh_parser.c:881-898 | a node with its one or two children |
| FinshParser.Parser.Run | components/finsh/finsh_parser.c:900-978 | finsh_parser_run |
| FinshLine.MistypedExactly | components/finsh/finsh_compiler.c:293-353 | the compiler complains about exactly the expressions that assign to something without a width |
| FinshLine.NoWidthIsNotAssigned | components/finsh/finsh_compiler.c:293-323 | assigning to a function, or to a variable of type void, is an error, and nothing runs |
| FinshLine.LinesRefused | components/finsh/finsh_parser.c:396-412 | an unknown name, a missing semicolon and a stray token are reported as what they are |
| FinshLine.VoidPointerLineUnderflows | components/finsh/finsh_compiler.c:811-815 | the line p = n for p of type void * is accepted, and running it takes a word from the empty stack |
| FinshLine.RunLine | components/finsh/shell.c:195-236 | parse, compile and run; the error reported is the parser's or the compiler's |
| FinshLine.LineMeansItself | components/finsh/shell.c:195-236 | from tokens to result: a line of well-typed statements that fits yields the value of its last statement and the memory of evaluating them in order |
| FinshLine.LineOnArm | components/finsh/shell.c:195-236 | the same on a 32-bit machine with byte memory, two's complement and truncating division |
| FinshLine.UnaryOnArm | components/finsh/finsh_compiler.c:251-256 | there unary minus changes the sign, ~ turns every bit over, * loads |
| FinshLine.StepsOnArm | components/finsh/finsh_compiler.c:355-698 | ++ and -- leave one more or one less in the variable, and give the new value in front of it, the old one behind it |
| FinshLine.SevenByMinusTwo | components/finsh/finsh_ops.c:98-128 | there 7 / -2 is -3 and 7 % -2 is 1 |

## Left out

- Context switches, stack initialisation, interrupt masking, hooks, debug output and the object registry: foreign calls; a section with interrupts disabled is one atomic step.
- Object life cycle: create, delete and detach of IPC objects, timers and heaps, and threads that are detached while they wait.
- FinshGrammar.ParsesAssign: covers the expressions written without parentheses and casts, with integer literals, names, calls, operators and assignments; parenthesised input is taken for a cast by the parser, and character and string literals, type keywords and declarations are not part of this model.
- finsh variables of byte and word types, casts, and `++`/`--` on system variables: the compiler takes a node's width from its first child only, and the upper bytes of the values are unspecified.
- The names of finsh variables, functions and system variables: a name stands for an address or a function, the lexer for a sequence of tokens. `finsh_heap.c` and the node table's slots are a counter of free nodes.
- What a function called from finsh does: a parameter that takes the arguments and the memory and gives a result and a memory.
- `rw_mutex` of a read-write lock is taken as mutual exclusion: what MutexSpec proves of the mutex itself is not composed with it.
- `pthread_rwlock_destroy`, attributes, and errors of the underlying calls other than a timeout.
- Event sets and bitmaps are modelled as sets of bit numbers, not as 32-bit words.
- Waiting lists, ready lists and the timer list are modelled as sequences; that the linked list operations behave like sequence operations is proved in RtList and used for the memory heap's free list.
- Priority changes from outside while a thread waits or owns a mutex, several mutexes at once, and two different calls of one thread: the code does not re-sort a waiting list, and promises nothing.
- TimerList.TimerList.Tick: time slices are not modelled; `rt_tick_increase` is as far as the timers go, and a yield may come at any step.
- Scheduler.Scheduler.Resume: does not stop the timer of the resumed thread, since the timers of threads are not part of the scheduler's state.
- Scheduler.Scheduler.CloseThread: takes the thread off its ready list and closes it; the removal of its timer, the defunct list and the `rt_schedule` that ends `rt_thread_exit` are not in it (the last one is Scheduler.Schedule).
- Slab.Slab.Malloc: does not count used_mem and max_mem.
- Slab.Slab.Free: does not count used_mem.
- Semaphore.Semaphore.Broadcast: runs the loop without a break; SemaphoreSpec.InterruptedBroadcast says what timeouts between its turns come to.
- RwLock.RwLock.Unlock: runs the broadcast without a break; RwLockSpec.InterruptedUnlock says why that covers timeouts between its turns.
- Soft timers; timeout functions that start a timer of 0 ticks, and periodic timers of period 0: the check may not end (TimerSpec.QuietTurnStands).
- `src/mempool.c`, `src/module.c`, `src/kservice.c`, devices, barriers, spin locks, POSIX message queues and semaphores: plumbing, or no strong claim to prove.
- `rt_calloc`, and slab `rt_realloc`: an allocation followed by a copy.
- Sizes near 2^32, for which rounding up to the alignment wraps: sizes are unbounded in the model.
- The bytes of memory-heap and slab payloads; those of the small heap are modelled. The pages of the slab's own memusage array are not taken from the heap.
- The slab's semaphore: its calls are taken as sequential; on page exhaustion `rt_malloc` releases it twice.
