# A verified model of the reactor's queues, poller, allocator, URL parser and byte ring

Each core file of the C++ repository is modelled twice. A *state* is a value, and a total function says what one
step does to it: one memory access of a thread, one call of the scheduler, one turn of a loop. A *class* has the
fields of the source's class, and its methods, written statement by statement after the source, are proved to do
what the step functions say. The theorems are about all runs of the steps, so they are about the methods.

| file | what it models |
|---|---|
| `Spsc.dfy`, `SpscQueue.dfy` | `memory/spsc_queue.hpp`: every interleaving of one producer and one consumer, one atomic access or slot access per step, in the returning and in the blocking mode; `push` and `pop` with the other thread running between any two accesses |
| `Spinlock.dfy`, `Mpsc.dfy` | `thread/spinlock.hpp` and `memory/mpsc_queue.hpp`: any number of producers going through the compare-exchange lock, and one consumer |
| `Worker.dfy`, `ThreadPool.dfy` | `thread/worker.cpp`, `thread/thread_pool.cpp`: the loop that drains the queue, the round-robin dispatcher |
| `Scheduler.dfy`, `SocketContext.dfy` | `poller/scheduler.cpp`, `poller/socket_context.cpp`: the multimap of deadlines with its index, the wrapping timers |
| `PollerModel.dfy`, `Poller.dfy` | `poller/poller.cpp`: the operations as functions on the poller's structures, and the object whose methods refine them |
| `PollerRuns.dfy`, `Reactor.dfy` | runs of registrations, removals, polls and dispatches; the drain loop of `poller/reactor.cpp` |
| `FreeList.dfy`, `Chunker.dfy` | `memory/chunker.hpp`, `memory/chunker.tpp`: the free list as a value, and the allocator over raw bytes |
| `SubString.dfy`, `Url.dfy`, `UrlParser.dfy` | `common/sub_string.cpp`, `common/url.cpp`: spans, the parser as a function, the parser object |
| `UrlFaults.dfy`, `UrlParts.dfy`, `UrlPrint.dfy` | which texts the parser rejects and what it finds in all others, said of their delimiters; a printer and its inverse |
| `CircularBuffer.dfy`, `BitStaff.dfy` | `common/circular_buffer.cpp`, `memory/bit_staff.hpp` |
| `Modular.dfy`, `UInt64.dfy`, `Wrappers.dfy` | remainders, 64-bit wrap-around, optional values |

Conventions. Clock readings, epoll batches, callbacks, the answers of other threads and the hardware's thread count
are arguments. A function that throws or asserts in the source returns `None`, `false` or `AssertFailed` here, or its
precondition is the assertion and the invariants are proved to establish it. Integers are unbounded; where the source
relies on 64-bit wrap-around (timers, step changes, the bit functions) `Wrap` and `ToInt64` say so. A socket's context is
a value in the poller's map, as in the source; its timers are stepped and touched through a timer object.

Three facts found on the way. The comments of `poller/poller_event.hpp:22-23` pair `PEER_SHUTDOWN` with EPOLLRDHUP and
`UNEXPECTED_SHUTDOWN` with EPOLLHUP, but `poller/poller.cpp:232-233` sets them the other way round; the model follows
the code. And a timer can be lost: when the second clock reading of a poll (`poller/poller.cpp:249`) is a whole step
later than the first (`poller/poller.cpp:184`), a socket reported in that poll is taken out of the schedule and neither
closed nor rescheduled. `PollKeepsTimerIff` gives the exact condition, `LatePollLosesTimer` an instance. Finally, `user:@host` parses as valid
with the host `user:@host`, because an empty password is taken for a missing one (`common/url.cpp:149`);
`UrlPrint.UserWithoutPassword` is that instance, `UrlPrint.RoundTrip` gives the exact condition.

## Model

| member | source | states |
|---|---|---|
| `Spsc.RunKeepsInv` | memory/spsc_queue.hpp:43-84 | in every state of every interleaving, in both modes: indices in range, head and tail are the numbers of successful pushes and pops modulo the size, pending slots hold the accepted values, the producer's copy of head is never stale and "not full" stays true from the test, or the wait, to the write |
| `Spsc.Fifo` | memory/spsc_queue.hpp:43-84 | from a fresh queue of any capacity, after any interleaving: accepted values are exactly the popped ones followed by those in the slots from tail to head, at most the maximum size many |
| `Spsc.NoSlotConflict` | memory/spsc_queue.hpp:57-58 | a slot about to be written is never the slot about to be read, nor one holding a pending value |
| `Spsc.IndexTests` | memory/spsc_queue.hpp:29-40 | the index comparisons of `empty` and `full` decide emptiness and fullness of the abstract queue, and the index distance is the number of values held |
| `Spsc.PushFailsIffFull` | memory/spsc_queue.hpp:45-51 | a returning push returns false exactly when the queue is full at its load of the tail |
| `Spsc.FalsePopWasEmpty` | memory/spsc_queue.hpp:67-70 | every pop that returns false had an instant inside that call at which the queue was empty, whichever index is loaded first |
| `Spsc.HeadLoadedWhenEmpty` | memory/spsc_queue.hpp:31 | a possibly stale head that still equals the tail was loaded while the queue was empty, in the same call |
| `Spsc.BlockingNeverGivesUp` | memory/spsc_queue.hpp:48-55 | in the blocking mode no push or pop of any interleaving returns false |
| `Spsc.RoomEndsWait` | memory/spsc_queue.hpp:54-57 | a producer that waits goes on to write as soon as it finds room in two accesses in a row |
| `Spsc.ValueEndsWait` | memory/spsc_queue.hpp:73-76 | a consumer that waits goes on to read as soon as it finds a value in two accesses in a row |
| `Spsc.WriteSlot` | memory/spsc_queue.hpp:57 | writing the slot at head disturbs no pending value and keeps the whole invariant |
| `Spsc.PublishSlot` | memory/spsc_queue.hpp:58 | storing the advanced head appends the written value to the abstract queue and keeps the invariant |
| `Spsc.ReleaseSlot` | memory/spsc_queue.hpp:79 | storing the advanced tail removes the oldest value and keeps the invariant |
| `SpscQueue.PushIsInterleaving` | memory/spsc_queue.hpp:43-63 | a push with the consumer running between any of its accesses is a run of the step system |
| `SpscQueue.PopIsInterleaving` | memory/spsc_queue.hpp:65-84 | a pop with the producer running between any of its accesses is a run of the step system |
| `SpscQueue.NonEmptyPops` | memory/spsc_queue.hpp:65-76 | a pop that starts on a queue that is not empty finds it so, whatever the producer does between its loads and in whichever order they come |
| `SpscQueue.SPSCQueue.constructor` | memory/spsc_queue.hpp:19-23 | one spare slot, both indices zero |
| `SpscQueue.SPSCQueue.Push` | memory/spsc_queue.hpp:43-63 | the new state is that of the interleaving; the value is accepted if and only if true is returned |
| `SpscQueue.SPSCQueue.Empty` | memory/spsc_queue.hpp:29-32 | the two loads in either order, with the producer running before each |
| `SpscQueue.SPSCQueue.Pop` | memory/spsc_queue.hpp:65-84 | the new state is that of the interleaving; the value returned is the one appended to those taken |
| `SpscQueue.SPSCQueue.ProducerAccess` | memory/spsc_queue.hpp:43-63 | one access of `push` in either mode, on the fields in place |
| `SpscQueue.SPSCQueue.ConsumerAccess` | memory/spsc_queue.hpp:65-84 | one access of `pop` in either mode, on the fields in place |
| `Spinlock.MutualExclusion` | thread/spinlock.hpp:39-59 | for any number of threads and any interleaving: at most one holds the lock, and the flag is true exactly when one does |
| `Spinlock.ExchangeTakesFreeLock` | thread/spinlock.hpp:44-58 | an exchange takes the lock if and only if no thread holds it; a release leaves it free |
| `Spinlock.FreeTwiceIsTaken` | thread/spinlock.hpp:44-53 | `lock` has taken the flag by the second of two accesses in a row that find it free |
| `Spinlock.StepsAreAccesses` | thread/spinlock.hpp:39-54 | a thread's steps in the transition system take the lock at the same access as `lock` does, whatever the others leave in the flag |
| `Spinlock.SpinnerGetsFreeLock` | thread/spinlock.hpp:46-52 | a spinning thread that makes two accesses in a row on a free lock holds it |
| `Spinlock.SpinlockFlag.Acquire` | thread/spinlock.hpp:39-54 | the nested loops make exactly the accesses of the specification and end with the flag set |
| `Spinlock.SpinlockFlag.Release` | thread/spinlock.hpp:56-59 | the flag is free |
| `Mpsc.RunKeepsInv` | memory/mpsc_queue.hpp:20-29 | with any number of producers: the lock holder alone is inside the ring's push, the ring invariant holds for it, and the log of lock acquisitions agrees with the ring and with every producer's own calls |
| `Mpsc.ManyProducers` | memory/mpsc_queue.hpp:20-29 | mutual exclusion; what the consumer has taken followed by what the ring holds is the accepted values in lock-acquisition order; each producer's share of them is that of its successful calls; the arguments of its calls, ended and under way, are exactly those it was given, in order |
| `Mpsc.CallsHaveArguments` | memory/mpsc_queue.hpp:20-24 | the last of these from any state: no call pushes anything but its own argument |
| `Mpsc.RefusedIffFull` | memory/mpsc_queue.hpp:20-24 | a holder's push is refused exactly when the ring is full as it loads the tail |
| `Mpsc.SelectIsOkCalls` | memory/mpsc_queue.hpp:20-24 | selecting one producer's values from the merged order gives its successful calls in order |
| `Mpsc.MPSCQueue.ThreadAccess` | memory/mpsc_queue.hpp:20-24 | one access of a producer, of the lock or of the ring, is one step of the system |
| `Mpsc.MPSCQueue.PopAccess` | memory/mpsc_queue.hpp:26-29 | one access of the consumer, which takes no lock |
| `Worker.WorkerThread.Add` | thread/worker.cpp:26-29 | a task offered between two turns is accepted exactly when the queue is not full |
| `Worker.WorkerThread.Stop` | thread/worker.cpp:21-24 | stopping offers the stop task, and a full queue drops it |
| `Worker.WorkerThread.Execute` | thread/worker.cpp:56-63 | the task is run; an exception is reported and nothing else, the stop task sets the flag |
| `Worker.WorkerThread.TakeTurn` | thread/worker.cpp:54-67 | one turn runs exactly one task when one was accepted before, whatever the producer does meanwhile |
| `Worker.WorkerThread.Run` | thread/worker.cpp:49-73 | the tasks run are a prefix of the accepted ones, each turn running one while one accepted before the loop is left; the loop is done if and only if they are those up to and including the first stop task; a stop task accepted as the k-th ends it within as many turns as there are tasks up to it |
| `ThreadPool.ThreadPool.constructor` | thread/thread_pool.cpp:5-21 | the defaults for a missing thread count and queue size |
| `ThreadPool.ThreadPool.AddTask` | thread/thread_pool.cpp:29-49 | workers are asked in cyclic order from the next one, each at most once, none after one that accepts; the task goes to that one and to no other; false only if every worker refuses; the next call begins behind the last worker asked |
| `ThreadPool.EveryWorkerTried` | thread/thread_pool.cpp:59-62 | as many tries as workers reach every worker |
| `ThreadPool.BackAtStart` | thread/thread_pool.cpp:40-41 | the cyclic order returns to the first worker after exactly as many tries as there are workers |
| `ThreadPool.FirstTakerIs` | thread/thread_pool.cpp:36-43 | the place searched for is the one accepting worker before whom all refuse |
| `ThreadPool.ServedMovesOn` | thread/thread_pool.cpp:36-43 | for all answers: a call that serves worker w leaves the next call to begin behind w, and one that all refuse changes nothing |
| `ThreadPool.BeginsBehindLast` | thread/thread_pool.cpp:29-62 | in any run, with refusals or without, a call begins behind the worker that was served last |
| `ThreadPool.Fair` | thread/thread_pool.cpp:29-62 | after any run of calls in each of which the worker asked first accepts, worker w of n has been given the number of tasks that round robin gives it, so that counts differ by at most one |
| `Scheduler.AlwaysValid` | poller/scheduler.cpp:8-44 | after any calls the multimap is ordered and in bijection with its index |
| `Scheduler.AddRefines` | poller/scheduler.cpp:8-21 | adding overwrites one deadline of the abstract map and keeps the bijection |
| `Scheduler.DeleteRefines` | poller/scheduler.cpp:36-44 | deleting removes one payload of the abstract map and keeps the bijection |
| `Scheduler.PopRefines` | poller/scheduler.cpp:29-33 | taking the first event removes an entry of least deadline and nothing else |
| `Scheduler.DueIffPassed` | poller/scheduler.cpp:25-27 | the test on the first node decides whether any deadline has passed |
| `Scheduler.DrainIsDue` | poller/scheduler.cpp:23-34 | repeated calls at one time yield exactly the due payloads, once each |
| `Scheduler.DrainIsOrdered` | poller/scheduler.cpp:19-33 | they come by deadline, and through equal deadlines in the order of their latest additions |
| `Scheduler.LatestStamp` | poller/scheduler.cpp:13-20 | re-adding a payload moves it behind every other one with the same deadline |
| `Scheduler.WaitIsExact` | poller/scheduler.cpp:46-54 | -1 exactly when nothing is scheduled, 0 exactly when an event is due, and the least wait exactly when the least deadline is less than 2^63 away |
| `Scheduler.SchedulerQueue.AddEvent` | poller/scheduler.cpp:8-21 | the object's new state, and its abstract map with one deadline overwritten; an invalid time changes nothing |
| `Scheduler.SchedulerQueue.GetNextEvent` | poller/scheduler.cpp:23-34 | fails exactly when no deadline has passed; otherwise removes a least one |
| `Scheduler.SchedulerQueue.DeleteEvent` | poller/scheduler.cpp:36-44 | the abstract map without the payload |
| `Scheduler.SchedulerQueue.MsToNextEvent` | poller/scheduler.cpp:46-54 | the specified wait |
| `SocketContext.StepChangeKeepsBase` | poller/socket_context.cpp:36-42 | for all 64-bit values, changing the step through the signed wrapping difference re-bases the deadline on the same activity |
| `SocketContext.TimeoutCell.UpdateTimeout` | poller/socket_context.cpp:31-34 | the deadline is based on the activity from then on, and is its time plus the step when that fits 64 bits |
| `SocketContext.TimeoutCell.UpdateTimeoutStep` | poller/socket_context.cpp:36-42 | an armed deadline stays based on whatever activity it was based on, now with the new step; an unarmed one stays unarmed |
| `PollerModel.BatchIsPointwise` | poller/poller.cpp:186-241 | without a stop, a batch acts on each socket's timers, event and deadline by itself, whatever the order of the reports |
| `PollerModel.SignalEndsBatch` | poller/poller.cpp:161-198 | a signal that is not an update ends the batch there; a stop also forgets every socket and every event, and nothing else |
| `PollerModel.UntimedUpdate` | poller/poller.cpp:83-97 | an update without a timeout registers the socket or changes its mask, and touches no timer, event or deadline |
| `PollerModel.RemovalIsComplete` | poller/poller.cpp:114-126 | a removal takes the socket, and nothing else, out of all four structures, known or not |
| `Poller.EventPoller.AddToScheduler` | poller/poller.cpp:41-60 | the directions of the mask armed or re-stepped, and one deadline rescheduled |
| `Poller.EventPoller.UpdateSocket` | poller/poller.cpp:62-98 | the new value of all four structures, registered before or not |
| `Poller.EventPoller.RemoveSocket` | poller/poller.cpp:100-127 | the socket gone from all four structures |
| `Poller.EventPoller.ProcessSignal` | poller/poller.cpp:161-178 | zero exactly for signals that end the batch; a stop forgets sockets and events |
| `Poller.EventPoller.ProcessReport` | poller/poller.cpp:204-240 | timers touched, deadline deleted and re-added, event inserted unless one is pending |
| `Poller.EventPoller.ProcessEpollEvents` | poller/poller.cpp:180-245 | the loop over the batch computes the specified fold |
| `Poller.EventPoller.ProcessScheduler` | poller/poller.cpp:247-291 | the loop ends, the number of scheduled entries being its measure, and its result is the order-free specification |
| `Poller.Settled` | poller/poller.cpp:255-289 | settling one due entry makes progress towards that specification and touches no other socket |
| `Poller.EventPoller.GetNextEvent` | poller/poller.cpp:315-323 | takes one pending event, and none exactly when there is none |
| `Poller.EventPoller.Poll` | poller/poller.cpp:293-304 | the batch, then the schedule |
| `PollerRuns.StepKeepsInv` | poller/poller.cpp:41-127 | every action the reactor, the callbacks and the kernel may take keeps the three structures consistent, epoll's mask that last asked for, every armed timer's step that last asked for in its direction, half a minute for none, and its deadline the last activity plus that step |
| `PollerRuns.Run` | poller/poller.cpp:62-323 | the same in every state of every run that starts empty |
| `PollerRuns.UpdateKeepsInv` | poller/poller.cpp:62-98 | an update leaves the socket scheduled at exactly its nearest deadline |
| `PollerRuns.UpdatedIsOk` | poller/poller.cpp:45-59 | after an update the socket has the mask, the steps and the deadlines that it asked for, whether its timers were armed or not |
| `PollerRuns.UpdateIsAsserted` | poller/poller.cpp:59 | the assertion inside `get_nearest_timeout` holds at every update of a run |
| `PollerRuns.PollIsPointwise` | poller/poller.cpp:180-291 | one socket's timers, event, deadline and last activity after a poll, in terms of its own before |
| `PollerRuns.PollKeepsTimerIff` | poller/poller.cpp:180-291 | a poll keeps a socket scheduled at its nearest deadline, or pending with a close, if and only if it is not the case that it was reported without an error and every direction expired by the second clock reading was reported at the first |
| `PollerRuns.LatePollLosesTimer` | poller/poller.cpp:184-288 | a run from the start, a registration and one late poll, in which the timer of an active socket is lost |
| `PollerRuns.PromptIsNotSwallowed` | poller/poller.cpp:184-262 | clock readings less than a step apart exclude that case |
| `PollerRuns.NoTimerLost` | poller/poller.cpp:41-323 | in every run with prompt polls each active socket is scheduled at exactly the lesser of its deadlines, or an event that closes it is pending or in hand |
| `PollerRuns.TimeoutsAreSound` | poller/poller.cpp:215-288 | an event blames a timeout on a direction only if its last activity plus step had passed and the event does not carry that direction |
| `PollerRuns.EventsAreExact` | poller/poller.cpp:180-291 | in every run with prompt polls the next poll leaves each active socket exactly this event: one if and only if it was reported or is idle; reading and writing exactly as reported; closing exactly for an error or an idle direction; with exactly the reported errors; and blaming a timeout exactly of the idle directions, unless an error was reported |
| `PollerRuns.ScheduleIsSettled` | poller/poller.cpp:247-291 | from any state: nothing due is left, every due and expired active socket is closed or covered by what its event reports, pending read and write bits are kept, a close is never taken back |
| `PollerRuns.UntimedSocketExpires` | poller/socket_context.cpp:31-34 | a socket registered without a timeout gets one in the past from its first report |
| `Reactor.Reactor.Perform` | poller/reactor.cpp:24-31 | updates and removals by callbacks extend the run and add no pending event |
| `Reactor.CallbacksAddNoEvent` | poller/poller.cpp:62-127 | neither an update nor a removal adds or changes a pending event |
| `Reactor.Reactor.Dispatch` | poller/reactor.cpp:22-39 | the callbacks in order and nothing else; when the event asks to close or a callback threw, the socket is gone afterwards; an event that is pending no longer had its socket removed |
| `Reactor.Reactor.Drain` | poller/reactor.cpp:16-40 | the loop ends, exactly when nothing is pending; every event pending at the start is dispatched, unchanged and once, unless a callback removed its socket; what happens is one take, its callbacks and one finish per event dispatched |
| `Reactor.DrainLogIs` | poller/reactor.cpp:16-40 | what is recorded of each pass is the event taken, the callbacks given for it, and the end of its dispatch |
| `Reactor.Reactor.Turn` | poller/reactor.cpp:12-41 | the same of the events that the poll leaves; nothing is pending afterwards, which the next poll relies on |
| `FreeList.Run` | memory/chunker.tpp:2-74 | after any valid allocations and frees the list ends, visits no block twice, and free and live blocks partition all blocks |
| `FreeList.Allocated` | memory/chunker.tpp:14-23 | a fresh allocator hands out its blocks in ascending order |
| `FreeList.ChainIsUnique` | memory/chunker.tpp:55-59 | the fields determine the list |
| `FreeList.ChainIsAcyclic` | memory/chunker.tpp:55-59 | a list that ends visits no block twice |
| `FreeList.CreateIsFresh` | memory/chunker.tpp:50-62 | fails exactly when all blocks are live; otherwise hands out a block that was not, and only it becomes live |
| `FreeList.DestroyFrees` | memory/chunker.tpp:65-74 | exactly the block given back becomes free |
| `FreeList.FreeUndoesAlloc` | memory/chunker.tpp:50-74 | freeing the block just created restores the exact heap |
| `Chunker.NoOverlap` | memory/chunker.hpp:27-31 | no byte of one block is a byte of another |
| `Chunker.LayoutIsTight` | memory/chunker.hpp:27-31 | the field's place and the size of a block are determined by the alignment |
| `Chunker.Layout.StoreIsLocal` | memory/chunker.hpp:27-31 | a store inside one block's field changes no other field |
| `Chunker.Layout.DataIsNoField` | memory/chunker.hpp:27-31 | a store inside a block's data changes no field |
| `Chunker.Chunker.constructor` | memory/chunker.tpp:2-24 | the loop over raw memory builds the initial list of all blocks |
| `Chunker.Chunker.Create` | memory/chunker.tpp:50-62 | one step of the free list, read from bytes; the address of a block that was not live |
| `Chunker.Chunker.Destroy` | memory/chunker.tpp:65-74 | one step of the free list; no byte outside that block's field changes |
| `Chunker.Chunker.GetShared` | memory/chunker.tpp:33-47 | too big, exhausted, or a chunk, each exactly when |
| `Chunker.Chunker.ClientWrite` | memory/chunker.hpp:29 | client data never disturbs the free list |
| `SubString.StrIsSlice` | common/sub_string.cpp:28-46 | the string of a span within the source is the slice between its ends |
| `SubString.SubstrIsPiece` | common/sub_string.cpp:33-46 | a piece exists exactly when it begins within the source, and is then as long as asked for or as what is there |
| `SubString.Span.Set` | common/sub_string.cpp:16-26 | the three fields, an end of zero meaning an empty span |
| `Url.Parse` | common/url.cpp:15-58 | for every string: the parser ends, and on every path that meets no failed assertion it is valid and all six spans lie in order within the slash-extended string |
| `Url.Turn` | common/url.cpp:21-55 | each turn keeps the invariant, which says among other things that slashes behind the offset belong to a consumed "://", and moves the offset on |
| `Url.HostEnd` | common/url.cpp:144-166 | the host's bounds are in order and behind the offset |
| `Url.HostInOrder` | common/url.cpp:149-165 | the backward search for the port's colon finds it, and the host begins before it |
| `Url.LastSlash` | common/url.cpp:118-124 | the last slash before a login is the second of a "://", so the character before it exists |
| `Url.SkipKeepsInv` | common/url.cpp:21-23 | a delimiter is always found |
| `Url.FillColon` | common/url.cpp:28-36 | a scheme, a port or a login, whichever is recognised, keeps the invariant |
| `UrlParser.Parser.Parse` | common/url.cpp:15-58 | the loop over the object's spans ends in the state that the parsing function gives, and fails an assertion exactly when that does |
| `UrlParser.Parser.FillProto` | common/url.cpp:77-94 | as specified, on the object's spans |
| `UrlParser.Parser.FillPort` | common/url.cpp:96-111 | as specified, on the object's spans |
| `UrlParser.Parser.FillLogin` | common/url.cpp:113-128 | as specified, on the object's spans |
| `UrlParser.Parser.FillPass` | common/url.cpp:130-142 | as specified, on the object's spans |
| `UrlParser.Parser.FillHost` | common/url.cpp:144-166 | as specified; the assertion of the span holds |
| `UrlParser.Parser.FillTail` | common/url.cpp:168-174 | as specified, on the object's spans |
| `UrlFaults.ParseFailsIff` | common/url.cpp:15-58 | for every string: the parser fails an assertion if and only if, before the first slash that is not a scheme's, there is a colon, neither a scheme's nor a port's, behind a login's colon, or an '@' with no login's colon before it or behind a password's '@' |
| `UrlFaults.UserAlone` | common/url.cpp:135-136 | a user without a colon before the '@' is rejected, whatever follows |
| `UrlFaults.UserAloneAfterScheme` | common/url.cpp:135-136 | and so it is after a scheme |
| `UrlParts.AcceptedPartsAreExact` | common/url.cpp:15-174 | for every accepted string all six spans are determined by its delimiters: scheme, login and password exactly when their delimiter is there and then up to it, the port exactly when a number ends at the stop, the host between what precedes it and the port or the stop, the tail behind the stop |
| `UrlPrint.ParseFindsSpans` | common/url.cpp:15-174 | a text with its delimiters at given places, between plain characters, parses to exactly the spans between them |
| `UrlPrint.RoundTrip` | common/url.cpp:15-174 | a printed URL always parses and is valid, and every accessor returns the part it was printed with, the tail with the appended slash, if and only if a login, when there is one, has a password with it |
| `UrlPrint.PairedRecovered` | common/url.cpp:15-174 | the forward half of that |
| `UrlPrint.EmptyPassHost` | common/url.cpp:149-158 | after a login with an empty password the host begins where the login does, and is the login, ":@" and the host |
| `UrlPrint.UserWithoutPassword` | common/url.cpp:149-165 | `user:@host` parses as valid with the host `user:@host` |
| `UrlPrint.PrintIsInjective` | common/url.cpp:15-174 | no two URLs with paired credentials print alike |
| `CircularBuffer.Run` | common/circular_buffer.cpp:61-94 | after any commits, for every capacity: what was read followed by what is held is what was written, and the size is the difference of the totals |
| `CircularBuffer.SizeIsLength` | common/circular_buffer.cpp:26-54 | the size is the number of bytes held; `empty` and `full` hold exactly at the extremes |
| `CircularBuffer.WriteAppends` | common/circular_buffer.cpp:74-83 | a commit appends its bytes, across the wrap or not |
| `CircularBuffer.ReadRemoves` | common/circular_buffer.cpp:85-94 | a read removes the oldest bytes, and they are those at the tail |
| `CircularBuffer.RefusalsAreExact` | common/circular_buffer.cpp:79-91 | both refusals in terms of size and position |
| `CircularBuffer.TwoReadsDrain` | common/circular_buffer.cpp:36-39 | two maximal reads empty the ring |
| `CircularBuffer.Buffer.Increase` | common/circular_buffer.cpp:61-72 | moves on or throws, toggling the flag exactly at the end |
| `CircularBuffer.Buffer.Write` | common/circular_buffer.cpp:74-83 | the committed bytes are appended in place, or nothing changes |
| `CircularBuffer.Buffer.Read` | common/circular_buffer.cpp:85-94 | the bytes at the tail were the oldest, or nothing changes |
| `BitStaff.IsPowerOfTwoIsExact` | memory/bit_staff.hpp:5-8 | true exactly of the powers of two |
| `BitStaff.SmearDoubles` | memory/bit_staff.hpp:11-16 | one call doubles the run of ones below the top digit |
| `BitStaff.SmearsToTheEnd` | memory/bit_staff.hpp:11-16 | the recursion reaches the next power of two from any stage |
| `BitStaff.NextInWord` | memory/bit_staff.hpp:11-16 | the same for any number of bits to cover, on the values it covers |
| `BitStaff.NextPowerOfTwo` | memory/bit_staff.hpp:11-16 | for every 64-bit value: the least power of two not below it if and only if it is from 1 to 2^63, and zero otherwise |
| `BitStaff.ChunkSizeIsTight` | memory/chunker.hpp:19-21 | every nonzero 32-bit request gets a power of two from itself to less than twice itself |

## Left out

- Spsc.Fifo: does not model weak memory, nor `max_size + 1` wrapping to zero for a `max_size` of 2^64 - 1.
- Spsc.RunKeepsInv: safety only in the blocking mode; notifications are sent without holding the mutex, so no wake-up is claimed, and the mutex itself is left out, which allows more interleavings than the source does.
- SpscQueue.SPSCQueue.Push: covers the returning mode; the blocking mode is covered access by access by `ProducerAccess`.
- SpscQueue.SPSCQueue.Pop: covers the returning mode; the blocking mode is covered access by access by `ConsumerAccess`.
- Spinlock.MutualExclusion: progress under contention, fairness and the two back-off policies are not modelled.
- Mpsc.ManyProducers: only the returning mode, because the source's calls name the base queue with its default mode.
- Worker.WorkerThread.Add: no consumer access in between; calls that overlap a turn of the loop are part of that turn's environment in `Run`.
- Worker.WorkerThread.Run: whether a task throws is part of the task; exceptions not derived from `std::exception`, the sleep between empty polls, thread creation and affinity are not modelled; a refused stop task is simply not accepted.
- ThreadPool.ThreadPool.AddTask: the workers' answers are arguments, and the mutex makes each call one step.
- PollerRuns.NoTimerLost: sockets registered with `INVALID_TIME` are excluded, as are clocks and steps near 2^64; a stop is the end of a run, since it does not clear the scheduler.
- Poller.EventPoller.UpdateSocket: null sockets, the kernel calls, attaching the socket and the wake-up signal are not modelled; a descriptor stands for its socket.
- Poller.EventPoller.ProcessEpollEvents: the doubling of the batch buffer is not modelled, and an unknown descriptor, on which the source asserts, is excluded by its precondition.
- Scheduler.WaitIsExact: the truncation of the wait to `int` in `epoll_wait` is not modelled.
- Reactor.Reactor.Dispatch: which of the read, write and close callbacks an event calls is not distinguished; what they do is given as a sequence of updates and removals.
- Reactor.Reactor.Turn: one iteration of the outer loop; the stop flag is not modelled, and a close is the removal that closing an attached socket performs.
- Chunker.Chunker.constructor: the memory size, the number of blocks times their size, is not bounded; in the source it is a 64-bit product, which wraps for the largest parameters.
- Chunker.Chunker.GetShared: reference counting is the caller's; a chunk is given back by `Destroy`. A failing allocation of the raw memory is not modelled.
- UrlParser.Parser.Parse: a second `set` on the same object is excluded, because the spans are not reset.
- UrlPrint.RoundTrip: a delimiter inside a part other than the tail, a port that is not a number, and a password without a login, which has no printed form, are excluded.
- UrlParser.Parser.FillHost: the backward and forward searches of the standard string are functions here.
- CircularBuffer.Buffer.Write: the client reads at the tail and writes at the head; the pointer conversion for reading is declared but not defined in the source.
- Socket and file-descriptor wrappers, DNS, logging, timers, hashing, `Any`, the object pool and the one-byte bit set: operating-system plumbing or easy members.
