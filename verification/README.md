# RopUI, verified models

A Dafny 4.11 model of the parts of RopUI whose correctness is not visible in one function
body, and proofs about them.  `dafny verify dfyconfig.toml` checks everything.  Each module
stands for one component:

| files | component | what is proved |
|---|---|---|
| `TaskDeque.dfy`, `DequeCalls.dfy`, `Capacity.dfy` | the bounded work-stealing deque | one step per atomic access, one owner and any number of thieves; every interleaving refines a sequential bounded deque, exactly when a slow thief loses its slot; each call takes effect once and ends |
| `LocalDeque.dfy`, `Hive.dfy`, `HiveProofs.dfy`, `HiveLosses.dfy`, `LossRun.dfy`, `HiveTurns.dfy`, `HiveProgress.dfy` | `Hive`, `IOWorker`, `ComputeWorker` | tasks are conserved over all workers, queues, held batches, deque slots and steals in two steps; none begins twice; exactly when one is destroyed in its slot; private tasks run in order; timers run when due, earliest first; workers stop when told to; no task is stuck |
| `EventLoop.dfy`, `LoopRuns.dfy` | `EventLoop` with its eventfd | no lost wakeup, no oversleep, order and conservation; bounds within which tasks run, timers fire and the loop stops |
| `EventCore.dfy` | `IEventLoopCore` on `PollBackend` | the swap-remove index is a map; the source list is the fold of the operations; dispatch changes nothing; after any run what is polled follows from the commands alone |
| `AsyncStream.dfy`, `StreamRuns.dfy` | `AsyncQueue`, `AsyncTcpStream::sendAll` | mutual exclusion with handover, FIFO, and over every run the byte stream as the calls and the socket's answers make it; exactly when bytes stay unsent |
| `Skyline.dfy`, `Packing.dfy`, `Atlas.dfy`, `GlyphCache.dfy`, `GlyphAnswers.dfy`, `GlyphStash.dfy` | the fontstash atlas packer and glyph cache | the in-place node array refines a column-height function; rectangles and glyph bitmaps never overlap; hash chains agree with a scan; runs are answered as the skyline and the caches say |
| `LineBreaker.dfy`, `LineRows.dfy`, `LineBatches.dfy` | `nvgTextBreakLines`, `nvgTextBox` | rows tile the text and break where they must; exactly when a row is too wide; exactly when calls in batches give the rows of one call; the box shows every visible glyph once |
| `VertexBudget.dfy` | `nvg__expandStroke`, `nvg__expandFill` | nothing is written outside the vertices counted beforehand; ranges are consecutive |
| `Bits.dfy`, `Huffman.dfy`, `ZStream.dfy`, `ZHuffman.dfy` | zlib Huffman decoding in stb_image | the fast table and the slow path are canonical decoding (section 3.2.2 of RFC 1951) |
| `PngFilter.dfy`, `PngDecode.dfy`, `Adam7.dfy` | PNG unfiltering and de-interlacing in stb_image | decoding inverts filtering (section 9 of the W3C PNG Specification, Second Edition) and Adam7 (section 8.2) |

Concurrent components are transition systems: a `State`, an `Event` for every step that a
thread can take, `Apply`, and theorems about every state that some run reaches.  Components
that work on objects and buffers are classes and methods.  Atomics are sequentially
consistent.  Clocks, random choices, glyph metrics, socket answers and what callbacks do are
parameters or event arguments, so the theorems hold for all of them.

Some places where the code does less than its comments or a first reading suggest are kept
as they are and described exactly:

- A thief reads its slot after its compare-and-swap.  `OverrunIffWrapped` says precisely when
  the owner's write takes the task away, and `OneFurtherClaimPermitsReuse` builds such a run
  for every capacity.  `LossExactly` says the same of every run of the whole runtime: a task is
  destroyed by a push exactly when a thief claimed the index one round earlier and has not
  read it.  `LossHappens` is such a run, of three workers with the steal guard met, and
  `LostNeverRuns` says that an accepted task so destroyed never begins.  Workers lose tasks in
  some run if and only if they can steal (`LossIffStealing`).
- `size_` is bottom - top exactly when the updates still owed cancel (`SizeExactly`);
  `SizeCanWrap` reaches the largest `size_t`.
- The loop that rounds a capacity up ends exactly for sizes up to 2^63 (`LoopEndsExactly`).
- Timers of the event loop fire in the order of their deadlines unless one is set with a
  negative delay (`FiredInOrder`, `PastFiresLate`).
- `sendAll` can return with bytes unsent.  `LeavesUnsentExactly` says when, with a run for each
  of the three events that lead to it; otherwise a free lock means that all is sent
  (`FreeMeansSent`).
- The comment that the local deque is always empty at a harvest holds if and only if the
  local batch size is not zero or the deque has no room (`HarvestFindsEmptyDeque`).
- The atlas refuses a rectangle that fits if and only if the skyline is one full-width span and
  the rectangle would end flush with the atlas height (`Refuses`, `ChoiceOrRefusal`);
  `FlushIsRefused` is the case of an empty atlas.
- After a word break the line breaker does not measure the glyph that caused it against the
  new row.  A row is too wide if and only if the break before it carried a word that is itself
  too wide up to that glyph (`OverfullExactly`, with the text of `OverfullRow`); when all words
  fit, all rows do (`WordsFitRowsFit`).
- `nvgTextBox` breaks lines two rows at a time.  It draws the rows of one call if and only if
  no batch ends between CR and LF or LF and CR, or before a word carried unmeasured that does
  not fit (`TextBoxExactly`, with the texts of `TornPair` and `MeasuredAgain`).

## Model

| member | source | states |
|---|---|---|
| `TaskDeque.StepRefines` | utils/concurrency/task_deque.cc:54-120 | every atomic step of owner or thief is a step of the sequential bounded deque or none, keeps the invariant, and never lowers top |
| `TaskDeque.ReachableInv` | utils/concurrency/task_deque.cc:54-120 | the invariant holds after every interleaving |
| `TaskDeque.ExactlyOnePlace` | utils/concurrency/task_deque.cc:54-120 | each published task is claimed by exactly one pop or steal or lies at one index of the live range, never both, in order |
| `TaskDeque.CountersInOrder` | utils/concurrency/task_deque.cc:54-102 | top ≤ bottom outside the open part of a pop, and never more than maxSize tasks |
| `TaskDeque.LiveSlotsDistinct` | utils/concurrency/task_deque.cc:30-32 | live indices never collide modulo the capacity |
| `TaskDeque.ClaimedSlotSafe` | utils/concurrency/task_deque.cc:58-63 | a claimed, unread slot is not overwritten while top ≤ t + 1 |
| `TaskDeque.ReadsAreRight` | utils/concurrency/task_deque.cc:92-116 | without an overrun every completed claim got its own task; no claim is read twice even with one |
| `TaskDeque.OverrunIffWrapped` | utils/concurrency/task_deque.cc:58-63 | the write of index b takes a thief's task if and only if b has reached t + capacity |
| `TaskDeque.LostForGood` | utils/concurrency/task_deque.cc:111-116 | a thief whose slot has been rewritten never gets its task |
| `TaskDeque.SizeExactly` | utils/concurrency/task_deque.cc:34-36 | in every reachable state the counter is bottom - top, as words, if and only if the owed updates cancel: the owner's increment against one thief's decrement, or none owed |
| `TaskDeque.OneFurtherClaimPermitsReuse` | utils/concurrency/task_deque.cc:54-120 | for every capacity some run with top = t + 2 overwrites a claimed slot: the slack of one is tight |
| `TaskDeque.SizeCanWrap` | utils/concurrency/task_deque.cc:65-66 | some run counts a steal before its push, so the counter wraps |
| `DequeCalls.EachCallOnce` | utils/concurrency/task_deque.cc:54-101 | each call of the owner takes effect in exactly one of its steps: a push pushes or is refused, a pop pops or finds the deque empty |
| `DequeCalls.CallsBegin` | utils/concurrency/task_deque.cc:54-76 | a call begins without effect, but for a pop at bottom zero, which is missed at once |
| `DequeCalls.StealMissedRightly` | utils/concurrency/task_deque.cc:103-119 | a thief gives up only when at most the task that the owner is taking is left, or when its index has been taken |
| `DequeCalls.StealTakesOldest` | utils/concurrency/task_deque.cc:103-119 | a thief that does not give up takes the oldest task |
| `DequeCalls.CallsEnd` | utils/concurrency/task_deque.cc:54-119 | every own step brings a call nearer to its end and no step of another thread keeps it: no call waits |
| `Capacity.TestPow2Exact` | utils/concurrency/task_deque.cc:5-7 | the mask test recognises exactly the powers of two |
| `Capacity.RoundUpPow2` | utils/concurrency/task_deque.cc:9-21 | the least power of two that is at least two and at least x, when the loop ends |
| `Capacity.LoopEndsExactly` | utils/concurrency/task_deque.cc:16-19 | the doubling word reaches x if and only if x is at most 2^63 |
| `Capacity.SlotIsMask` | utils/concurrency/task_deque.cc:63 | for a power-of-two capacity the mask is the index modulo the capacity |
| `HiveProofs.StepConserves` | platform/schedule/io_worker.cc:270-489 | each step of each thread keeps the count of every task, or accepts it |
| `HiveProofs.StepInv` | platform/schedule/io_worker.cc:491-593 | each step of each worker, compute worker and poster keeps the system invariant |
| `HiveProofs.TasksConserved` | platform/schedule/hive.cc:13-80 | in every reachable state, after overruns as well, the multiset of accepted posts equals begun + dropped + destroyed + pooled + queued + held tasks over all workers and deque slots |
| `HiveProofs.NothingRunsTwice` | platform/schedule/io_worker.cc:305-489 | no task begins twice in any run, before or after a stop or an overrun, and every task begun was accepted |
| `HiveProofs.NothingDroppedBeforeStop` | platform/schedule/io_worker.cc:371-403 | until a stop or exit is requested nothing is dropped, and the accepted tasks are those begun, pooled, queued and held, and those destroyed in their slots |
| `HiveProofs.RoomyLosesOnlyCompute` | platform/schedule/io_worker.cc:377-394 | if a harvest fits into the local deques, a stop loses compute tasks only and a harvest never runs a task inline |
| `HiveProofs.HarvestFindsEmptyDeque` | platform/schedule/io_worker.cc:344-386 | the deque is empty at a harvest if and only if the local batch is not zero or the deque holds nothing |
| `HiveProofs.PrivateOrder` | platform/schedule/io_worker.cc:146-152 | private tasks begun, then queued, then drained, then inbound are the private posts in order |
| `HiveProofs.MailKeepsLine` | platform/schedule/io_worker.cc:270-321 | draining, distributing and running keep that order |
| `HiveProofs.ClaimConserves` | utils/concurrency/task_deque.cc:103-113 | the compare-and-swap of a steal moves no task |
| `HiveProofs.StealConserves` | platform/schedule/io_worker.cc:446-463 | the read of the claimed slot moves what it holds, if anything, into the thief's hand |
| `HiveProofs.ComputeConserves` | platform/schedule/compute_worker.cc:26-52 | a compute worker's steps keep every task |
| `HiveProofs.PostConserves` | platform/schedule/hive.cc:200-236 | a post puts the accepted task in exactly one queue; a refused post changes nothing |
| `HiveProofs.PostLocalConserves` | platform/schedule/io_worker.cc:156-189 | a local post goes to the deque, or to the global pool when that is full; what its slot still held is destroyed |
| `HiveProofs.TimersNotEarly` | platform/schedule/io_worker.cc:323-342 | no delayed task begins before its deadline |
| `HiveTurns.DueTimersFirst` | platform/schedule/io_worker.cc:323-342 | in every reachable state a worker at its timers begins one that is due, and due no later than any that is left, or goes on because none is due |
| `HiveTurns.TimersReadClock` | platform/schedule/io_worker.cc:323-327 | due at the time read when the worker comes to its timers |
| `HiveTurns.LoopsFinish` | platform/schedule/io_worker.cc:270-403 | a worker that is not stopping leaves a loop of its pass only when its work is done, and a harvest takes as much as the batch allows |
| `HiveTurns.WorkerStops` | platform/schedule/io_worker.cc:491-593 | from every reachable state a worker told to stop has left its loop after at most so many moves, counted from its place, its mail and its batches |
| `HiveTurns.NobodyIsStuck` | platform/schedule/io_worker.cc:491-593 | in every reachable state every worker that has not left its loop can move, and those that have were told to |
| `HiveTurns.ComputerStops` | platform/schedule/compute_worker.cc:26-52 | after an exit request every turn brings a compute worker nearer to its exit |
| `HiveTurns.ComputerExitsOnlyOnRequest` | platform/schedule/compute_worker.cc:26-52 | a compute worker leaves its loop only when told to |
| `HiveTurns.RunTells` | platform/schedule/hive.cc:200-236 | over every run the accepted tasks are the posts in order, and the stop and exit flags are up if and only if requested |
| `HiveProgress.EveryTaskCanBegin` | platform/schedule/io_worker.cc:491-593 | from every reachable state every task in the pool, or in the mail, deque or hands of a worker that is not stopping, can begin by turns of that worker alone, unless a thief's claim on its deque is pending |
| `HiveProgress.ComputeDrains` | platform/schedule/compute_worker.cc:26-52 | a compute worker left alone begins all tasks of its pool in order |
| `LocalDeque.OverwritesIffWrapped` | utils/concurrency/task_deque.cc:54-67 | the slot of the next push is full if and only if a thief claimed the index one round earlier and has not read it |
| `LocalDeque.PushIsAbstract` | utils/concurrency/task_deque.cc:54-67 | a push that destroys nothing, or is refused, is a step of the bounded deque that `TaskDeque.StepRefines` implements |
| `LocalDeque.PopIsAbstract` | utils/concurrency/task_deque.cc:69-101 | a pop is such a step and finds its task, or misses if and only if the deque is empty |
| `LocalDeque.StealIsAbstract` | utils/concurrency/task_deque.cc:103-119 | the claim of a steal takes the oldest task |
| `LocalDeque.ReadIsAbstract` | utils/concurrency/task_deque.cc:113-116 | the late read of a claimed slot changes nothing for the others |
| `HiveLosses.LossExactly` | platform/schedule/io_worker.cc:446-463 | in every reachable state without a loss, an event destroys a task if and only if it pushes on a deque one of whose thieves claimed the index one round earlier and has not read it; the task is that thief's |
| `HiveLosses.DequesAreAbstract` | platform/schedule/io_worker.cc:344-489 | until a task is destroyed, every event of every run is a step of every worker's deque as `TaskDeque.AbsNext` defines it |
| `HiveLosses.ClaimKept` | utils/concurrency/task_deque.cc:103-119 | until a task is destroyed, a claimed task stays in its slot for its thief |
| `HiveLosses.NoStealNoLoss` | platform/schedule/io_worker.cc:405-414 | when no worker can steal no run destroys a task |
| `LossRun.LossHappens` | platform/schedule/io_worker.cc:405-463 | for every deque of 15 tasks or more, some run of three stealing workers destroys an accepted task with no stop requested |
| `LossRun.LossIffStealing` | platform/schedule/io_worker.cc:405-463 | workers with the same options lose a task in some run if and only if the options let them steal |
| `LossRun.LostIsGone` | utils/concurrency/task_deque.cc:54-67 | a destroyed task was accepted and is in no queue, slot or hand, not begun and not dropped |
| `LossRun.LostNeverRuns` | utils/concurrency/task_deque.cc:54-67 | and begins in no continuation of the run |
| `EventLoop.NoLostWakeup` | platform/schedule/eventloop.cc:82-176 | a blocked loop with a queued task, an exit request or a timer due before its wake time has a token, or a poster has still to write one |
| `EventLoop.WorkEndsWait` | platform/linux/schedule/watcher/epoll_wakeup.cc:60-82 | once every poster has written, such a wait returns |
| `EventLoop.NoOversleep` | platform/schedule/eventloop.cc:157-176 | with no wakeup under way, a wait outlasts a deadline by no more than it started after the timeout was computed |
| `EventLoop.TimeoutTight` | platform/schedule/eventloop.cc:157-176 | the timeout ends at or before the earliest deadline, and less than a millisecond before it unless cut to INT_MAX |
| `EventLoop.StepInv` | platform/schedule/eventloop.cc:115-155 | every step of the loop and of the posters keeps the invariant |
| `EventLoop.TasksInOrder` | platform/schedule/eventloop.cc:126-138 | tasks run in the order of their posts, each once, and a loop about to wait holds none |
| `EventLoop.TimersKept` | platform/schedule/eventloop.cc:91-98 | every timer set is fired, due or waiting, and none fires early |
| `EventLoop.DueExact` | platform/schedule/eventloop.cc:140-155 | the loop pops exactly the timers whose deadline has come |
| `LoopRuns.RunTells` | platform/schedule/eventloop.cc:82-102 | over every run tasks, timers with their deadlines, clock and exit flag are those of the events |
| `LoopRuns.ExitEnds` | platform/schedule/eventloop.cc:99-124 | from every reachable state with an exit request whose wakeup is written, the loop stops within a bound counted from its place, its queues and what others do meanwhile |
| `LoopRuns.StopsOnlyOnRequest` | platform/schedule/eventloop.cc:115-124 | the loop stops only when an exit was requested |
| `LoopRuns.TasksGetRun` | platform/schedule/eventloop.cc:82-138 | from every reachable state with no wakeup unwritten, all tasks posted so far run, in order, within such a bound, or the loop is told to stop |
| `LoopRuns.TimersGetFired` | platform/schedule/eventloop.cc:91-155 | from every reachable state that does not wait, or has a wakeup, all timers that are due fire within such a bound, or the loop is told to stop |
| `LoopRuns.FiredInOrder` | platform/schedule/eventloop.cc:140-155 | over every run without negative delays timers fire in the order of their deadlines |
| `LoopRuns.EarliestFirst` | platform/schedule/eventloop.cc:140-155 | over every run the timers taken in one pass fire in the order of their deadlines |
| `LoopRuns.PastFiresLate` | platform/schedule/eventloop.cc:91-98 | a timer set with a negative delay fires behind one that was due later |
| `LoopRuns.TimeoutExactly` | platform/schedule/eventloop.cc:157-163 | the wait is unlimited if and only if no task and no timer is queued, and zero with a task |
| `LoopRuns.IdleBlocks` | platform/schedule/eventloop.cc:157-176 | a loop with nothing to do blocks, however late it gets, until something happens |
| `LoopRuns.WakeUpEndsWait` | platform/schedule/eventloop.cc:178-180 | a requested wakeup ends the wait |
| `LoopRuns.DrainEmpties` | platform/linux/schedule/watcher/epoll_wakeup.cc:60-82 | a dispatched wakeup is used up, and the loop goes on |
| `EventCore.PollBackend.RegisterFd` | platform/linux/schedule/poll_backend.cc:73-88 | the table gains or changes exactly that descriptor; the index stays the inverse of the positions |
| `EventCore.PollBackend.UnregisterFd` | platform/linux/schedule/poll_backend.cc:90-107 | the table loses exactly that descriptor through the swap with the last entry |
| `EventCore.LastMoved` | platform/linux/schedule/poll_backend.cc:97-106 | moving the last entry into the gap keeps the index an inverse and every other entry |
| `EventCore.Source.Arm` | platform/linux/schedule/poll_backend.cc:18-32 | an unarmed matching source registers its events |
| `EventCore.Source.Disarm` | platform/linux/schedule/poll_backend.cc:34-48 | an armed matching source unregisters |
| `EventCore.Source.SetEvents` | platform/linux/schedule/poll_backend.cc:50-55 | an armed source updates its table entry |
| `EventCore.Core.Enqueue` | platform/schedule/eventloop_core.cc:11-22 | add and remove only queue |
| `EventCore.Core.ApplyPending` | platform/schedule/eventloop_core.cc:61-103 | outside a dispatch the list becomes the fold of the queued operations; armed sources and the table follow it; inside, nothing changes |
| `EventCore.FoldExact` | platform/schedule/eventloop_core.cc:72-102 | a source is listed if and only if its last operation added it, or it was listed and never touched |
| `EventCore.AppliedNoDuplicates` | platform/schedule/eventloop_core.cc:79-101 | no operation makes a duplicate |
| `EventCore.Core.Dispatch` | platform/schedule/eventloop_core.cc:32-59 | each event goes to the listed source with its descriptor, the list does not change whatever the callbacks do, and what they ask for is queued in order |
| `EventCore.HitsExact` | platform/schedule/eventloop_core.cc:47-56 | with distinct descriptors a source gets exactly its own events |
| `EventCore.Core.EventsReach` | platform/schedule/eventloop_core.cc:47-56 | in every valid core an event reaches exactly the listed source that has its descriptor |
| `EventCore.Core.RunOnce` | platform/schedule/eventloop_core.cc:24-30 | dispatch, then apply what was queued before and during it |
| `EventCore.RunIsFold` | platform/schedule/eventloop_core.cc:24-103 | after any run the list is the fold of all additions and removals in the order in which they were asked for, whatever was applied when |
| `EventCore.ListedAfterRun` | platform/schedule/eventloop_core.cc:61-103 | after any run a source is listed if and only if it was added last rather than removed |
| `EventCore.Core.PolledAfterRun` | platform/linux/schedule/poll_backend.cc:18-107 | after any run a poll source is polled if and only if it was added last, and for the events it asked for last |
| `EventCore.Run` | platform/schedule/eventloop_core.cc:24-59 | over every run of a fresh loop the hits, the list and the sources' states follow from the commands, the raw events and what the callbacks do |
| `AsyncStream.AsyncQueue.Push` | example/tcp_server_async_example/library/include/asyncnet.h:33-45 | an open queue takes the item and schedules its waiter once; a closed one takes nothing |
| `AsyncStream.AsyncQueue.Close` | example/tcp_server_async_example/library/include/asyncnet.h:47-58 | closing schedules the waiter once |
| `AsyncStream.AsyncQueue.Suspend` | example/tcp_server_async_example/library/include/asyncnet.h:66-69 | a consumer waits only on an empty open queue |
| `AsyncStream.AsyncQueue.Take` | example/tcp_server_async_example/library/include/asyncnet.h:70-76 | the oldest item, or none if and only if empty |
| `AsyncStream.Stream.AtMostOneInside` | example/tcp_server_async_example/library/src/asyncnet.cc:144-188 | at most one sender is in the critical section, counting scheduled handovers |
| `AsyncStream.Stream.AdmittedInOrder` | example/tcp_server_async_example/library/src/asyncnet.cc:145-160 | senders are admitted in the order in which they reached the lock |
| `AsyncStream.Stream.SendAll` | example/tcp_server_async_example/library/src/asyncnet.cc:144-163 | a sender enters a free lock at once and otherwise waits last |
| `AsyncStream.Stream.TurnIsHolders` | example/tcp_server_async_example/library/src/asyncnet.cc:145-183 | among any coroutines scheduled on the worker, a sender of the stream is resumed only while it holds the lock, or has been handed it |
| `AsyncStream.Stream.Resume` | example/tcp_server_async_example/library/src/asyncnet.cc:145-183 | the scheduled coroutine goes on: past the lock with its bytes appended, or in the sending loop; a coroutine of others changes nothing here |
| `AsyncStream.Stream.TrySend` | example/tcp_server_async_example/library/src/asyncnet.cc:165-187 | accepted bytes leave the front of the buffer; an error closes the queue and leaves; a full socket parks the sender |
| `AsyncStream.Stream.Finish` | example/tcp_server_async_example/library/src/asyncnet.cc:247-255 | the lock passes to the longest waiting sender or becomes free |
| `AsyncStream.Stream.OnSendReady` | example/tcp_server_async_example/library/src/asyncnet.cc:236-240 | a parked sender is woken |
| `AsyncStream.Stream.OnClosed` | example/tcp_server_async_example/library/src/asyncnet.cc:211-235 | a parked sender is woken and the queue closed |
| `AsyncStream.RunTells` | example/tcp_server_async_example/library/src/asyncnet.cc:144-188 | after every run the calls are the run's call events that took effect, in order, and the wire is the concatenation of what the socket's answers accepted |
| `AsyncStream.Stream.Handle` | example/tcp_server_async_example/library/src/asyncnet.cc:144-255 | each event takes the stream to its next state as a value, and yields what the socket accepted at it |
| `AsyncStream.Replay` | example/tcp_server_async_example/library/src/asyncnet.cc:144-188 | over every run, the run's accepted bytes plus what is left are the bytes of the run's calls that have entered, one call after the other |
| `StreamRuns.FreeMeansSent` | example/tcp_server_async_example/library/src/asyncnet.cc:144-188 | over every run of an attached stream without a broken socket, an empty answer or a lost connection, a free lock means that the socket has accepted all bytes of all calls |
| `StreamRuns.LeavesUnsentExactly` | example/tcp_server_async_example/library/src/asyncnet.cc:165-187 | at every moment a sender leaves with bytes unsent if and only if trySend broke or answered nothing, or it comes to a closed queue without signals |
| `StreamRuns.ClosedMeansGivenUp` | example/tcp_server_async_example/library/src/asyncnet.cc:165-235 | the queue is closed only after a broken socket or a lost connection |
| `StreamRuns.ErrorLeavesBytes` | example/tcp_server_async_example/library/src/asyncnet.cc:165-171 | a run in which a broken socket leaves two of three bytes behind and the queue closed |
| `StreamRuns.NothingLeavesBytes` | example/tcp_server_async_example/library/src/asyncnet.cc:184-187 | one in which an empty answer leaves them behind and the queue open |
| `StreamRuns.GoneLeavesBytes` | example/tcp_server_async_example/library/src/asyncnet.cc:178-235 | one in which a lost connection wakes the parked sender, which leaves them behind |
| `StreamRuns.SignalWakes` | example/tcp_server_async_example/library/src/asyncnet.cc:211-240 | a signal or the end of the connection schedules the parked sender |
| `StreamRuns.SignalsKept` | example/tcp_server_async_example/library/src/asyncnet.cc:178-240 | a signal that nobody waits for is kept, and the next sender that would wait takes it |
| `StreamRuns.TurnResumes` | example/tcp_server_async_example/library/src/asyncnet.cc:145-183 | the worker's turn takes the sender in question past the lock with its bytes, or back to sending |
| `StreamRuns.AllCanBeSent` | example/tcp_server_async_example/library/src/asyncnet.cc:144-188 | from every moment of every such run, turns of the worker and answers of the socket can bring all bytes on the wire: nobody is stuck |
| `Skyline.ShadowKeepsTheRest` | vg/nanovg/fontstash.h:630-646 | cutting a shadow leaves the columns behind it as they were |
| `Skyline.MergedKeepsColumns` | vg/nanovg/fontstash.h:648-655 | joining equal neighbours changes no column |
| `Skyline.MergedLevelsDiffer` | vg/nanovg/fontstash.h:648-655 | and leaves no two neighbours of one level |
| `Skyline.SpanRaises` | vg/nanovg/fontstash.h:623-646 | a new span with its shadow cut raises exactly its columns |
| `Skyline.PeakExact` | vg/nanovg/fontstash.h:660-679 | the resting height is the maximum of the columns below |
| `Skyline.PackOneMore` | vg/nanovg/fontstash.h:681-711 | a rectangle on its resting place overlaps none handed out before |
| `Atlas.FontAtlas.InsertNode` | vg/nanovg/fontstash.h:572-590 | the node list with the node inserted, in place or in a doubled array |
| `Atlas.FontAtlas.RemoveNode` | vg/nanovg/fontstash.h:592-599 | the node list without that node |
| `Atlas.FontAtlas.CutShadow` | vg/nanovg/fontstash.h:630-646 | the first loop ends and leaves the tail outside the shadow |
| `Atlas.FontAtlas.MergeLevels` | vg/nanovg/fontstash.h:648-655 | the second loop ends, keeps all columns and leaves no equal neighbours |
| `Atlas.FontAtlas.AddSkylineLevel` | vg/nanovg/fontstash.h:623-658 | columns [x, x + w) become y + h and no other column changes |
| `Atlas.FontAtlas.RectFits` | vg/nanovg/fontstash.h:660-679 | the maximal column height under the rectangle, or -1 if and only if it does not fit |
| `Atlas.FontAtlas.ChooseSpan` | vg/nanovg/fontstash.h:681-698 | the first of the fitting spans with least top, then least width |
| `Packing.ChoiceOrRefusal` | vg/nanovg/fontstash.h:681-701 | no choice if and only if no span fits, or the sole full-width span fits exactly flush |
| `Packing.BottomLeftUnique` | vg/nanovg/fontstash.h:686-701 | the bottom-left choice is one answer |
| `Packing.PlacedBottomLeft` | vg/nanovg/fontstash.h:686-711 | every rectangle goes where it rests lowest, of those places on the narrowest span, of those on the first; it is refused if and only if it rests nowhere, or flush on the only span |
| `Packing.FlushIsRefused` | vg/nanovg/fontstash.h:682-701 | in an empty atlas a rectangle as high as the atlas fits and is refused |
| `Packing.PlacedOk` | vg/nanovg/fontstash.h:703-711 | placing at the best span keeps the skyline a chain of the atlas's width within its height |
| `Atlas.FontAtlas.AddRect` | vg/nanovg/fontstash.h:681-711 | places at the bottom-left choice in terms of the columns alone, disjoint from all others, raising just its columns, or refuses and changes nothing |
| `Atlas.FontAtlas.Reset` | vg/nanovg/fontstash.h:610-621 | a flat skyline without rectangles |
| `Atlas.FontAtlas.Expand` | vg/nanovg/fontstash.h:601-608 | new empty columns at the right; rectangles stay |
| `Packing.AnswerAt` | vg/nanovg/fontstash.h:601-711 | answer k of a run is the one of the skyline after the first k requests |
| `Atlas.Replay` | vg/nanovg/fontstash.h:601-711 | over every run of additions, expansions and resets each request is answered as the skyline of its moment says; the rectangles handed out are those of the answers since the last reset, inside and pairwise disjoint |
| `GlyphCache.Find` | vg/nanovg/fontstash.h:1096-1109 | the chain walk ends and finds what a scan of the array finds |
| `GlyphCache.InsertKeepsChains` | vg/nanovg/fontstash.h:1149-1159 | inserting keeps every chain complete, strictly decreasing and free of duplicate keys |
| `GlyphCache.BitmapKeepsChains` | vg/nanovg/fontstash.h:1160-1164 | giving a glyph its bitmap leaves the chains alone |
| `GlyphCache.BitmapsApart` | vg/nanovg/fontstash.h:1133-1164 | cached bitmaps with rectangles of their own share no texel |
| `GlyphCache.ServedOk` | vg/nanovg/fontstash.h:807-1171 | every request keeps every font's chains complete, strictly decreasing and free of duplicate keys |
| `GlyphAnswers.LookUpIsHonoured` | vg/nanovg/fontstash.h:1076-1171 | told by glyphs and rectangles alone: an answered look-up has its key, a required one a bitmap on a rectangle of its own, new only if the cache had none and then of the padded size, and no other glyph changes; a missed one found neither a bitmap nor room, not even in the atlas that the error callback has made larger |
| `GlyphStash.Stash.GetGlyph` | vg/nanovg/fontstash.h:1076-1171 | a sufficient cached glyph is returned unchanged; otherwise one glyph is settled, on a fresh rectangle if a bitmap is required, after one retry if the error callback expands the atlas; missing if and only if too small or the atlas still refuses |
| `GlyphStash.Stash.AddFont` | vg/nanovg/fontstash.h:944-960 | a new font starts with empty chains |
| `GlyphStash.Stash.ResetTo` | vg/nanovg/fontstash.h:1744-1789 | all caches are empty and the atlas starts over |
| `GlyphStash.Stash.ExpandTo` | vg/nanovg/fontstash.h:1688-1742 | the atlas grows and the cache stays valid |
| `GlyphStash.Stash.ResetFallbackFont` | vg/nanovg/fontstash.h:807-816 | one font loses its glyphs |
| `GlyphStash.Stash.NoTexelTwice` | vg/nanovg/fontstash.h:1076-1171 | no two cached bitmaps of any fonts share a texel, and no font has a key twice |
| `GlyphStash.Session` | vg/nanovg/fontstash.h:807-1171 | over every run of requests each is answered as the caches and the skyline of its moment say and as the request demands; at every moment the chains agree with the arrays, every bitmap has its rectangle, and no two share a texel |
| `LineBreaker.KindOf` | vg/nanovg/nanovg.c:2670-2698 | exactly eight codepoints are blanks; a newline is LF not behind CR, CR not behind LF, or NEL |
| `LineBreaker.TakeGlyph` | vg/nanovg/nanovg.c:2739-2808 | a glyph inside a row extends, breaks or ends it as `LineBreaker.Step` says |
| `LineBreaker.BreakLines` | vg/nanovg/nanovg.c:2623-2827 | the first maxRows of the rows of the whole text |
| `LineRows.AllRowsAreLines` | vg/nanovg/nanovg.c:2664-2826 | the rows follow each other, leave out only blanks, and end at a newline, at the end, or because the next word does not fit; nothing visible and no newline is left behind the last |
| `LineRows.TooFarExactly` | vg/nanovg/nanovg.c:2761-2807 | from left to right, a visible glyph behind the first of a row ends beyond the width if and only if a break opened the row, that glyph triggered the break, and the word up to it is too wide |
| `LineRows.TooFarIsLast` | vg/nanovg/nanovg.c:2761-2807 | that glyph is the last visible one of its row |
| `LineRows.OverfullExactly` | vg/nanovg/nanovg.c:2761-2807 | a row is too wide if and only if the break before it carried too much |
| `LineRows.WordsFitRowsFit` | vg/nanovg/nanovg.c:2761-2807 | if every word is no wider than the width, every glyph of every row fits, first and last included |
| `LineBatches.OverfullRow` | vg/nanovg/nanovg.c:2761-2807 | a text with a row that is too wide although its glyphs on their own give two rows |
| `LineRows.ExactFit` | vg/nanovg/nanovg.c:2761-2807 | a row exactly as wide as the width is not broken |
| `LineRows.RowsOrdered` | vg/nanovg/nanovg.c:2664-2826 | rows are ordered and disjoint, and next strictly advances |
| `LineRows.VisibleInSomeRow` | vg/nanovg/nanovg.c:2664-2826 | every visible glyph before the last next is in a row |
| `LineRows.VisibleInOneRow` | vg/nanovg/nanovg.c:2664-2826 | and in only one |
| `LineRows.RowsShowAll` | vg/nanovg/nanovg.c:2664-2826 | the rows' visible glyphs are the text's, in order |
| `LineBatches.RestartExactly` | vg/nanovg/nanovg.c:2556-2568 | a call that starts behind a row gives the rest of the rows if and only if the boundary is clean: no pair torn apart, no carried word that is too wide up to the glyph that broke |
| `LineBatches.CleanLeftToRight` | vg/nanovg/nanovg.c:2761-2807 | from left to right that is one comparison of the word with the width |
| `LineBatches.BatchedExactly` | vg/nanovg/nanovg.c:2556-2568 | batches of any size give the rows of one call if and only if every batch ends at a clean boundary |
| `LineBatches.TextBoxExactly` | vg/nanovg/nanovg.c:2556-2568 | the same for the box's batches of two, wherever each call's coordinates begin |
| `LineBatches.TornPair` | vg/nanovg/nanovg.c:2556-2568 | a text with CR LF for which the box draws one more row |
| `LineBatches.MeasuredAgain` | vg/nanovg/nanovg.c:2556-2568 | a text without a pair for which the box draws other rows |
| `LineBatches.TextBox` | vg/nanovg/nanovg.c:2556-2568 | the loop ends and draws every visible glyph of the text once and in order |
| `VertexBudget.CalculateJoins` | vg/nanovg/nanovg.c:1658-1725 | a corner is bevelled if and only if it is beyond the miter limit or the join is not mitered; nbevel counts the points with a flag; convex if and only if all turns are left |
| `VertexBudget.CountsBevelled` | vg/nanovg/nanovg.c:1717-1718 | nbevel is the number of points flagged |
| `VertexBudget.JoinsExactly` | vg/nanovg/nanovg.c:1806-1818 | two vertices for every point, six more for a bevel, eight more for an inner bevel alone |
| `VertexBudget.RoundJoinsWithin` | vg/nanovg/nanovg.c:1450-1509 | round joins write two vertices for every point and from six to 2 ncap + 2 more for one with a flag |
| `VertexBudget.StrokeExactly` | vg/nanovg/nanovg.c:1783-1843 | the joins of all points of a loop or the inner ones of a line, and two closing vertices or two caps |
| `VertexBudget.FillExactly` | vg/nanovg/nanovg.c:1889-1921 | two vertices for a bevelled right turn and one for any other point |
| `VertexBudget.EmitRoundJoin` | vg/nanovg/nanovg.c:1450-1509 | exactly 4 + 2 clamp(steps, 2, ncap) vertices, nothing before them changed |
| `VertexBudget.EmitBevelJoin` | vg/nanovg/nanovg.c:1511-1582 | exactly eight or ten vertices |
| `VertexBudget.EmitCap` | vg/nanovg/nanovg.c:1584-1655 | exactly four, or 2 ncap + 2 for round caps |
| `VertexBudget.StrokeWithin` | vg/nanovg/nanovg.c:1748-1765 | the stroke of a path takes no more than its share of cverts, for all flags, caps and joins |
| `VertexBudget.FillWithin` | vg/nanovg/nanovg.c:1863-1870 | fill and fringe take no more than their share |
| `VertexBudget.ExpandStroke` | vg/nanovg/nanovg.c:1728-1850 | joins calculated, all writes are inside cverts; each path owns the vertices of its range, right behind the path before |
| `VertexBudget.ExpandFill` | vg/nanovg/nanovg.c:1852-1970 | the same for fills with their fringes |
| `VertexBudget.StrokesApart` | vg/nanovg/nanovg.c:1783-1846 | ranges of different paths do not overlap |
| `VertexBudget.FillsApart` | vg/nanovg/nanovg.c:1876-1966 | nor do the fills and fringes of one path or of different ones |
| `Bits.BitReverse16IsMsf` | vg/nanovg/stb_image.h:3473-3480 | the four swaps reverse sixteen bits |
| `Bits.BitReverseIsMsf` | vg/nanovg/stb_image.h:3482-3488 | reversing and shifting reverses the low n bits |
| `CanonicalCode.PrefixFree` | vg/nanovg/stb_image.h:3495-3515 | at most one canonical code leads a stream |
| `CanonicalCode.AcceptedIsKraft` | vg/nanovg/stb_image.h:3501-3515 | length lists are accepted if and only if they satisfy the Kraft inequality |
| `CanonicalCode.NextCode` | vg/nanovg/stb_image.h:3501-3515 | by length, then by symbol, each code is the one before plus one with zeros appended (section 3.2.2 of RFC 1951) |
| `CanonicalCode.FirstCode` | vg/nanovg/stb_image.h:3501-3515 | and the first is all zeros |
| `ZStream.BitReader.FillBits` | vg/nanovg/stb_image.h:3563-3570 | more than 24 bits are buffered and the stream is the same |
| `ZStream.BitReader.Receive` | vg/nanovg/stb_image.h:3572-3580 | the next n bits, and the stream behind them |
| `ZHuffman.Table.Build` | vg/nanovg/stb_image.h:3490-3535 | succeeds if and only if the lengths are accepted, and then the tables hold the canonical code |
| `ZHuffman.Table.FastEntry` | vg/nanovg/stb_image.h:3517-3532 | a fast entry is the one matching symbol and its length; no entry means no code of up to nine bits matches |
| `ZHuffman.Table.DecodeSlow` | vg/nanovg/stb_image.h:3582-3598 | the slow path finds the matching long code or none |
| `ZHuffman.Table.Decode` | vg/nanovg/stb_image.h:3600-3612 | the one symbol whose canonical code leads the stream, consuming exactly that code, or -1 if and only if there is none |
| `ZHuffman.EncodedLeads` | vg/nanovg/stb_image.h:3600-3612 | an encoded sequence decodes symbol by symbol |
| `ZHuffman.DecodeAll` | vg/nanovg/stb_image.h:3600-3612 | decoding inverts encoding for whole sequences, and stops right behind them |
| `PngFilter.PaethNearest` | vg/nanovg/stb_image.h:3966-3975 | the first of left, above, upper left that is nearest to the estimate |
| `PngFilter.PredictExact` | vg/nanovg/stb_image.h:4044-4077 | the prediction of each filter type (section 9.2 of the PNG Specification) |
| `PngFilter.EncodeInjective` | vg/nanovg/stb_image.h:4000-4079 | a filtered stream determines filter types and rows |
| `PngDecode.SampleAdds` | vg/nanovg/stb_image.h:4044-4077 | each case adds the filter's prediction; the first-row filters act as over a zero row |
| `PngDecode.FirstSampleAdds` | vg/nanovg/stb_image.h:4016-4030 | the same for the first pixel |
| `PngDecode.DecodeRow` | vg/nanovg/stb_image.h:4000-4079 | a row in place, with or without inserted alpha, that filters to the line read |
| `PngDecode.CreateRaw` | vg/nanovg/stb_image.h:3980-4079 | succeeds if and only if the data are a filtered image, and then the output is that image with alpha 255 |
| `Adam7.CellsExact` | vg/nanovg/stb_image.h:4173-4175 | the pass size is the number of its cells inside, through the unsigned wrap-around |
| `Adam7.PixelHasCell` | vg/nanovg/stb_image.h:4167-4189 | every pixel comes from a cell of a pass |
| `Adam7.CellHasPixel` | vg/nanovg/stb_image.h:4167-4189 | every cell goes inside the image, and no two to the same pixel |
| `Adam7.PassIsPattern` | vg/nanovg/stb_image.h:4167-4171 | the pass of every pixel is that of the 8 by 8 pattern (section 8.2 of the PNG Specification) |
| `Adam7.CopyPass` | vg/nanovg/stb_image.h:4182-4189 | the pass's pixels get their places and no other pixel changes |
| `Adam7.Deinterlace` | vg/nanovg/stb_image.h:4158-4198 | succeeds if and only if every non-empty pass is a filtered image, and then every pixel is that of its pass |
| `Adam7.Reassembled` | vg/nanovg/stb_image.h:4158-4198 | de-interlacing data that hold the passes of an image gives the image |

## Left out

- C++ weak-memory orderings, races on `std::function` moves, and overflow of the deque's 64-bit indices.
- Capacity.RoundUpPow2: requires x ≤ 2^63, because beyond that the source's loop does not end (`LoopEndsExactly`).
- Hive: a push or pop of the owner, with its remainingSpace, is one step, as TaskDeque proves that it takes effect at one point; a steal is two, the claim and the read.  After a task has been destroyed, which claim gets which task is not stated.
- Hive: when threads are scheduled and which sleeping worker a post wakes, approximate size counters, and StopWorker commands, which no code sends; the number of steals that an approximate size allows is arbitrary.
- EventLoop: `timers_` is a sorted list; where equal deadlines are ordered is an argument of the event.  Other descriptors only make the wait return.
- EventCore: the mutex, and the backends other than poll; `wait` is represented by the raw events it reports.
- AsyncStream: what other coroutines on the worker do but being scheduled, cross-thread parking, `bind` after construction, the receiving half, and the lifetime of coroutine frames.
- Atlas: sizes within the range of `short`, width at least one, rectangles with positive sides; allocation failure.
- GlyphCache: an error callback that resets the atlas in the middle of a look-up, blurs so negative that no texel is left, rasterisation, fallback fonts beyond the cached key, and the mixing function (any one will do).
- LineBreaker: recorded row widths and bounds.  LineRows.TooFarExactly and what follows from it are about glyph cells from left to right.
- VertexBudget: coordinates; the geometric tests are arbitrary flags and step counts.  Reads of path points are not modelled.
- ZHuffman: the inflate loop, stored blocks and window copies around the Huffman decoder.
- PngDecode.CreateRaw: does not model 32-bit wrap-around of the size computations, because the loader rejects images that large; depths below eight, expansion to 16 bits, palettes and transparency are not part of this model.
- Adam7.Deinterlace: the result is a two-dimensional array of pixels instead of a flat buffer.
- JPEG, GIF and other loaders, TrueType, GL, Wayland, Win32, kqueue, sockets, logging and tracing.
