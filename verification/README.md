# Verification of the timer queue, LRU cache, file transfer, thread pool, rate limiter and algorithms

A Dafny model of the stateful core of the repository, with proofs about whole runs of it. `dafny verify dfyconfig.toml`
checks everything.

## What is modelled

**Timer queue** (`timer_*.dfy`). A scheduler with two indexes over the same timers, one one-shot alarm, manual `delete`
and callbacks that add and stop timers while an expired batch is outside both indexes. `TimerSpec` gives each operation
as a function on a value `Queue`; memory is the explicit map `store` from addresses to live timers, so deleting,
address reuse and reading a deleted timer are real (the last is an error Dafny refuses). `TimerSystem` is the
state machine: `Do(op)` at any moment, `Begin` (up to the first callback), `StartNext` (the next callback is entered),
`End` (`Reset`). The log records created, started and deleted timers. `TimerQueues.TimerQueue` is the class; each of its
methods is proved to make the step of the state machine, so the theorems over runs are theorems about it.

**LRU cache** (`lru_*.dfy`). The hand-written doubly linked list and its map on the heap, refined to a list of items;
then theorems over whole traces of get and put, one of them about two caches that replay the same trace.

**Chunked file transfer** (`transfer_*.dfy`). First imperatively: the loops over partial sends and receives, the frames,
the chunk loops of both sides. There a connection holds what the peer has sent or is still to send; the kernel decides how
much of it has arrived at each call, so a receiving loop may wait between calls, but what will come is given beforehand.
Then as two processes over two byte channels, where the kernel decides how many bytes each call moves and the two sides
interleave freely; only there do bytes depend on what the other side did before. `TransferSession` is a session of several
files requested over one connection, and `TransferTraces` shows that the two sides of a schedule move what the methods move.

**Thread pool** (`thread_pool*.dfy`). The task list with its index of iterators by descriptor, as the code under the lock
changes them, and a state machine with one step for every region under the lock and every atomic update, for any number of
producers and up to 16 workers. `ThreadPoolRuns` lets a wait return whenever its predicate holds; `ThreadPoolWakeups` adds
the condition variable, with sleeping workers, notifications that can be lost and wakeups for no reason.

**Token bucket** (`token_bucket.dfy`). The limiter over real permits, with the truncation of the conversion to an unsigned
integer, and claims of any sign. Its whole-run bounds are proved on the same bucket counted in time, where they are linear.

**Algorithms** (`k_smallest_pairs.dfy`, `quick_sort.dfy`, `heap_sort.dfy`, `sorting.dfy`, `jump.dfy`).

## What the code does not do

* The alarm is in time over all runs exactly when passes see a clock after the epoch (`AlarmInTimeIffClockAfterEpoch`).
  One pass with such a clock restores an alarm that earlier passes lost (`OnePassRestoresTheAlarm`).
* The comment at `test/146.cc:7` says that a put on a present key changes the value; the code only moves the node. A get
  after a put returns the value put exactly when the key was absent or already had it (`GetAfterPut`).
* `HeapSort` takes a start but indexes from 0: it sorts the range it is given, for every array, exactly when the range
  starts at 0 or has fewer than two places (`SortsEveryIff`).
* The limiter replaces a limit that is not positive by 1 but still divides the window by the given one: permits cost time
  exactly when window and limit have the same sign (`Configure`). With a window of 0 the limiter allows everything
  (`ZeroWindowAllowsEverything`): for an interval that is not negative there is a bound on claims at all exactly when it is
  positive (`LimitsIff`).
* The limiter lets a negative claim through, which adds to the store without looking at the limit. From a claim on, made
  at any time, the rate bound holds for all calls exactly if the claim did not lift the store above the limit
  (`ClaimKeepsRateBoundIff`).
* `_idlThrNum`, a count of idle threads, can be negative (`IdleCountCanBeNegative`): exactly while a started worker is not
  counted yet and every worker is between its decrement and its increment (`IdleCountNegativeIff`).
* The destructor of the thread pool clears `_run` and notifies without the lock, so a worker can fall asleep after that
  notification: exactly a worker that at that moment was about to sleep, having seen `_run` set
  (`ShutdownWakeupIsLostIff`). Such a sleep has no end, and join waits for ever, exactly if no call of `AddTask` is left that
  could notify (`EndlessIff`, `JoinCanWaitForEverIff`).

## Model

| member | source | states |
|---|---|---|
| `TimerStamps.HowMuchTimeFromNow` | timerfd/timer_queue.cpp:17-28 | the delay is a well-formed timespec, and now plus the delay is the expiration or, if that is nearer, now + 100 us |
| `TimerStamps.Delta` | timerfd/timer_stamp.h:62-66 | a non-negative interval in seconds becomes the whole number of microseconds just below it |
| `TimerSpec.InsertEntry` | timerfd/timer_queue.cpp:141-148 | the ordered set gains exactly that entry and stays sorted; an entry reported as the new earliest comes first, and one not reported leaves the earliest time as it was |
| `TimerSpec.EraseEntry` | timerfd/timer_queue.cpp:111 | erasing by key from the ordered set removes exactly that entry and keeps the order |
| `TimerSpec.UpperBound` | timerfd/timer_queue.cpp:124-125 | the bound separates the entries with expiration <= now from the later ones |
| `TimerSpec.Allocate` | timerfd/timer_queue.cpp:69 | the address of a new timer is free, and every free address is a possible choice |
| `TimerInvariant.OneTimerPerId` | timerfd/timer.h:11-17 | two live timers never share a sequence number |
| `TimerInvariant.SizesAgree` | timerfd/timer_queue.cpp:118 | the two indexes have the same size wherever the ownership invariant holds, as the code asserts |
| `TimerInvariant.InsertKeepsOwned` | timerfd/timer_queue.cpp:136-153 | inserting a timer that is in neither index nor the batch keeps the ownership invariant |
| `TimerInvariant.AddTimerKeepsOwned` | timerfd/timer_queue.cpp:67-72 | adding a timer, also from a callback and at a reused address, keeps the ownership invariant |
| `TimerInvariant.EraseRemovesTimer` | timerfd/timer_queue.cpp:111 | the erase by reconstructed key always hits, and removes the one entry of that timer and no other |
| `TimerInvariant.StopTimerKeepsOwned` | timerfd/timer_queue.cpp:107-119 | cancelling, inside or outside a pass, keeps the ownership invariant |
| `TimerInvariant.GetExpiredKeepsOwned` | timerfd/timer_queue.cpp:122-135 | moving the expired timers out of both indexes keeps the invariant, with them as the batch |
| `TimerInvariant.SettleKeepsOwned` | timerfd/timer_queue.cpp:157-167 | one iteration of Reset returns the head of the batch to both indexes or deletes it, and keeps the invariant |
| `TimerSystem.Next` | timerfd/timer_queue.cpp:56-175 | every step of every phase keeps the invariant of the system: ownership, the calling flag, and a batch of timers due |
| `TimerSystem.RunOneMoreCall` | timerfd/timer_queue.cpp:91-93 | the steps of one more callback continue the run of the callbacks before |
| `TimerOwnership.EveryTimerHasOneOwner` | timerfd/timer_queue.cpp:56-175 | after every run, inside callbacks too, each created timer is in exactly one of the indexes, the batch and the deleted; it is deleted at most once, and nothing happens to it afterwards |
| `TimerOwnership.IndexesAgree` | timerfd/timer_queue.cpp:107-153 | after every run both indexes hold the same timers and have the same size: each set entry carries the present expiration of its timer, each map key is the sequence number of its timer |
| `TimerOwnership.DestructorDeletesEveryTimer` | timerfd/timer_queue.cpp:62-64 | the destructor, run between passes after any run, deletes exactly what is left, none twice: every timer ever created is then deleted exactly once |
| `TimerFiring.PassStartsExactlyTheExpired` | timerfd/timer_queue.cpp:81-97 | a pass at now starts exactly the timers indexed at entry with expiration <= now, each once, in (expiration, pointer) order, whatever callbacks do; it can end only after all of them |
| `TimerFiring.StartsAreSpaced` | timerfd/timer.cpp:5-13 | over every run a one-shot timer starts at most once, and two starts of a periodic timer are at least its interval apart |
| `TimerFiring.SettleKeepsFiring` | timerfd/timer_queue.cpp:157-167 | Reset restarts a timer only at least its interval after its last start |
| `TimerRetention.PassEndDisposes` | timerfd/timer_queue.cpp:155-167 | when a pass ends, each timer of the batch that is periodic and was not cancelled is in both indexes again with its id and interval, due its interval after the clock of the pass, rounded down to the microsecond, and each other one is deleted |
| `TimerRetention.UnstoppedTimerStays` | timerfd/timer_queue.cpp:107-167 | no timer is lost: over any run without a stop of its id, a periodic timer stays in the indexes or a batch, and a one-shot one stays or has started |
| `TimerCancellation.StoppedBetweenPassesNeverStarts` | timerfd/timer_queue.cpp:107-113 | after StopTimer of an issued id outside a pass the timer never starts again, however the run goes on |
| `TimerCancellation.StoppedDuringPassStartsAtMostOnce` | timerfd/timer_queue.cpp:107-119 | after StopTimer inside a pass it starts at most once more, only if it is later in the batch, and never after that pass, even if periodic |
| `TimerCancellation.SettleKeepsStopped` | timerfd/timer_queue.cpp:159-166 | Reset never puts a stopped timer of the batch back |
| `TimerAlarm.AlarmIsInTime` | timerfd/timer_queue.cpp:17-38 | between passes, whenever a timer waits, the alarm is armed no later than max(earliest expiration, last arming + 100 us), after cancellations, early wakeups and additions from callbacks |
| `TimerAlarm.OnePassRestoresTheAlarm` | timerfd/timer_queue.cpp:83-97 | after one pass with a clock after the epoch the alarm is in time again, whatever earlier passes saw, as long as later ones see such a clock |
| `TimerAlarm.NextKeepsAlarm` | timerfd/timer_queue.cpp:99-175 | every step keeps the alarm invariant |
| `TimerAlarm.AlarmInTimeIffClockAfterEpoch` | timerfd/timer_queue.cpp:169-174 | over all runs whose passes see the clock at a given time, the alarm stays in time if and only if that time is after the epoch |
| `TimerAlarm.AlarmLostBeforeTheEpoch` | timerfd/timer_queue.cpp:171 | before the epoch there is a run that leaves a timer waiting with no alarm |
| `TimerAlarm.AlarmLostAtTheEpoch` | timerfd/timer_queue.cpp:171 | at the epoch there is a run, with an interval below a microsecond, that leaves a timer waiting with no alarm |
| `TimerEffects.AlarmAfterStep` | timerfd/timer_queue.cpp:17-38 | after every step, exactly what the alarm is: armed for max(expiration, now + 100 us) of a timer added before all others and, at the end of a pass, of the earliest timer with a valid stamp; acknowledged by a pass that begins after its deadline; otherwise as it was |
| `TimerEffects.AddAddsOneTimer` | timerfd/timer_queue.cpp:67-72 | an addition on any queue puts a timer with the expiration and the interval asked for and the next id in both indexes, at a free address, and leaves every other timer as it was |
| `TimerEffects.StopRemovesOneTimer` | timerfd/timer_queue.cpp:107-119 | a cancellation takes exactly that timer out of both indexes and deletes it; with any other id only the note of a cancellation during a pass is taken |
| `TimerEffects.StartIsLogged` | timerfd/timer_queue.cpp:91-93 | the next callback is that of the next timer of the batch, and its start is logged with id, interval and the clock of the pass |
| `TimerQueues.TimerQueue.constructor` | timerfd/timer_queue.cpp:48-55 | the empty queue between passes, not calling |
| `TimerQueues.TimerQueue.ResetTimerfd` | timerfd/timer_queue.cpp:29-38 | the alarm is armed for the expiration, or for 100 us from now if that is later |
| `TimerQueues.TimerQueue.InsertTimer` | timerfd/timer_queue.cpp:136-153 | both indexes gain the timer; the result is true if and only if it is earlier than every other entry |
| `TimerQueues.TimerQueue.AddTimerInLoop` | timerfd/timer_queue.cpp:99-106 | the timer is inserted and the alarm re-armed exactly when it is the new earliest |
| `TimerQueues.TimerQueue.CancelInLoop` | timerfd/timer_queue.cpp:107-119 | an indexed timer leaves both indexes and is deleted; another one is noted as cancelling during a pass only |
| `TimerQueues.TimerQueue.NewTimer` | timerfd/timer.h:11-17 | a live timer with a fresh sequence number at a free address |
| `TimerQueues.TimerQueue.AddTimer` | timerfd/timer_queue.cpp:67-72 | makes the step Do(Add) of the state machine and returns the new id |
| `TimerQueues.TimerQueue.StopTimer` | timerfd/timer_queue.cpp:74-78 | makes the step Do(Stop); the sizes of the indexes agree afterwards |
| `TimerQueues.TimerQueue.EraseActive` | timerfd/timer_queue.cpp:130-132 | the map loses exactly the sequence numbers of the expired timers |
| `TimerQueues.TimerQueue.GetExpired` | timerfd/timer_queue.cpp:122-135 | returns the expired prefix of the ordered set and takes it out of both indexes |
| `TimerQueues.TimerQueue.SettleTimer` | timerfd/timer_queue.cpp:159-166 | one timer goes back into both indexes or is deleted |
| `TimerQueues.TimerQueue.SettleTimers` | timerfd/timer_queue.cpp:157-167 | the loop settles the whole batch in order and keeps ownership |
| `TimerQueues.TimerQueue.Reset` | timerfd/timer_queue.cpp:155-175 | the batch is settled timer by timer, then the alarm armed for the earliest timer with a valid stamp |
| `TimerQueues.TimerQueue.BeginReading` | timerfd/timer_queue.cpp:83-90 | makes the step Begin |
| `TimerQueues.TimerQueue.CallTimer` | timerfd/timer.h:19 | the start is logged and the operations of the callback run as steps of the pass |
| `TimerQueues.TimerQueue.CallTimers` | timerfd/timer_queue.cpp:91-93 | the callbacks of the whole batch run in order, each as steps of the pass |
| `TimerQueues.TimerQueue.EndReading` | timerfd/timer_queue.cpp:94-96 | makes the step End |
| `TimerQueues.TimerQueue.HandleRead` | timerfd/timer_queue.cpp:81-97 | a whole pass is the run Begin, then every callback with its operations, then End |
| `TimerQueues.TimerQueue.Destroy` | timerfd/timer_queue.cpp:62-64 | deletes the timers of the ordered set, each of which is live when it is deleted |
| `LruCaches.LRUCache.constructor` | test/146.cc:29-31 | an empty, well-formed cache |
| `LruCaches.LRUCache.InsertHead` | test/146.cc:42-48 | the list stays doubly linked in both directions and gains the node in front |
| `LruCaches.LRUCache.DeleteNode` | test/146.cc:49-54 | the list stays doubly linked and loses exactly that node |
| `LruCaches.LRUCache.MoveToFront` | test/146.cc:35-37 | the node moves to the front, the others keep their order |
| `LruCaches.LRUCache.Get` | test/146.cc:32-41 | list and map stay in bijection, the recency list changes as specified, and the result is the value of the item with that key, or -1 if there is none; no node is allocated or lost |
| `LruCaches.LRUCache.Replace` | test/146.cc:63-67 | a full cache evicts its last key from list and map and reuses that node for the new one |
| `LruCaches.LRUCache.InsertAbsent` | test/146.cc:61-75 | an absent key goes to the front; a node is allocated only below capacity |
| `LruCaches.LRUCache.Put` | test/146.cc:55-76 | list and map stay in bijection, the size stays within the capacity, and the recency list changes as specified |
| `LruTheorems.RunBounded` | test/146.cc:55-76 | after every trace the keys are distinct and no more than the capacity |
| `LruTheorems.ApplyOnKeys` | test/146.cc:32-76 | which keys are cached, and in what order, depends on keys alone |
| `LruTheorems.ApplyKeepsInclusion` | test/146.cc:32-76 | one operation on both caches keeps the smaller list equal to the larger with at most one key removed |
| `LruTheorems.Inclusion` | test/146.cc:32-76 | after every trace the recency list of capacity c is that of capacity c + 1 with at most one key removed |
| `LruTheorems.LargerNeverMisses` | test/146.cc:32-41 | a larger cache never misses where a smaller one hits, for any two capacities and any trace |
| `LruTheorems.SmallerIsSubsequence` | test/146.cc:32-76 | for any two capacities and any trace the smaller recency list is a subsequence of the larger one |
| `LruTheorems.RecencyOrdered` | test/146.cc:32-76 | the unbounded recency list holds exactly the touched keys, strictly ordered by last touch |
| `LruTheorems.CacheIsFirstOfRecency` | test/146.cc:61-75 | the cache is the unbounded recency list cut off at the capacity |
| `LruTheorems.CachedAreMostRecent` | test/146.cc:63-65 | cached keys are strictly ordered by last touch, and every key not cached, evicted ones included, was last touched before all of them |
| `LruTheorems.GetAfterPut` | test/146.cc:55-60 | after any trace, a get after put(k, v) returns v if and only if k was absent or the put that last brought it in had the value v |
| `LruTheorems.PutOnPresentKeyKeepsTheOldValue` | test/146.cc:57-60 | a trace in which a put on a present key leaves the old value |
| `LruTheorems.HitReturnsInsertedValue` | test/146.cc:66-74 | a hit returns the value of the put that last brought the key in |
| `LruTheorems.GetAnswers` | test/146.cc:32-41 | after any trace, a get answers with the value of the put that last brought the key in if the key is cached, and with -1 if it is not |
| `LruTheorems.GetOfOldKeyMisses` | test/146.cc:39-40 | a get of a key that was never touched answers -1, and so does a get of one that as many other keys as the capacity were touched after |
| `TransferFrames.DecodeEncode` | tools/sync_file/epoll_socket/epoll_socket.cpp:62-64 | a 64-bit length survives its eight bytes, negative ones too |
| `TransferFrames.UnframeFrame` | tools/sync_file/epoll_socket/epoll_socket.cpp:59-78 | reading one frame gives back the message and consumes no byte of what follows |
| `TransferFrames.FramesRoundTrip` | tools/sync_file/epoll_socket/epoll_socket.cpp:59-78 | any sequence of messages comes back from the stream of its frames, in order and whole |
| `TransferFrames.ChunksCoverFile` | tools/sync_file/file_operation/sync_file.cpp:72-88 | ceil(len / 2048) chunks, all of 2048 bytes but a last one of 1 .. 2048, that sum to the length and together are the file |
| `TransferFrames.EncodeBytes` | tools/sync_file/epoll_socket/epoll_socket.cpp:73-75 | the eight bytes of a length are its digits to base 256, least significant first, in two's complement |
| `TransferFrames.InfoTells` | tools/sync_file/file_operation/sync_file.cpp:63-69 | the first frame of a reply tells the length of the file and a chunk length of 2048 |
| `TransferSockets.EpollSocket.SendSocket` | tools/sync_file/epoll_socket/epoll_socket.cpp:33-57 | under every choice of partial sends, success means exactly the bytes of the buffer went out, failure means a proper prefix did; without errors it succeeds |
| `TransferSockets.EpollSocket.RecvSocket` | tools/sync_file/epoll_socket/epoll_socket.cpp:8-31 | under every choice of partial receives, success means the buffer holds exactly the next bytes of the stream and no further one was consumed |
| `TransferSockets.EpollSocket.SendBuff` | tools/sync_file/epoll_socket/epoll_socket.cpp:70-78 | success means one frame went out |
| `TransferSockets.EpollSocket.RecvBuff` | tools/sync_file/epoll_socket/epoll_socket.cpp:59-68 | the buffer holds the message of the next frame, and what follows the frame is untouched |
| `SyncFiles.SyncFileTool.ReadFile` | tools/sync_file/file_operation/sync_file.cpp:38-49 | reads the next bytes of the file, fewer than asked for only at its end |
| `SyncFiles.SyncFileTool.WriteFile` | tools/sync_file/file_operation/sync_file.cpp:50-58 | appends the bytes of the buffer |
| `SyncFiles.SyncFileTool.SendChunk` | tools/sync_file/file_operation/sync_file.cpp:79-87 | one iteration sends the next chunk of the file as one frame |
| `SyncFiles.SyncFileTool.SendChunks` | tools/sync_file/file_operation/sync_file.cpp:72-88 | the loop, counted by ceil(len / 2048), sends every chunk and ends at the end of the file |
| `SyncFiles.SyncFileTool.SyncSendFile` | tools/sync_file/file_operation/sync_file.cpp:60-91 | what goes out is the file length, the chunk length and the chunks, framed |
| `SyncFiles.SyncFileTool.RecvInfo` | tools/sync_file/file_operation/sync_file.cpp:104-107 | both numbers arrive as they were sent |
| `SyncFiles.SyncFileTool.RecvChunks` | tools/sync_file/file_operation/sync_file.cpp:109-126 | the loop writes the file that was sent and consumes exactly its frames |
| `SyncFiles.SyncFileTool.SyncRecvFile` | tools/sync_file/file_operation/sync_file.cpp:93-130 | the request goes out, and the file written is the file sent; the stream is consumed exactly |
| `TransferRuns.Next` | tools/sync_file/epoll_socket/epoll_socket.cpp:8-78 | every partial send or receive of either side keeps the invariant that what is on the wire and still to be sent is what the receiver still expects |
| `TransferRuns.ReceivedFileIsSentFile` | tools/sync_file/file_operation/sync_file.cpp:60-130 | under every schedule, when both sides have finished, the written file is the content of the requested one, or empty if there is none of that name, and both channels are empty |
| `TransferRuns.WrittenIsPrefix` | tools/sync_file/file_operation/sync_file.cpp:117-126 | at every moment what is written is a prefix of the file, and no frame overruns its buffer |
| `TransferSession.ClientDoneIsComplete` | tools/sync_file/file_operation/sync_file.cpp:93-130 | when the client has ended its loop, the server has ended its own, both channels are empty and the file is the one requested |
| `TransferSession.EveryFileArrives` | tools/sync_file/client/main.cpp:11-18 | over a session of any list of names, under every schedule, the files written are the contents of the files requested, or empty for names of no file, in order, and between transfers the channels are empty |
| `TransferSession.SessionGoesOn` | tools/sync_file/client/main.cpp:11-18 | until all files have arrived, bytes can move or the next file can be requested |
| `TransferSession.SessionEnds` | tools/sync_file/client/main.cpp:11-18 | no run of a session has more effective steps than there was work at its start: bytes of all transfers, and one for each request |
| `TransferRuns.SomeoneCanMove` | tools/sync_file/epoll_socket/epoll_socket.cpp:8-57 | until both sides have finished one of them can move a byte |
| `TransferRuns.StepsUseUpWork` | tools/sync_file/epoll_socket/epoll_socket.cpp:8-57 | every move of bytes uses up work, so no schedule moves bytes for ever |
| `TransferTraces.SidesMoveWhatMethodsMove` | tools/sync_file/file_operation/sync_file.cpp:60-130 | under every schedule each side sends and receives a beginning of the bytes that its method is proved to send and receive, and all of them in the end |
| `TransferTraces.AnyShareMoves` | tools/sync_file/epoll_socket/epoll_socket.cpp:8-57 | at any moment the kernel may move any number of the bytes a call has still to move, up to all of them, and exactly those bytes move; a side that asks for more than has arrived waits |
| `TaskLists.EnqueueAgrees` | socket/epoll/threadpool.h:71-76 | a new task is appended to the queue and to the index of its descriptor, which keep agreeing |
| `TaskLists.TakeAgrees` | socket/epoll/threadpool.h:118-122 | the front of the index list is the front of the queue: the two pop_front calls remove the same node |
| `TaskLists.EraseAllIsOthers` | socket/epoll/threadpool.h:95-98 | erasing the indexed iterators one by one leaves exactly the tasks of other descriptors, in order |
| `TaskLists.CancelAgrees` | socket/epoll/threadpool.h:90-101 | delCloseFD removes exactly the tasks of that descriptor and keeps the agreement |
| `ThreadPools.ThreadPool.constructor` | socket/epoll/threadpool.h:38 | an empty pool, index and queue agreeing |
| `ThreadPools.ThreadPool.AddTask` | socket/epoll/threadpool.h:70-77 | the task goes to the end of the queue and of the index of its descriptor |
| `ThreadPools.ThreadPool.DelCloseFD` | socket/epoll/threadpool.h:90-101 | every erased iterator is valid, and exactly the tasks of the descriptor go |
| `ThreadPools.ThreadPool.TakeTask` | socket/epoll/threadpool.h:118-122 | the front task leaves the queue and the index of its descriptor together |
| `ThreadPoolRuns.QueueIsFifo` | socket/epoll/threadpool.h:90-123 | under every interleaving the index lists exactly the queued tasks of each descriptor in queue order, and dequeued plus queued tasks are the accepted ones minus exactly the dropped |
| `ThreadPoolRuns.ClosedTasksNeverRun` | socket/epoll/threadpool.h:90-101 | once delCloseFD returns, no task of that descriptor accepted before it is dequeued any more |
| `ThreadPoolRuns.EveryTaskHasOnePlace` | socket/epoll/threadpool.h:59-127 | every accepted task is in exactly one of queued, held by one worker, finished, dropped |
| `ThreadPoolRuns.AtMostOneMoreAfterShutdown` | socket/epoll/threadpool.h:40-43 | after _run became false each worker dequeues at most one more task, and one started later none |
| `ThreadPoolRuns.AtMostSixteenAfterShutdown` | socket/epoll/threadpool.h:108-117 | at most 16 tasks in all are dequeued after _run became false |
| `ThreadPoolRuns.IdleCountInRange` | socket/epoll/threadpool.h:124-129 | _idlThrNum is the counted workers minus those between its two updates, so it stays in -1 .. 16 |
| `ThreadPoolRuns.IdleCountNegativeIff` | socket/epoll/threadpool.h:107-129 | over every run `_idlThrNum` is negative if and only if a started worker is not counted yet and every worker is between its two updates; so it is never negative outside `addThread` |
| `ThreadPoolRuns.IdleCountCanBeNegative` | socket/epoll/threadpool.h:107-129 | a run in which it is -1 |
| `ThreadPoolProgress.WorkerLoop` | socket/epoll/threadpool.h:108-127 | one step of a worker from each of its places, with all that it changes: in its wait it takes the head of the queue if there is one, also after shutdown, and leaves only with none and after shutdown; after a task it goes back to the head of its loop, which it leaves only after shutdown |
| `ThreadPoolProgress.WorkersGoOnUntilShutdown` | socket/epoll/threadpool.h:108-127 | over every run no worker leaves its loop before shutdown |
| `ThreadPoolProgress.EveryWorkerCanTakeTheHead` | socket/epoll/threadpool.h:108-127 | from every reachable state before shutdown, each worker comes by its own steps alone to take the head of a queue that is not empty |
| `ThreadPoolProgress.NothingIsAcceptedAfterShutdown` | socket/epoll/threadpool.h:61-62 | after shutdown no task is accepted but those of calls of AddTask already past their check, each at most once |
| `ThreadPoolProgress.OneMoreAfterShutdownIsTaken` | socket/epoll/threadpool.h:114-122 | a worker that was in its wait at shutdown still takes the head of a queue that is not empty |
| `ThreadPoolProgress.DroppedOnlyByClosing` | socket/epoll/threadpool.h:90-101 | over every run a task is dropped only if delCloseFD was called for its descriptor |
| `ThreadPoolProgress.SixteenWorkers` | socket/epoll/threadpool.h:103-130 | addThread can start 16 workers, all counted idle, and then starts no more |
| `ThreadPoolWakeups.RunsArePoolRuns` | socket/epoll/threadpool.h:112-123 | with the condition variable made explicit, every run is still a run of the pool, so the theorems above hold for it |
| `ThreadPoolWakeups.PoolRunsAreRuns` | socket/epoll/threadpool.h:112-123 | and every run of the pool is a run with the condition variable, in which nobody sleeps |
| `ThreadPoolWakeups.SleepersAreCalled` | socket/epoll/threadpool.h:70-78 | before shutdown, while a worker sleeps each queued task has a notification to come or a worker on its way to the queue |
| `ThreadPoolWakeups.NoTaskIsLeftAsleep` | socket/epoll/threadpool.h:113-115 | before shutdown a queued task never leaves every worker asleep with fewer notifications to come than tasks |
| `ThreadPoolWakeups.WorksKeepsCalled` | socket/epoll/threadpool.h:112-123 | what a worker does in its wait, dequeuing and falling asleep, keeps that balance |
| `ThreadPoolWakeups.WorkersGoOnUntilShutdown` | socket/epoll/threadpool.h:108-127 | with the condition variable made explicit too, no worker leaves its loop before shutdown |
| `ThreadPoolWakeups.HeadCanBeTaken` | socket/epoll/threadpool.h:78-123 | from every reachable state before shutdown with a worker and a queue that is not empty, steps of workers and notifications already to come are enough to take the head of the queue: no wakeup for no reason and no other task is needed |
| `ThreadPoolWakeups.ShutdownWakeupIsLostIff` | socket/epoll/threadpool.h:42-43 | a worker can be asleep after the notification of the destructor if and only if it was about to sleep when it was given |
| `ThreadPoolWakeups.EndlessIff` | socket/epoll/threadpool.h:40-50 | after the notification of the destructor a sleep has no end but a wakeup for no reason if and only if no call of `AddTask` is past its check of `_run` or still to notify |
| `ThreadPoolWakeups.JoinCanWaitForEverIff` | socket/epoll/threadpool.h:42-48 | the destructor can be left waiting for a worker whose sleep has no end if and only if that worker was about to sleep when it notified and no call of `AddTask` was past its check of `_run` |
| `ThreadPoolWakeups.RunKeepsWillBeCalled` | socket/epoll/threadpool.h:61-78 | otherwise, whenever the worker sleeps, a call of `AddTask` is still to notify it |
| `ThreadPoolWakeups.ShutdownWakeupCanBeLost` | socket/epoll/threadpool.h:40-50 | a run that loses it: `_run` is cleared, everybody notified, the queue empty, nobody left to notify, and the worker sleeps through every continuation without a wakeup for no reason |
| `ThreadPoolWakeups.WakeupForNoReasonEndsSleep` | socket/epoll/threadpool.h:113-117 | after shutdown, with an empty queue, a wakeup for no reason ends even such a sleep, and the worker leaves |
| `TokenBuckets.RateBoundFromStore` | tools/rate_limiter/token_bucket_limiter.cc:30-62 | for claims of any sign and from any bucket, the claims between two allowed calls are at most what was stored then + (t2 - t1 + n) / interval |
| `TokenBuckets.RateBound` | tools/rate_limiter/token_bucket_limiter.cc:30-62 | when no more than the limit is stored, between two allowed calls all calls from the first on, allowed or denied, claim at most max + (t2 - t1 + n) / interval permits, n their number; allowed times do not decrease |
| `TokenBuckets.InitConfigures` | tools/rate_limiter/token_bucket_limiter.cc:19-28 | a positive limit gives a full bucket of that limit, whose permits take the window together |
| `TokenBuckets.ConfiguredRateBound` | tools/rate_limiter/token_bucket_limiter.cc:19-62 | between two allowed calls of a limiter configured with a window and a limit, all calls claim at most limit + (t2 - t1 + n) * limit / (1000 * window) |
| `TokenBuckets.RateBoundFromInit` | tools/rate_limiter/token_bucket_limiter.cc:19-62 | that bound holds from the configuration on, after any earlier calls whose claims were not negative |
| `TokenBuckets.ProgramAnswers` | tools/rate_limiter/main.cc:32-47 | the requests of the program, one permit in three milliseconds, are answered as its comments say: two allowed, nine denied |
| `TokenBuckets.RateBoundIff` | tools/rate_limiter/token_bucket_limiter.cc:30-62 | the rate bound holds for all calls from a bucket on if and only if no more than the limit is stored |
| `TokenBuckets.ClaimKeepsRateBoundIff` | tools/rate_limiter/token_bucket_limiter.cc:31-62 | after one claim made at any time the rate bound holds for all calls if and only if the claim is not negative by more than the room left in the store once the time until then is counted |
| `TokenBuckets.OverfullBreaksRateBound` | tools/rate_limiter/token_bucket_limiter.cc:48-62 | from a bucket with more than the limit in store, calls that claim more than the rate bound lets through |
| `TokenBuckets.StaysWithinLimit` | tools/rate_limiter/token_bucket_limiter.cc:40-62 | as long as no claim is negative, no more than the limit is stored |
| `TokenBuckets.LimitsIff` | tools/rate_limiter/token_bucket_limiter.cc:19-62 | for an interval that is not negative, some burst and some rate bound what calls claim in a given time if and only if it is positive |
| `TokenBuckets.ZeroWindowAllowsEverything` | tools/rate_limiter/token_bucket_limiter.cc:27 | with an interval of 0 every call is allowed, whatever it claims, that does not come before an earlier one |
| `TokenBuckets.NegativeTimeIff` | tools/rate_limiter/token_bucket_limiter.cc:53-56 | with an interval below 0 the product converted to an unsigned number is -1 or less exactly for a claim beyond the store worth a whole unit of time |
| `TokenBuckets.PoliteCallerIsAllowed` | tools/rate_limiter/token_bucket_limiter.cc:30-62 | a caller of p permits spaced p * interval apart, once allowed, is always allowed |
| `TokenBuckets.BurstAfterIdle` | tools/rate_limiter/token_bucket_limiter.cc:40-62 | a bucket idle for limit * interval allows every call of a burst before which no more than the limit was claimed |
| `TokenBuckets.CallInTime` | tools/rate_limiter/token_bucket_limiter.cc:40-62 | one call in permits is one call of the bucket counted in time |
| `TokenBuckets.RunInTime` | tools/rate_limiter/token_bucket_limiter.cc:40-62 | so is every run of calls |
| `TimeBuckets.RunPays` | tools/rate_limiter/token_bucket_limiter.cc:48-62 | over every run the credit less the time given away falls by the cost claimed, up to one unit for each truncation |
| `TimeBuckets.TimeBound` | tools/rate_limiter/token_bucket_limiter.cc:30-62 | the rate bound counted in time |
| `TimeBuckets.SpacedCallsAreAllowed` | tools/rate_limiter/token_bucket_limiter.cc:40-62 | calls spaced by their cost stay allowed, counted in time |
| `TokenBuckets.TokenBucketRateLimiter.constructor` | tools/rate_limiter/token_bucket_limiter.cc:14-17 | one permit, a million microseconds apart |
| `TokenBuckets.TokenBucketRateLimiter.Configure` | tools/rate_limiter/token_bucket_limiter.cc:19-28 | the permits of the limit take the whole window, 1000 us for each unit of it; the bucket is full, with the limit, or with 1 for a limit that is not positive; permits cost time if and only if window and limit have the same sign, and are free for a window of 0 |
| `TokenBuckets.TokenBucketRateLimiter.SyncTo` | tools/rate_limiter/token_bucket_limiter.cc:40-46 | time that has passed becomes permits, up to the limit; with an interval of 0 any time fills the bucket |
| `TokenBuckets.TokenBucketRateLimiter.ClaimNext` | tools/rate_limiter/token_bucket_limiter.cc:48-62 | for a claim of any sign, stored permits are used first and the rest is given away in time; the wait is not negative, so the subtraction does not wrap |
| `TokenBuckets.TokenBucketRateLimiter.Aquire` | tools/rate_limiter/token_bucket_limiter.cc:30-38 | the call is allowed exactly when it does not come before the time already given away |
| `KSmallestPairs.KSmallestPairs` | test/373.cc:9-39 | min(k, n * m) entries from distinct index pairs in ascending order of sums, such that no pair left out has a smaller sum, whatever the queue does with equal sums |
| `KSmallestPairs.SeedRows` | test/373.cc:16-20 | the queue starts with the first pair of each of the first min(k, n) rows |
| `KSmallestPairs.SmallestSumsAreUnique` | test/373.cc:11-29 | the sums are determined by the inputs: any two such results have the same ones |
| `KSmallestPairs.PopKeepsInv` | test/373.cc:23-28 | popping a least pair and pushing the next of its row keeps the frontier invariant, and never pushes a pair twice |
| `KSmallestPairs.RowsNeverSeen` | test/373.cc:18-20 | rows beyond the first min(k, n) hold no smaller pair (pigeonhole) |
| `KSmallestPairs.LoopEnds` | test/373.cc:22-29 | when the loop ends the picks are the k smallest |
| `QuickSorting.HoleMoves` | sort_algo/quick_sort.cc:10-12 | each move of the hole keeps the values of the array with the hole filled by the pivot |
| `QuickSorting.RoundNarrows` | sort_algo/quick_sort.cc:8-13 | each round of the two scans keeps both sides right of the pivot and narrows the gap |
| `QuickSorting.PartitionSort` | sort_algo/quick_sort.cc:6-16 | the pivot ends between the values at most and at least it, the range is permuted and nothing else touched |
| `QuickSorting.SidesSorted` | sort_algo/quick_sort.cc:20-22 | sorting both sides of the pivot sorts the range |
| `QuickSorting.QuickSort` | sort_algo/quick_sort.cc:18-24 | the range is a sorted permutation of itself, and nothing else is touched |
| `HeapSorting.SiftRestores` | sort_algo/heap_sort.cc:5-19 | if only head may be less than its children, sifting it down leaves a heap |
| `HeapSorting.HeapRestored` | sort_algo/heap_sort.cc:5-19 | when both child subtrees are heaps, Heap makes the whole subtree one, of the same values, and touches nothing outside it |
| `HeapSorting.BuildMakesHeap` | sort_algo/heap_sort.cc:23-25 | the first loop makes the range a heap |
| `HeapSorting.TurnSorts` | sort_algo/heap_sort.cc:26-29 | each turn of the second loop makes the sorted part one longer and keeps the rest a heap |
| `HeapSorting.SortsFromZero` | sort_algo/heap_sort.cc:21-30 | from 0, the range is a sorted permutation of itself, and nothing else is touched |
| `HeapSorting.AgreesWithAnySort` | sort_algo/heap_sort.cc:21-30 | heapsort gives the same array as quicksort, or any other sort of the range |
| `HeapSorting.OneIsCarriedOff` | sort_algo/heap_sort.cc:21-30 | for every other start, an array from which a value outside the range is carried off |
| `HeapSorting.SortsEveryIff` | sort_algo/heap_sort.cc:21-30 | the range given is sorted for all arrays if and only if it starts at 0 or has fewer than two places |
| `HeapSorting.Heap` | sort_algo/heap_sort.cc:5-19 | in place, the array becomes the sifted one |
| `HeapSorting.HeapSort` | sort_algo/heap_sort.cc:21-30 | in place, the array becomes the heapsorted one; it is sorted under the condition above |
| `Sorting.SortsAgree` | sort_algo/quick_sort.cc:18-24 | two sorts of the same range of the same array give the same array |
| `Jumping.Jump` | test/45.cc:6-25 | the number returned is the length of a shortest jump path if and only if the last index can be reached |
| `Jumping.PathsAreWithinFar` | test/45.cc:15-23 | no path of d jumps leads farther than the d-th bound of the greedy loop |
| `Jumping.PathWithinFar` | test/45.cc:15-23 | every index up to that bound is the end of a path of d jumps |
| `Jumping.FirstToReachIsShortest` | test/45.cc:19-22 | the first number of jumps whose bound reaches the last index is the least of all paths |
| `Jumping.NeverStuck` | test/45.cc:18 | if the last index can be reached the farthest position always lies ahead of the present one |

## Left out

Contracts stated under an assumption of the model:

- TransferSockets.EpollSocket.RecvBuff: assumes that the connection reports no error; after one the source still returns the length it may not have received.
- SyncFiles.SyncFileTool.SyncRecvFile: assumes that the connection reports no error and that what the peer is going to send is known beforehand, though it arrives while the calls go on; the source ignores the results of its sends and receives.
- SyncFiles.SyncFileTool.SyncSendFile: assumes that the connection reports no error, and a file of at most 2048 * (2^31 - 1) bytes, so that the number of chunks fits an `int`.
- TransferRuns.ReceivedFileIsSentFile: one transfer; a name of 1 to 250 bytes passed by value, which with its suffix fits the buffer of `sync_file.cpp:95-96`, and a file of at most 2048 * (2^31 - 1) bytes.
- TransferSession.EveryFileArrives: the same names and files; the server reads the next request after its own loop has ended, which the theorem shows to be the only case.
- TransferSockets.EpollSocket.SendSocket: EAGAIN is answered finitely often; a connection that answers it for ever makes the source loop for ever.
- LruCaches.LRUCache.constructor: requires a capacity of at least 1; with 0 the source reads through a null tail.
- TokenBuckets.TokenBucketRateLimiter.Configure: requires a limit other than 0, for which the interval is infinite (or, with a window of 0, not a number) and the conversion of every claim has no value; with a window of 0 and a negative limit the source gets -0.0, which real numbers do not tell from 0.
- TokenBuckets.TokenBucketRateLimiter.ClaimNext: requires an interval that is not negative, since the conversion of negative times has no value; real numbers stand for `double`, and the time given away does not overflow 64 bits.
- HeapSorting.HeapSort: sorted only from start 0 or for fewer than two places, because the source indexes from 0 whatever its start is.
- Jumping.Jump: values are not negative, as the loop assumes.
- KSmallestPairs.KSmallestPairs: lists are sorted, as the frontier assumes, and the second one is not empty unless the first one is or nothing is asked for; otherwise the source reads its first element out of bounds.

Not modelled:

- epoll, sockets, file streams, eventfd and timerfd calls: the alarm is a deadline, a connection is two byte sequences, a file is a byte sequence.
- Timer objects are entries of an explicit store, not Dafny objects, so that `delete` and address reuse can be stated; the choice of the allocator is a parameter.
- A callback is any list of additions and cancellations; what else it does is not visible to the queue. A callback does not throw.
- One clock stands for the system and the monotonic clock; it may jump between readings. Stamps do not overflow 64 bits.
- `cancelingTimers_` is a set of ids: the pointer stored beside the id at `timerfd/timer_queue.cpp:115` is read from the end iterator and never used. `callingExpiredTimers_` starts false.
- Calls from several threads into the timer queue are atomic steps; the source does not lock.
- `timerfd/timer_loop_mgr.*`, `timer_channel.*`, `timer_epoll.*`, and the formatting in `timer_stamp.cpp`.
- The destructor of the LRU cache, `showLRU` and `now_length_`.
- That the destructor of the thread pool returns, which its lost wakeup prevents. Futures and packaged tasks are ids; a task does not throw. `addThread` has a single caller.
- The other copies of the pool in `tools/sync_file/epoll_socket/threadpool.h` and `include/threadpool.h`.
- The `.copy` suffix of the received file, the servers and clients around the transfer, and all printing.
- Overflow of `int` in the algorithms, and in `timewindow * 1000`.
- Bubble, selection, insertion and merge sort, `use_heap.cc`, `test/7.cc` and `test/17.cc`: out of scope.
