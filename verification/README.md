# A verified model of the multi-reactor server's core

The server is a one-loop-per-thread network library that carries its own LFU cache,
asynchronous logger, timer queue and memory pool. This project models seven of its components
in Dafny and proves what they promise over every input, every reachable state and every
interleaving:

- **LFU cache with aging** (`Lfu*.dfy`): frequency lists, the cached minimum, the running total
  and the aging pass. `LfuModel` gives every operation as a function on values, `LfuInvariant`
  what each keeps, `LfuRuns` and `LfuHistory` what holds of whole histories, `LfuFrequency` what
  the frequencies are, `LfuEviction` when eviction can go wrong, `LfuSharded` the sliced cache,
  `LfuCache` the heap implementation with doubly linked lists and sentinels, and `LfuReplay` that
  implementation over whole histories.
- **Asynchronous logger** (`FixedBuffers.dfy`, `AsyncLogModel.dfy`, `AsyncLogging.dfy`): the buffer
  rotation between any number of producers and the backend thread, one lock region per step, as
  a protocol and on buffer objects with their character arrays.
- **Event loop** (`EventLoopModel.dfy`, `EventLoops.dfy`): the task queue and the wakeup protocol
  as a transition system with many threads, and the loop as a program.
- **Connection output path** (`Buffers.dfy`, `ConnectionModel.dfy`, `ConnectionHistory.dfy`,
  `Connections.dfy`): partial writes, half-close, the epoll registration of the channel, and the byte buffer.
- **Timer queue** (`TimerModel.dfy`, `TimerHistory.dfy`, `TimerQueues.dfy`): the ordered set over a one-shot kernel
  timer, with callbacks that add timers while others expire.
- **Memory pool** (`SlotPadding.dfy`, `MemoryPoolModel.dfy`, `MemoryHeapModel.dfy`,
  `MemoryPools.dfy`): slot carving with 64-bit wrap-around, the free list threaded through the
  slots, and the 64 size classes over one memory.
- **Integer formatting** (`LogStream.dfy`): the sign-symmetric digit table and the in-place
  reversal, against an independent reading of decimal numerals.

Each stateful component has two parts: a model (a datatype for the state, a function for each
step, an invariant, and theorems about all runs) and a class with the source's fields whose
methods are proved to take the model's steps on the heap. `Replay` and `Drive` methods run a
class through an arbitrary history and return what the model says.

Where the code does not do what its comments say or what one would expect, the model follows
the code:

- The cached minimum of the LFU cache is exact in all runs if and only if the aging limit is in
  2..250 (`LfuRuns.ExactIffInRange`), and for every positive capacity a full cache always has a
  node to evict under the same condition (`LfuEviction.EvictsIffInRange`).
- The logger's thread function says that it makes sure everything is written at the end; what is
  appended after its last swap is not (`AsyncLogModel.WrittenAtHead`, `AsyncLogModel.StopCanLose`).
- The padding of a pool block is said to align slots to their size; the wrap-around makes this
  true exactly for powers of two (`MemoryPoolModel.SlotAligned`, `SlotPadding.PadMisses24`).
- `sendInLoop` reports a closed connection but goes on; `ConnectionModel.LateSendReregisters` says
  exactly when that puts a destroyed connection's channel back into epoll, and
  `ConnectionModel.LateSendComesBack` and `ConnectionModel.LateSendStaysOut` are runs to both
  outcomes.
- `updateChannel` answers every update of a parked channel with an ADD, so a second `handleClose`
  for the same event puts the closed connection's channel back into epoll, with an empty mask
  (`ConnectionHistory.CloseToggles`).
- `TimerQueue::handleRead` reads the clock before the timerfd. If the timerfd fires in between
  and nothing was due, its firing is consumed and it is not set again: a timer can be lost
  (`TimerModel.TimerCanBeLost`). `TimerModel.ArmedBetweenOperations` gives the exact condition, and
  `TimerModel.SpendsOnlyAfterRearm` shows that it takes a handler that arms the timer in the same
  round of events.

## Model

| member | source | states |
|---|---|---|
| `LfuRuns.ExactIffInRange` | include/LFU.h:173-317 | over all runs of put/get/purge and all aging orders, the cached minimum is the least frequency in use in every state if and only if 2 <= maxAverageNum <= 250 |
| `LfuRuns.EveryStateConsistent` | include/LFU.h:173-317 | in every reachable state each key is once in the list of its own frequency and in no other, the minimum is the least non-empty list and at most the limit, the total bounds the sum of frequencies, the size is at most the capacity |
| `LfuRuns.InvInRun` | include/LFU.h:101-317 | the full invariant holds in every state of every run |
| `LfuRuns.NeverStuck` | include/LFU.h:192-246 | no reachable state makes an operation read a missing list or evict from an empty one |
| `LfuRuns.InexactRun` | include/LFU.h:304-317 | for every limit outside 2..250 a run with one key whose cached minimum is wrong |
| `LfuEviction.EvictsIffInRange` | include/LFU.h:192-217 | for every positive capacity that the keys can fill, a full cache has a node to evict in every state of every run if and only if 2 <= maxAverageNum <= 250 |
| `LfuEviction.ReadyIffInRange` | include/LFU.h:192-217 | with one key more, the same for: no operation ever reads a missing or an empty list |
| `LfuEviction.StuckRun` | include/LFU.h:210-317 | for every limit outside 2..250 and every positive capacity, a run to a full cache whose list for the cached minimum is empty |
| `LfuEviction.FoundMinimum` | include/LFU.h:304-317 | the search never goes below 1 and answers 1 when all frequencies are INT8_MAX or more |
| `LfuInvariant.InvStep` | include/LFU.h:101-317 | every operation, for every aging order, is possible and keeps the invariant |
| `LfuInvariant.AgeAllKeeps` | include/LFU.h:274-298 | the aging pass visits each node exactly once, gives it its new frequency, and keeps nodes and lists in agreement |
| `LfuInvariant.AgeAllLowers` | include/LFU.h:281-298 | after the pass every frequency is the old one less half the limit (rounded toward zero) if that is at least 1, else 1; values and keys stay, and for a limit that is not negative nothing rises |
| `LfuInvariant.AgeResult` | include/LFU.h:274-302 | after aging, the new minimum is the aged old minimum, found exactly below INT8_MAX and replaced by 1 from there on |
| `LfuInvariant.UpdateMinResult` | include/LFU.h:304-317 | the search for the minimum finds the least frequency, or 1 when that is not below INT8_MAX |
| `LfuInvariant.AddFreqNumKeeps` | include/LFU.h:248-261 | counting an access keeps total >= sum and leaves the least frequency at most the limit, by the pigeonhole principle without aging and by the decrement with it |
| `LfuInvariant.SumAtLeast` | include/LFU.h:248-261 | the pigeonhole bound: the sum is at least the least frequency times the number of nodes |
| `LfuInvariant.PromoteKeeps` | include/LFU.h:173-186 | moving a key up one frequency keeps the lists and the exact minimum, and adds one to the sum |
| `LfuInvariant.InvCanEvict` | include/LFU.h:210-217 | under the invariant a non-empty cache has a real node at the head of the list of its minimum |
| `LfuHistory.PutEvictsOne` | include/LFU.h:192-217 | a new key in a full cache removes exactly one key, one of least frequency at the head of its list; all other keys and values stay |
| `LfuHistory.PutKeepsOrder` | include/LFU.h:192-217 | unless aging runs, such a put changes no other node, shortens one list by its head and extends one by its end |
| `LfuHistory.HitKeepsOrder` | include/LFU.h:173-190 | unless aging runs, an access to a cached key changes no other node and moves only that key, from its place in its list to the end of the next one |
| `LfuHistory.AgedOrder` | include/LFU.h:281-298 | after aging each list holds exactly the keys at its frequency in the order of the walk |
| `LfuHistory.ApplyIsMapStep` | include/LFU.h:101-146 | through promotion, eviction and aging every operation is a step of a plain map |
| `LfuHistory.GetReturnsLastPut` | include/LFU.h:101-132 | in every run a get that succeeds returns the value most recently put |
| `LfuHistory.NothingLostWhileItFits` | include/LFU.h:101-146 | while the keys put since the last purge fit, the cache is exactly the map of the last puts |
| `LfuFrequency.CountedOnce` | include/LFU.h:248-302 | counting an access adds one to the total; exactly if the total then reaches (limit + 1) times the number of nodes every frequency is lowered once, by half the limit but not below 1, else none changes |
| `LfuFrequency.AverageIs` | include/LFU.h:248-256 | the cached average is the total divided by the number of nodes, rounded down |
| `LfuFrequency.LinkedInRun` | include/LFU.h:173-298 | in every run, for every limit, each key is once in the list of its frequency and in no other |
| `LfuFrequency.FrequencyStep` | include/LFU.h:101-302 | in every run, for every limit and every operation: which accesses count, by how much total and frequencies change, what an eviction takes off, and when and by how much aging lowers |
| `LfuFrequency.RankingKept` | include/LFU.h:274-298 | in every run, for every limit, aging puts no key that was used less in front of one used more, and keys above half the limit keep their distance |
| `LfuFrequency.FrequencyIsAccesses` | include/LFU.h:173-208 | as long as the keys fit and aging has not run, every frequency is the number of accesses to the key in the plain sequence of operations |
| `LfuSharded.SliceSize` | include/LFU.h:328-328 | the slices together hold the capacity and less than one entry more per slice |
| `LfuSharded.SlicesOkInRun` | include/LFU.h:324-379 | every slice stays a sound cache that holds only keys routed to it |
| `LfuSharded.ShardedSize` | include/LFU.h:324-333 | the sliced cache never holds capacity + sliceNum entries or more |
| `LfuSharded.ShardedGet` | include/LFU.h:335-347 | the sliced cache answers only with the value most recently put |
| `LfuSharded.OneSlicePerKey` | include/LFU.h:335-347 | a key is only ever cached in the slice it routes to |
| `LfuSharded.FairShare` | include/LFU.h:335-340 | of any keys whose hashes are different numbers in a window of some length, the routing gives a slice at most that length divided by the slices, rounded up |
| `LfuSharded.ShareKept` | include/LFU.h:324-347 | in every run a slice whose keys since the last purge fit holds exactly these keys |
| `LfuSharded.ShardedKeepsShares` | include/LFU.h:324-379 | in every run a get answers as an ordinary map if the keys routed to that slice fit it |
| `LfuSharded.ShardedKeepsSpread` | include/LFU.h:324-379 | nothing is lost across the slices as long as the hashes of the keys put are different numbers in a window no longer than the capacity |
| `LfuCache.FreqList.ChainDistinct` | include/LFU.h:41-80 | a well-formed list never comes back to a node |
| `LfuCache.FreqList.IsEmpty` | include/LFU.h:50-53 | true exactly when nothing is between the sentinels |
| `LfuCache.FreqList.AddNode` | include/LFU.h:56-65 | links the node before the tail sentinel; the list stays well formed in both directions |
| `LfuCache.FreqList.RemoveNode` | include/LFU.h:67-78 | unlinks exactly that node; an unlinked node or a sentinel is left alone |
| `LfuCache.FreqList.GetFirstNode` | include/LFU.h:80-80 | the node after the head sentinel |
| `LfuCache.KLfuCache.Put` | include/LFU.h:101-118 | on the heap, exactly the model's step for some walk order |
| `LfuCache.KLfuCache.Get` | include/LFU.h:121-132 | answers with the cached value exactly if the key is cached, and takes the model's step |
| `LfuCache.KLfuCache.Purge` | include/LFU.h:142-146 | drops all entries and keeps minimum and total |
| `LfuCache.KLfuCache.GetInternal` | include/LFU.h:173-190 | promotes the node, adjusts the minimum, counts the access |
| `LfuCache.KLfuCache.PutInternal` | include/LFU.h:192-208 | evicts if full, links the new node, counts the access, lowers the minimum to 1 |
| `LfuCache.KLfuCache.KickOut` | include/LFU.h:210-217 | removes the model's victim from list and map and its frequency from the total |
| `LfuCache.KLfuCache.RemoveFromFreqList` | include/LFU.h:219-228 | takes the node out of the list of its frequency, other lists untouched |
| `LfuCache.KLfuCache.AddToFreqList` | include/LFU.h:230-246 | appends the node to the list of its frequency, created if need be |
| `LfuCache.KLfuCache.AddFreqNum` | include/LFU.h:248-261 | counts the access and ages exactly when the average passes the limit |
| `LfuCache.KLfuCache.DecreaseFreqNum` | include/LFU.h:263-272 | takes a frequency off total and average |
| `LfuCache.KLfuCache.HandleOverMaxAverageNum` | include/LFU.h:274-302 | the in-place walk takes half the limit off every node, but leaves none below 1, and recomputes the minimum |
| `LfuCache.KLfuCache.UpdateMinFreq` | include/LFU.h:304-317 | the scan over the frequency map gives the model's minimum |
| `LfuReplay.Replay` | include/LFU.h:94-146 | any sequence of operations on a new heap cache is a run of the model; every successful get returns the last value put since the last purge, and while the keys fit every get answers as an ordinary map |
| `LfuReplay.AnswersAreLastPuts` | include/LFU.h:101-146 | the answers of any run, compared with the plain sequence of operations |
| `AsyncLogModel.NothingLost` | log/AsyncLogging.cc:50-174 | for every interleaving, file ++ rest of batch ++ full queue ++ current buffer is the concatenation of all accepted messages in lock order |
| `AsyncLogModel.FileIsPrefix` | log/AsyncLogging.cc:169-174 | the file is always a prefix of the accepted messages, and each write is the whole messages between two cuts |
| `AsyncLogModel.FileIsPrefixOfMessages` | log/AsyncLogging.cc:50-174 | after any schedule the file is a prefix of the messages it appended that are shorter than a buffer |
| `AsyncLogModel.BatchIsWritten` | log/AsyncLogging.cc:169-203 | the end of the file is what has been written of the batch, so a buffer that is emptied for reuse is in the file |
| `AsyncLogModel.MarkIsLastSwap` | log/AsyncLogging.cc:126-163 | the mark is what had been accepted at the last swap, and only a swap moves it |
| `AsyncLogModel.NeverFaults` | log/AsyncLogging.cc:67-208 | no null buffer is followed and no empty vector popped; a missing next buffer implies a non-empty queue; at the loop head both spares are there and empty |
| `AsyncLogModel.WrittenAtHead` | log/AsyncLogging.cc:123-216 | outside the write phase the file is what was accepted before the last swap, and complete if and only if nothing but empty messages came later |
| `AsyncLogModel.StopCanLose` | log/AsyncLogging.cc:123-216 | a run that stops with an accepted message unwritten |
| `AsyncLogModel.AppendGoes` | log/AsyncLogging.cc:50-89 | in every run: a message goes behind the current buffer's contents if strictly more room is left than it takes; else that buffer joins the queue and the message starts the next buffer, or is dropped if no buffer can hold it; nothing of the backend's changes |
| `AsyncLogModel.QueuedWhenFull` | log/AsyncLogging.cc:57-80 | in every run a buffer waits in the queue only because a message did not fit behind what it holds |
| `AsyncLogModel.InvStep` | log/AsyncLogging.cc:50-212 | every step of every thread is safe, keeps the stock of buffers and keeps every message in its place |
| `AsyncLogModel.StockedStep` | log/AsyncLogging.cc:67-208 | each step finds the buffers it moves, and leaves spares and next buffer empty or absent as the next step needs |
| `AsyncLogModel.InvInRun` | log/AsyncLogging.cc:50-212 | the invariant holds in every state of every interleaving |
| `FixedBuffers.FixedBuffer.Append` | include/FixedBuffer.h:24-31 | appends all bytes if the buffer stays below its capacity, else nothing |
| `FixedBuffers.FixedBuffer.Add` | include/FixedBuffer.h:46-50 | advances position and length together |
| `FixedBuffers.FixedBuffer.Reset` | include/FixedBuffer.h:52-56 | empties the buffer |
| `AsyncLoggers.AsyncLogging.Append` | log/AsyncLogging.cc:50-89 | on buffer objects: the characters go behind those in the current buffer's array, or into the next or a new buffer; no buffer is in two places, and none that the backend holds is touched |
| `AsyncLoggers.AsyncLogging.Collect` | log/AsyncLogging.cc:126-163 | the swap moves buffer objects between the two sides without touching one; each ends in exactly one place with its characters |
| `AsyncLoggers.AsyncLogging.Refill` | log/AsyncLogging.cc:176-208 | trimming and recycling refill both spares with emptied buffer objects; nothing but buffers of the written batch is changed |
| `AsyncLoggers.AsyncLogging.RefillFirst` | log/AsyncLogging.cc:188-196 | a missing first spare becomes a buffer object of the batch, emptied, and leaves the batch |
| `AsyncLoggers.Drive` | log/AsyncLogging.cc:50-217 | through any schedule of all threads the buffer objects hold the model's contents, each in one place, and the file written is a prefix of what was appended |
| `EventLoopModel.NoLostWakeup` | src/EventLoop.cc:78-178 | whenever the loop is about to block with functors or a quit request pending, the eventfd is readable or some thread is about to write it |
| `EventLoopModel.EventfdCounts` | src/EventLoop.cc:159-178 | in every run the eventfd holds the number of wakeups since it was last read, as far as it can count |
| `EventLoopModel.NoSpuriousWakeup` | src/EventLoop.cc:85-95 | in every run poll reports the wakeup channel only if some thread has written the eventfd since it was last read |
| `EventLoopModel.OneWakeupEach` | src/EventLoop.cc:117-157 | in every run the eventfd has been or is about to be written once for each request from another thread and each functor queued while functors run, and for nothing else |
| `EventLoopModel.NextIterationRunsIt` | src/EventLoop.cc:85-101 | in every run, whatever was queued when the loop was about to block has been executed when the loop next finishes a batch |
| `EventLoopModel.QuitEndsLoop` | src/EventLoop.cc:85-124 | in every run, the next loop test after a quit request ends the loop |
| `EventLoopModel.WorkGetsDone` | src/EventLoop.cc:78-216 | from each state about to block with work or a quit request, at most one wakeup already under way and one iteration, of length bounded by the queue, run everything queued and pass the loop test, which ends the loop exactly if quit was requested |
| `EventLoopModel.ExecutedInOrder` | src/EventLoop.cc:140-216 | executed ++ rest of batch ++ pending is the history of the queue |
| `EventLoopModel.QueuedBeforeTakeRuns` | src/EventLoop.cc:200-216 | what was queued before the swap has run, at its place in the order, by the end of that iteration |
| `EventLoopModel.BatchIsFixed` | src/EventLoop.cc:200-216 | functors queued while a batch runs do not join it; the batch runs exactly what it held |
| `EventLoopModel.Monotone` | src/EventLoop.cc:78-216 | histories only grow |
| `EventLoopModel.InvStep` | src/EventLoop.cc:78-216 | every step of every thread keeps the invariant |
| `EventLoopModel.InvInRun` | src/EventLoop.cc:78-216 | the invariant holds in every state of every interleaving |
| `EventLoops.EventLoop.QueueInLoop` | src/EventLoop.cc:140-157 | the functor goes behind what is pending, and the eventfd is raised by one unless the loop thread queues outside its functors |
| `EventLoops.EventLoop.QueueAll` | src/EventLoop.cc:140-178 | functors of another thread on a blocked loop, or of a running functor, go behind what is pending and raise the eventfd once each |
| `EventLoops.EventLoop.RunBatch` | src/EventLoop.cc:210-213 | runs exactly the batch in order and ends, although functors queue more; what they queued is pending, with the eventfd raised once for each |
| `EventLoops.EventLoop.DoPendingFunctors` | src/EventLoop.cc:200-216 | executes exactly what was pending, and raises the eventfd once for each functor queued meanwhile |
| `EventLoops.EventLoop.Iterate` | src/EventLoop.cc:87-100 | one iteration uses up the eventfd, executes exactly what was pending and stops exactly if quit was requested; afterwards the eventfd counts what was queued in this iteration, so it is down if nothing was |
| `EventLoops.EventLoop.Loop` | src/EventLoop.cc:78-104 | for any arrivals from other threads and any functors that queue more, the exact sequence of executed functors until quit ends the loop, and what is left unexecuted |
| `Buffers.Replay` | include/Buffer.h:41-119 | any history of append, retrieve and readFd leaves exactly the bytes of a FIFO queue |
| `Buffers.Buffer.Retrieve` | include/Buffer.h:41-51 | drops a prefix, or everything; an empty buffer starts again at the front |
| `Buffers.Buffer.RetrieveAsString` | include/Buffer.h:62-67 | splits the contents into the result and the rest |
| `Buffers.Buffer.Grow` | include/Buffer.h:104-107 | growing keeps the readable bytes |
| `Buffers.Buffer.Compact` | include/Buffer.h:108-118 | the overlapping copy in place keeps the readable bytes |
| `Buffers.Buffer.MakeSpace` | include/Buffer.h:98-119 | makes room without changing the contents; allocates exactly if the room before and behind them is too small, else a compaction that was needed moves strictly to the left |
| `Buffers.Buffer.EnsureWritableBytes` | include/Buffer.h:70-76 | room for the bytes, contents unchanged, and nothing moved if there was room |
| `Buffers.Buffer.Append` | include/Buffer.h:79-84 | appends exactly the bytes |
| `Buffers.Buffer.ReadFd` | src/Buffer.cc:15-56 | appends exactly what readv returned, spill area included; nothing on an error |
| `ConnectionModel.StreamKept` | src/TcpConnection.cc:134-298 | over all runs, bytes taken by the kernel ++ output buffer are the concatenation of all sends if and only if no direct write found the connection broken |
| `ConnectionModel.LostIsDropped` | src/TcpConnection.cc:248-282 | bytes are dropped exactly by sends whose direct write meets a broken connection |
| `ConnectionModel.SendOrder` | src/TcpConnection.cc:248-297 | sendInLoop gives the kernel nothing while bytes wait, and whatever the write returns puts the data behind all earlier bytes, unless the direct write finds the connection broken |
| `ConnectionModel.InterestExact` | src/TcpConnection.cc:134-163 | while open, write interest is on exactly when bytes wait, read interest and edge triggering always, in the channel and in the kernel |
| `ConnectionModel.ShutdownAfterLastByte` | src/TcpConnection.cc:300-317 | the write side is closed at most once, only after the last byte, and in a half-closed connection as soon as none wait |
| `ConnectionModel.EpollNeverFails` | src/EPollPoller.cc:64-114 | every epoll_ctl of every run is legal, also with several handleClose calls for one event |
| `ConnectionModel.DestroyedForGood` | src/TcpConnection.cc:78-87 | after connectDestroyed the channel is in neither epoll nor the poller's map, in every later state |
| `ConnectionModel.LateSendReregisters` | src/TcpConnection.cc:237-298 | on any destroyed connection a queued sendInLoop registers the channel again if and only if it leaves bytes in the buffer and write interest was off |
| `ConnectionModel.LateSendComesBack` | src/TcpConnection.cc:78-87 | a run to a destroyed connection on which a queued send brings the channel back |
| `ConnectionModel.LateSendStaysOut` | src/TcpConnection.cc:78-87 | a run to a destroyed connection on which the same send does not |
| `ConnectionHistory.WritesOut` | src/TcpConnection.cc:134-181 | with write interest on, handleWrite gives the kernel exactly the first n bytes that wait, n being what its writes took, and keeps the rest; with none left it drops the interest and closes the write side of a half-closed connection; without interest it does nothing |
| `ConnectionHistory.WritableDrains` | src/TcpConnection.cc:134-181 | in every run a writable event on an open connection moves these bytes to the kernel; if they are all, nothing waits, the kernel's mask has no write interest, a half-closed connection is shut once, and the kernel has everything that was sent unless a send was dropped |
| `ConnectionHistory.SendSplits` | src/TcpConnection.cc:237-298 | sendInLoop gives the kernel exactly what a direct write took, which is tried only if nothing waits, keeps exactly the rest, and turns interest on exactly if bytes were added |
| `ConnectionHistory.AskedIsSent` | src/TcpConnection.cc:216-230 | in every run the bytes asked for are the concatenation of the sends made while connected |
| `ConnectionHistory.StreamIsSent` | src/TcpConnection.cc:134-298 | in every run, bytes taken by the kernel ++ output buffer are these sends if and only if none was dropped |
| `ConnectionHistory.StateMoves` | src/TcpConnection.cc:67-193 | in every run the state changes only by establishing, shutting down, closing and destroying, and by each exactly as the code has it |
| `ConnectionHistory.NeverReopens` | src/TcpConnection.cc:67-309 | in every run a connection never returns to an earlier state |
| `ConnectionHistory.EveryCloseDestroys` | src/TcpConnection.cc:184-193 | in every run each close and each removal by the server queues exactly one destruction, and nothing else does |
| `ConnectionHistory.ClosedWillBeDestroyed` | src/TcpConnection.cc:78-87 | in every run a closed connection that is not destroyed has a destruction queued, which can run once the handlers of the poll are done and unregisters the channel |
| `ConnectionHistory.CloseToggles` | src/EPollPoller.cc:69-95 | in every run handleClose takes a registered channel out of epoll, and a repeated one puts it back with an empty mask |
| `ConnectionModel.UpdateKeeps` | src/EPollPoller.cc:64-95 | from every index state an update is legal and leaves poller and kernel in agreement; only an empty mask takes the channel out of epoll, and only if it was in |
| `ConnectionModel.RemoveKeeps` | src/EPollPoller.cc:101-114 | removal is legal and leaves nothing registered |
| `ConnectionModel.SendKeeps` | src/TcpConnection.cc:216-298 | a send with any outcome of the write keeps the invariant |
| `ConnectionModel.WriteLoopKeeps` | src/TcpConnection.cc:134-181 | any sequence of partial writes keeps the invariant |
| `ConnectionModel.InvStep` | src/TcpConnection.cc:67-317 | every handler keeps the invariant |
| `ConnectionModel.InvInRun` | src/TcpConnection.cc:67-317 | the invariant holds in every state of every run |
| `Connections.EPollPoller.UpdateChannel` | src/EPollPoller.cc:64-95 | the model's update for this channel, no other descriptor touched |
| `Connections.EPollPoller.RemoveChannel` | src/EPollPoller.cc:101-114 | the model's removal for this channel, no other descriptor touched |
| `Connections.TcpConnection.SendInLoop` | src/TcpConnection.cc:237-298 | the model's step on fields and buffer |
| `Connections.TcpConnection.Send` | src/TcpConnection.cc:216-230 | sends only while connected |
| `Connections.TcpConnection.HandleWrite` | src/TcpConnection.cc:134-181 | the bytes the writes took leave the front of the output buffer for the kernel, and the rest stays; interest and half-close are the model's step |
| `Connections.TcpConnection.Shutdown` | src/TcpConnection.cc:301-309 | half-closes at once or leaves it to the drain |
| `Connections.TcpConnection.ShutdownInLoop` | src/TcpConnection.cc:311-317 | closes the write side unless bytes wait |
| `Connections.TcpConnection.HandleClose` | src/TcpConnection.cc:184-193 | disconnects, drops all interest, queues the destruction |
| `Connections.TcpConnection.ConnectEstablished` | src/TcpConnection.cc:67-76 | connects and registers for reading |
| `Connections.TcpConnection.ConnectDestroyed` | src/TcpConnection.cc:78-87 | disconnects if need be and removes the channel |
| `Connections.Drive` | src/TcpConnection.cc:67-317 | connection, channel, poller and buffer together follow every run of the model |
| `TimerModel.ArmedBetweenOperations` | src/TimerQueue.cc:58-180 | between operations a non-empty set has the timerfd set for max(earliest, arming time + 100us) if and only if no handleRead has consumed a firing for nothing since it was set |
| `TimerModel.SetBetweenOperations` | src/TimerQueue.cc:58-180 | between operations every key is its timer's expiration and every allocated timer is in the set |
| `TimerModel.FiredMeansDue` | src/TimerQueue.cc:120-138 | when the timerfd has fired and the set is not empty, its first entry is due, so reset sets the timerfd again |
| `TimerModel.SpendsOnlyAfterRearm` | src/TimerQueue.cc:58-138 | a firing is consumed for nothing only if the timerfd was set again between poll's report and handleRead |
| `TimerModel.TimerCanBeLost` | src/TimerQueue.cc:120-138 | a run to a state in which a timer is due and nothing will call handleRead |
| `TimerModel.OnTimeAndOnce` | src/TimerQueue.cc:109-138 | no callback runs before its time, and no one-shot timer runs twice |
| `TimerModel.FreedOrBack` | src/TimerQueue.cc:140-163 | a timer that has run is freed if one-shot and back in the set if repeating |
| `TimerModel.NoDanglingTimer` | src/TimerQueue.cc:120-163 | every pointer in the expired list is alive when it is used, whatever callbacks add |
| `TimerHistory.RepeatsByInterval` | src/TimerQueue.cc:120-163 | in every run, of two calls of one timer the later is due exactly its interval, as given when it was added, after the clock at which a reset between them put it back; so it runs no sooner than its interval after the earlier |
| `TimerHistory.FirstCallAsAdded` | src/TimerQueue.cc:49-68 | in every run a timer's first call is due exactly when the timer was added for |
| `TimerHistory.SinceAdd` | include/Timer.h:18-24 | in every run interval and repeat of a timer stay as they were added |
| `TimerHistory.ResetStands` | src/Timer.cc:3-14 | reset puts a repeating timer back under now + interval and otherwise unchanged, frees another, touches no other timer and sets the timerfd for the first entry |
| `TimerHistory.AddStands` | src/TimerQueue.cc:58-68 | a new timer stands under the time it was given, and the timerfd is set exactly if that is the earliest |
| `TimerModel.SpentMeans` | src/TimerQueue.cc:120-138 | the firing is spent in a state exactly if some handleRead read it for nothing and no later step set the timerfd |
| `TimerModel.TimespecExact` | src/TimerQueue.cc:79-90 | the timespec is normalised, non-zero and exactly the clamped delay |
| `TimerModel.InsertSorted` | src/TimerQueue.cc:165-180 | insertion keeps the order, and the first key is the earlier of the two |
| `TimerModel.DueFacts` | src/TimerQueue.cc:109-118 | lower_bound splits the set into exactly what is due and what is not |
| `TimerModel.PlacedStep` | src/TimerQueue.cc:58-180 | every step keeps the set sorted and each allocated timer once in the set or among the expired, under its expiration |
| `TimerModel.PhasedStep` | src/TimerQueue.cc:58-163 | every step keeps the timerfd set unless its firing was spent or an expired timer is still to be put back |
| `TimerModel.CalledStep` | src/TimerQueue.cc:120-163 | every step keeps callbacks on time and one-shot timers that ran from waiting again |
| `TimerModel.PlacedInRun` | src/TimerQueue.cc:58-180 | the first of these in every state of every run |
| `TimerModel.PhasedInRun` | src/TimerQueue.cc:58-163 | the second |
| `TimerModel.CalledInRun` | src/TimerQueue.cc:120-163 | the third |
| `TimerQueues.TimerQueue.HandleRead` | src/TimerQueue.cc:120-138 | runs exactly the due timers in order, with callbacks that take time and add timers, and with time between its readings of clock and timerfd; ends in a resting reachable state |
| `TimerQueues.TimerQueue.AddTimerInLoop` | src/TimerQueue.cc:58-68 | inserts the timer and arms the timerfd if it is now the earliest |
| `TimerQueues.TimerQueue.ResetTimerfd` | src/TimerQueue.cc:71-96 | through seconds and nanoseconds the timerfd will fire at the expiration, or 100us from now if that is later |
| `TimerQueues.TimerQueue.InsertEntry` | src/TimerQueue.cc:165-180 | inserts and tells whether the earliest changed |
| `TimerQueues.TimerQueue.GetExpired` | src/TimerQueue.cc:109-118 | splits off exactly the due entries |
| `TimerQueues.TimerQueue.ResetEntry` | src/TimerQueue.cc:143-162 | a repeating timer is in the set again under now + interval, another is freed, and the timerfd is armed for the first entry |
| `TimerQueues.TimerQueue.Reset` | src/TimerQueue.cc:140-163 | goes through all expired timers |
| `SlotPadding.PadInWords` | memory/memoryPool.cc:96-100 | with wrap-around, the padding is a whole number of words and at most the slot size less one word |
| `SlotPadding.PadRemainder` | memory/memoryPool.cc:96-100 | the padded address leaves the remainder 2^64 mod align, or 0 if nothing wraps |
| `SlotPadding.PadAligns` | memory/memoryPool.cc:96-100 | the padded address is aligned if and only if nothing wraps or the alignment is a power of two |
| `SlotPadding.PadMisses24` | memory/memoryPool.cc:95-100 | a block address for which slots of 24 bytes are not aligned |
| `MemoryPoolModel.FirstFits` | memory/memoryPool.cc:85-87 | the first slot of any block of any class lies behind the header, on a word boundary, and fits |
| `MemoryPoolModel.SlotPlace` | memory/memoryPool.cc:52-90 | every slot lies behind the header, inside the block and on a word boundary |
| `MemoryPoolModel.SlotAligned` | memory/memoryPool.cc:85-100 | a slot is aligned to its size if and only if that is a power of two (or the block lies below it) |
| `MemoryPoolModel.InvStep` | memory/memoryPool.cc:33-93 | allocate and deallocate keep: carved slots are the disjoint union of live and free ones, blocks are apart |
| `MemoryPoolModel.AllocateKeeps` | memory/memoryPool.cc:33-63 | allocate returns a carved slot that was not live and adds exactly that |
| `MemoryPoolModel.CursorNeverWraps` | memory/memoryPool.cc:52-60 | carving never moves the cursor past the address space |
| `MemoryPoolModel.PushKeeps` | memory/memoryPool.cc:66-75 | deallocate moves a slot from live to free, null changes nothing |
| `MemoryPoolModel.NewBlockKeeps` | memory/memoryPool.cc:77-93 | clearing the free list drops nothing, because a new block is opened only with an empty list |
| `MemoryPoolModel.OpensOnlyWhenFull` | memory/memoryPool.cc:49-57 | a new block is asked for only when every slot that fits any block is live |
| `MemoryPoolModel.CarvedApart` | memory/memoryPool.cc:52-60 | carved slots never overlap |
| `MemoryPoolModel.FreeThenAllocate` | memory/memoryPool.cc:33-75 | allocating after a free returns that slot and restores the pool |
| `MemoryPoolModel.InvInRun` | memory/memoryPool.cc:33-93 | the invariant holds in every state of every history |
| `MemoryPoolModel.LiveNeverOverlap` | memory/memoryPool.cc:33-93 | in every history a live slot overlaps no other live or free slot and no block header |
| `MemoryHeapModel.ClassFits` | include/memoryPool.h:55-64 | a request goes to the smallest class that holds it |
| `MemoryHeapModel.HeapStep` | include/memoryPool.h:55-77 | useMemory and freeMemory keep 64 sound pools, disjoint from each other and from large blocks, with each class's live slots exactly what callers hold of it |
| `MemoryHeapModel.HeapInvInRun` | include/memoryPool.h:55-77 | that holds in every state of every history |
| `MemoryHeapModel.HeldApart` | include/memoryPool.h:55-64 | any two allocations that callers hold are disjoint over their full requested size |
| `MemoryHeapModel.UseGivesUnused` | include/memoryPool.h:55-64 | null exactly for no bytes, else memory apart from everything held |
| `MemoryHeapModel.NothingSharedInRun` | include/memoryPool.h:55-77 | in no history do two held allocations share a byte |
| `MemoryHeapModel.ReleaseEndsHold` | include/memoryPool.h:66-77 | freeing anything ends the hold on it and on nothing else |
| `MemoryHeapModel.FreedComesBack` | include/memoryPool.h:55-77 | a freed slot is what the next request of any size of its class gets, without asking the system, and that restores the pools |
| `MemoryPools.CallerWritesKeepLists` | memory/memoryPool.cc:66-75 | whatever callers write into what they hold, the block and free lists of all pools survive |
| `MemoryPools.HashBucket.CallerWrites` | memory/memoryPool.cc:66-75 | any store of callers into what they hold leaves all pools as they are |
| `MemoryPools.MemoryPool.Allocate` | memory/memoryPool.cc:33-63 | the model's step on the lists threaded through memory |
| `MemoryPools.MemoryPool.Deallocate` | memory/memoryPool.cc:66-75 | links the slot in front of the free list through its own first word |
| `MemoryPools.MemoryPool.AllocateNewBlock` | memory/memoryPool.cc:77-93 | links the block, sets cursor and end mark |
| `MemoryPools.MemoryPool.Destroy` | memory/memoryPool.cc:9-21 | gives every block back once, newest first, and reads no freed memory |
| `MemoryPools.HashBucket.constructor` | memory/memoryPool.cc:102-108 | 64 empty pools of 8, 16, ..., 512 bytes |
| `MemoryPools.HashBucket.UseMemory` | include/memoryPool.h:55-64 | routes to a pool or to the system and leaves the lists of all other pools intact |
| `MemoryPools.HashBucket.FreeMemory` | include/memoryPool.h:66-77 | the slot becomes the first of the free list of its class, linked to the former first, and all other pools stay intact |
| `MemoryPools.Replay` | include/memoryPool.h:55-77 | the class follows every history of requests and of callers' stores between them, pointer for pointer, and returns freed memory to the next request of its class |
| `MemoryPools.FreedIsReused` | include/memoryPool.h:55-77 | in every history of requests and stores, what was freed is what the next request of its class returns, whatever happens to other classes in between |
| `MemoryPools.HeapInvInHistory` | include/memoryPool.h:55-77 | the heap invariant in every state of every such history |
| `LogStreams.LogStream.FormatInteger` | log/LogStream.cc:7-31 | for every signed or unsigned 64-bit value appends a canonical decimal text of at most 20 characters that reads back as that value, with a terminator behind it; nothing without the reserve |
| `LogStreams.WriteDigits` | log/LogStream.cc:16-21 | the do-while loop writes the digits least significant first |
| `LogStreams.ReverseRange` | log/LogStream.cc:27-27 | reverses the range in place, everything else untouched |
| `DecimalText.WrittenReads` | log/LogStream.cc:14-27 | for every integer the written text, reversed, is canonical and reads back as the integer |
| `DecimalText.CanonicalUnique` | log/LogStream.cc:7-31 | every integer has only one canonical text, so the text written is the one |
| `DecimalText.WrittenLength` | log/LogStream.cc:10-26 | at most 20 characters with the sign |
| `DecimalText.TableSymmetric` | log/LogStream.cc:5-19 | the table gives the same digit for a remainder and its negative |
| `DecimalText.CDivFacts` | log/LogStream.cc:18-20 | truncating division and remainder have the magnitudes of the absolute value's, index the table in range and never leave the argument's range |

## Left out

- LfuCache.KLfuCache.Put: requires that a full cache has a victim, because the code dereferences a missing or sentinel node otherwise; `LfuEviction.ReadyIffInRange` shows that this always holds exactly for limits 2..250.
- LfuCache.KLfuCache.UpdateMinFreq: the scan works on a local variable and stores the minimum at its end.
- LfuSharded.SliceSize: rounds up exactly, where the source goes through `double`; the two agree for capacities below 2^53.
- LfuSharded.SlicesOkInRun: the slices are values in a sequence, and a slice count of zero or less, which the source replaces by the number of processors, is a positive parameter.
- Machine overflow of the LFU counters, and the unsigned division of a negative total, which no reachable state has.
- Reference-count cycles and leaks of the LFU nodes and lists.
- AsyncLoggers.AsyncLogging.Append: a negative length and the notification of the condition variable are not modelled, since the wait may end at any time; clearing a buffer's bytes with bzero is left out.
- Log files and rolling: the backend's output is the sequence of its writes.
- EventLoops.EventLoop.Loop: other threads act while the loop waits in poll, and active channels other than the wakeup channel are left out; any interleaving is covered by the transition system.
- EventLoops.EventLoop.QueueInLoop: functors are numbers; what a functor does beyond queueing others is not modelled. Running a functor at once in `runInLoop` is left out as easy.
- EventLoopModel.InvStep: callers on the loop's own thread are inside a callback, and `quit` comes after `loop` has cleared the flag; a quit before that is forgotten by the source.
- Buffers.Buffer.RetrieveAsString: asks for no more bytes than are readable, as the source reads past them otherwise.
- Buffers.Buffer.Grow: capacity is exactly the vector's size; exceptions on allocation are not modelled.
- ConnectionModel.StreamKept: covers sends on the loop thread; a send from another thread binds a pointer into a string whose lifetime is outside the model.
- ConnectionModel.DestroyedForGood: queued destructions run after the handlers of the same poll, as queued functors do.
- Connections.TcpConnection.HandleWrite: write-complete and high-water callbacks are left out, since they are queued and touch none of the modelled state.
- `sendFile`, whose remainders are queued again and can be overtaken by other sends.
- The read handler, beyond the buffer it fills and the close it may end in.
- TimerQueues.TimerQueue.AddTimerInLoop: timers are known by number instead of by address, and numbers are not reused.
- TimerQueues.TimerQueue.ResetEntry: one clock that never goes back, read once for the restart and the arming of one timer; the source reads the wall clock twice and arms a monotonic timer. Intervals are whole microseconds.
- Cancelling timers does not exist in the source.
- MemoryPools.HashBucket.FreeMemory: asks that a pointer is freed with a size of the class it was allocated with, which `deleteElement` guarantees; the source cannot tell.
- MemoryPools.MemoryPool.Allocate: sequential histories only; the source also touches the free list outside its mutex. What operator new returns is a parameter, exhaustion is not modelled, and no block ends at the last address.
- Construction and destruction of the objects placed in pool memory.
- Logger front end, timestamps, floating-point and string output.
- Socket options, addresses, acceptor, thread start-up, choice of the next loop and the program's entry point.
