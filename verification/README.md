# Verified core of the Stage9 flight software

This project models the parts of the repository in which a small mistake would be hard to see, and proves what those
parts promise. Each `.dfy` file holds one module; `dafny verify dfyconfig.toml` checks them all.

**Message queues**

- `LocklessQueue.dfy`: the compare-and-swap queue as a step system over shared memory. Every read, write and
  compare-and-swap of a shared field and every copied byte is a step of its own, for any number of senders and one
  receiver. The ownership invariant covers the window between moving the tail pointer and linking the node. Runs are
  faithful as long as each successful swap in `PopFree` installs a link that is still the node's link.
- `LocklessConservation.dfy`: the nodes of all owners add up, and "queue full" means that all are in use.
- `LocklessAnswers.dfy`: what the answers of Send and Receive mean, for every call in every interleaving.
- `LocklessSchedules.dfy`: schedules of that kind. Any number of senders with the link read and the swap as one atomic
  step, whose head reads overlap and whose swaps fail and are tried again; senders of which no two are between head
  read and swap; a single sender.
- `LocklessFreshness.dfy`: the condition is exact. A swap that installs any other link leaves no way to give each node
  one owner.
- `LocklessRecycling.dfy`: why the compare-and-swap in `PopFree` is not enough for several senders. Between reading
  the head, or its link, and the swap, the head can be taken, delivered and freed again. All interleavings are
  faithful if and only if there is at most one sender.
- `StableHeap.dfy`: the in-place heap with its 32-bit push counter. By value it is in order for ever; "the oldest of
  the highest value" holds while no waiting entry is 2^32 pushes old.
- `BufferBytes.dfy`, `FifoBufferQueue.dfy`, `PriorityOrder.dfy`, `PriorityBufferQueue.dfy`: the byte layout, the ring
  and the slot pool, refined to lists of messages. Slot conservation does not depend on ages. Both queue classes
  record the run of calls made on them in a ghost field, so that the theorems over runs apply to every object. A pop
  into too small a buffer makes the priority queue enter the message again as the newest of its priority, which can
  reorder equals; when exactly it does is proved.
- `QueueMonitor.dfy`: the mutex and the two condition variables around either queue, with spurious wakeups and
  non-blocking callers. A blocking receiver with too small a buffer can use up a wakeup that another receiver needed;
  `NeverStrandedIffRoom` says exactly when no thread is ever left asleep for nothing, and `CallsAreHonest` what every
  call has done when it returns.

**Checksums**

- `Crc16.dfy`: the bit-serial CRC of the motor controller's packets: linearity, self-check, and detection of all
  bursts of up to 16 bits and of all odd numbers of bits, with a 17-bit burst that is missed. The theory of the shift
  register is for any width.
- `CfdpChecksum.dfy`: the modular checksum, independent of how a file is cut into chunks and of their order.
- `FileCrc.dfy`: the retry loop around the kernel's read, and the two file checksums over short reads. The kernel is a
  parameter: it may interrupt, fail, or give any part of what was asked for. The byte step of the checksum is a
  parameter too.

**Encoding**

- `Serialization.dfy`: the cursor-based big-endian serializer as a class over a byte array, with self-delimiting
  lists.
- `FilePackets.dfy`: the file packet codec on top of it, in both directions.
- `WireFormat.dfy`: both formats byte by byte, and the reasons for every refusal.

**Time and rate control**

- `FwTime.dfy`, `TokenBuckets.dfy`, `RateLimiting.dfy`: seconds and microseconds with carry, a sliding-window bound
  for the token bucket, and the spacing of the rate limiter's triggers.
- `TokenGuarantees.dfy`: what the bucket owes its callers: no lost credit, no refusal but soon after a grant, and the
  exact number of grants up to a refusal.

**Services**

- `DutyServer.dfy`: the duty server's clients and its sender thread under all interleavings.
- `EventFilters.dfy`: the event logger's ID table against a bounded set.

`MachineWords.dfy` holds bytes and 32-bit counts for all of them, `QueueStatuses.dfy` the answers of the queues, and
`Sequences.dfy` facts about joining sequences.

Places where code and documentation differ; the model follows the code:

- `Utils/TokenBucket.hpp:56` says that a call with a time that moved backwards always returns false. The code grants
  it if there are tokens (`BackwardsCallRefusedIff`).
- `vesc_tcp_server.py:7` says that stop forces the duty to zero immediately. One nonzero value may still be sent
  (`LateSend`), but no more than one (`AtMostOneSendAfterOff`, `OffIsImmediateIff`).
- A rate limiter with a counter cycle of one triggers on every second call (`EveryNthCallIff`).
- `Os/Pthreads/MaxHeap/MaxHeap.hpp:24-25` promises first-in-first-out order among equal priorities. The heap keeps it,
  the priority queue loses it after a refused pop (`RefusedPopKeepsOrderIff`).
- A lockless queue with two senders can deliver a message that was not published (`FaithfulIffOneSender`), although
  the class is meant for many senders.

## Model

| member | source | states |
|---|---|---|
| `LocklessQueue.SenderStep` | Os/Posix/LocklessQueue.cpp:72-122 | each access of Send and PopFree (head read, link read, CAS, byte copy, size, link reset, tail read, tail CAS, link write) is one step, and every step keeps pointers null or valid and copies inside their node |
| `LocklessQueue.ReceiverStep` | Os/Posix/LocklessQueue.cpp:60-157 | each access of Receive and PushFree is one step, with the second read of m_first->next as a read of its own, whose null is stored in m_first and followed by the next Receive; steps keep pointers and copies in bounds |
| `LocklessQueue.Apply` | Os/Posix/LocklessQueue.cpp:90-157 | a step of any sender or of the receiver, with the size checks at entry, keeps the state well formed |
| `LocklessQueue.InitInv` | Os/Posix/LocklessQueue.cpp:12-47 | the constructor's free list and dummy node establish the ownership invariant |
| `LocklessQueue.PopMove` | Os/Posix/LocklessQueue.cpp:72-88 | after a successful PopFree CAS whose link is still current, the ownership, order and contents invariant holds with the top free node now the sender's, whatever other senders have read meanwhile |
| `LocklessQueue.PublishMove` | Os/Posix/LocklessQueue.cpp:115-117 | after a successful CAS on m_last the invariant holds with the node moved from its sender to the end of the publish order, its link still missing |
| `LocklessQueue.LinkMove` | Os/Posix/LocklessQueue.cpp:119-119 | the late link write keeps the invariant, however far the chain has grown and m_first has moved since |
| `LocklessQueue.AdvanceMove` | Os/Posix/LocklessQueue.cpp:137-149 | writing m_first keeps the invariant with the old dummy moved from the chain to the receiver |
| `LocklessQueue.PushMove` | Os/Posix/LocklessQueue.cpp:60-70 | after a successful PushFree CAS the invariant holds with the receiver's node on top of the free list |
| `LocklessQueue.StepInv` | Os/Posix/LocklessQueue.cpp:60-157 | every step of every thread keeps the whole ownership, order and contents invariant, unless it is a successful PopFree CAS that installs a link out of date |
| `LocklessQueue.FreshRunsAreFaithful` | Os/Posix/LocklessQueue.cpp:90-157 | for any number of senders with any overlap of their head reads, failed CAS and retries: in every run whose successful PopFree CAS all install current links, what Receive returned is, in order, byte for byte and with sizes, what was published first; m_first never becomes null |
| `LocklessQueue.EachNodeHasOneOwner` | Os/Posix/LocklessQueue.cpp:60-157 | after every such run each node has exactly one owner: free list, chain, one sender or the receiver, and an unlinked pair in the chain is one pending link write |
| `LocklessQueue.EmptyAnswerIsHonest` | Os/Posix/LocklessQueue.cpp:137-147 | "no more messages" is answered only if all that was published is delivered, or the next message's link write is outstanding; and always if everything is delivered |
| `LocklessQueue.EmptyAnswersInRuns` | Os/Posix/LocklessQueue.cpp:137-147 | in every such run: an empty answer while messages are undelivered means that some sender has moved m_last and not yet linked its node |
| `LocklessConservation.NodesAddUp` | Os/Posix/LocklessQueue.cpp:60-157 | free nodes, chain, nodes being filled and the node being freed add up to maxmsg in every state |
| `LocklessConservation.FullAnswerIsHonest` | Os/Posix/LocklessQueue.cpp:79-81 | "queue full" is answered exactly when all nodes are in use |
| `LocklessAnswers.RunsAreTraces` | Os/Posix/LocklessQueue.cpp:60-157 | the runs of the queue are exactly those that calls and steps lead through |
| `LocklessAnswers.ReceiveAnswers` | Os/Posix/LocklessQueue.cpp:126-157 | in every interleaving: a call of Receive answers ok exactly if one delivery was appended since it began, and otherwise nothing was; a size mismatch exactly if the capacity is below the message size; no more messages only after it has seen the queue empty or unlinked |
| `LocklessAnswers.SendAnswers` | Os/Posix/LocklessQueue.cpp:90-122 | in every interleaving: a call of Send answers ok exactly if it has published its message, once, since it began, and otherwise has published nothing; a size mismatch exactly for a message that is too large; full only after it has seen the free list empty |
| `LocklessSchedules.AtomicIsFresh` | Os/Posix/LocklessQueue.cpp:76-83 | if reading the head's link and the CAS are one atomic step, every run is of that kind, though any number of senders read the head at any time and lose the CAS to one another |
| `LocklessSchedules.AtomicRunsAreFaithful` | Os/Posix/LocklessQueue.cpp:72-157 | so all interleavings of any number of senders with an atomic link read and CAS are faithful, keep one owner for each node and never crash |
| `LocklessSchedules.ExclusiveRunsAreFaithful` | Os/Posix/LocklessQueue.cpp:72-157 | with every access a step of its own: all runs in which no two senders are between head read and CAS are faithful, keep one owner for each node and never crash |
| `LocklessSchedules.OneSenderIsExclusive` | Os/Posix/LocklessQueue.cpp:72-88 | with one sender no run ever has two senders between read and CAS |
| `LocklessSchedules.OneSenderRunsAreFaithful` | Os/Posix/LocklessQueue.cpp:72-157 | all interleavings of one sender and the receiver are faithful, keep one owner for each node and never crash |
| `LocklessFreshness.OneOwnerIffFresh` | Os/Posix/LocklessQueue.cpp:76-83 | after a successful PopFree CAS each node has exactly one owner if and only if the link it installed was current; no other way to divide up the nodes fits the memory |
| `LocklessFreshness.OneOwnerThroughoutIffFresh` | Os/Posix/LocklessQueue.cpp:60-157 | a run keeps exactly one owner for each node throughout if and only if all its successful PopFree CAS install current links |
| `LocklessRecycling.StaleHead` | Os/Posix/LocklessQueue.cpp:76-83 | with two senders there is always a run after which one still expects head node 1 with a link that is out of date, while node 1 is head again |
| `LocklessRecycling.WrongDelivery` | Os/Posix/LocklessQueue.cpp:72-157 | if messages have bytes at all, continues that run to a delivery that differs from what was published |
| `LocklessRecycling.ChainLost` | Os/Posix/LocklessQueue.cpp:137-156 | with two senders there is always a run in which the receiver's second read of m_first->next finds null, and Receive returns normally with m_first null |
| `LocklessRecycling.NullFollowed` | Os/Posix/LocklessQueue.cpp:133-138 | and the next Receive dereferences that null pointer |
| `LocklessRecycling.MoreThanPublished` | Os/Posix/LocklessQueue.cpp:72-157 | with two senders there is always a run in which more messages are received than were published, even for empty messages |
| `LocklessRecycling.FaithfulIffOneSender` | Os/Posix/LocklessQueue.cpp:72-157 | for every queue of at least two nodes: all interleavings with every access a step are faithful if and only if there is at most one sender |
| `QueueMonitor.ExclusiveStep` | Os/Pthreads/Queue.cpp:144-169 | every step keeps the lock with exactly the thread inside the locked section |
| `QueueMonitor.RunsAreSound` | Os/Pthreads/Queue.cpp:95-317 | in every run the lock is exclusive, at most depth messages wait, none larger than msgSize, and only blocking calls sleep |
| `QueueMonitor.CallsAreHonest` | Os/Pthreads/Queue.cpp:95-317 | over every run, for every call that leaves: a blocking send has added its message; a blocking receive has taken a message or seen one larger than its capacity; a non-blocking call looks once and leaves empty-handed exactly if it saw the queue full, empty, or offering too large a message; the answer says which |
| `QueueMonitor.SizesAddUp` | Os/Pthreads/Queue.cpp:95-317 | over every run the sizes that sends have added are those that receives have taken plus those waiting, as multisets |
| `QueueMonitor.CoveredAct` | Os/Pthreads/Queue.cpp:149-155 | one locked section keeps the wakeup invariant of either side, unless it turns away a woken receiver |
| `QueueMonitor.CoveredSignal` | Os/Pthreads/Queue.cpp:165-166 | a signal keeps the wakeup invariant of either side |
| `QueueMonitor.NoLostWakeup` | Os/Pthreads/Queue.cpp:95-317 | in every run with any threads, blocking or not, and spurious wakeups: if a sender sleeps, every free place is pledged to a wakeup; if a receiver sleeps and blocking receivers have room for any message, every waiting message is |
| `QueueMonitor.StillOrProceeding` | Os/Pthreads/Queue.cpp:95-317 | no deadlock: the protocol has a step to make exactly while some thread is neither outside nor asleep |
| `QueueMonitor.NotBothAsleep` | Os/Pthreads/Queue.cpp:149-152 | with depth > 0 and enough room, whatever the other threads are doing: as long as nobody is woken and nobody owes a signal, there are not sleepers on both sides |
| `QueueMonitor.StrandedReceiver` | Os/Pthreads/Queue.cpp:278-308 | for every depth > 0, three or more threads and too little room: a run after which a receiver sleeps beside a waiting message and nobody will wake it |
| `QueueMonitor.NeverStrandedIffRoom` | Os/Pthreads/Queue.cpp:95-317 | no run leaves a thread asleep that could proceed if and only if depth is 0, or there are at most two threads, or every blocking receiver has room for msgSize bytes |
| `StableHeap.RootIsBest` | Os/Pthreads/MaxHeap/MaxHeap.cpp:158-217 | the root has the highest value; in a heap ordered by value and age it is the oldest entry of the highest value |
| `MachineWords.AgeIsTrue` | Os/Pthreads/MaxHeap/MaxHeap.cpp:221-250 | 32-bit subtraction of push counters gives the true age if and only if the age is below 2^32 |
| `StableHeap.OlderWinsIff` | Os/Pthreads/MaxHeap/MaxHeap.cpp:221-250 | of two equals the program takes the older first exactly until it is 2^32 pushes old, or if the younger came more than a whole turn later |
| `StableHeap.YoungerWins` | Os/Pthreads/MaxHeap/MaxHeap.cpp:221-250 | after 2^32 pushes the second push of a value leaves before the first |
| `StableHeap.UpStep` | Os/Pthreads/MaxHeap/MaxHeap.cpp:79-95 | a swap with the parent moves the only violation of heap order, by value or by value and age, one level up |
| `StableHeap.DownStep` | Os/Pthreads/MaxHeap/MaxHeap.cpp:158-217 | a swap with the larger child moves the only violation, of either order, one level down |
| `StableHeap.SortedWithout` | Os/Pthreads/MaxHeap/MaxHeap.cpp:111-137 | taking an entry out keeps the others oldest first |
| `StableHeap.RemoveRoot` | Os/Pthreads/MaxHeap/MaxHeap.cpp:111-137 | after the last entry replaced the root, the heap holds exactly the entries other than the root's, with violations at the root only |
| `StableHeap.MaxHeap.Max` | Os/Pthreads/MaxHeap/MaxHeap.cpp:221-250 | chooses by value, then by the 32-bit difference to the push counter |
| `StableHeap.MaxHeap.LargestOf` | Os/Pthreads/MaxHeap/MaxHeap.cpp:184-195 | finds the one among a node and its children that leaves first |
| `StableHeap.MaxHeap.Heapify` | Os/Pthreads/MaxHeap/MaxHeap.cpp:158-217 | restores heap order by value always, and by value and age while ages fit, below the hole without changing the entries |
| `StableHeap.MaxHeap.SiftUp` | Os/Pthreads/MaxHeap/MaxHeap.cpp:79-95 | restores either heap order above a new bottom entry without changing the entries |
| `StableHeap.MaxHeap.Push` | Os/Pthreads/MaxHeap/MaxHeap.cpp:62-109 | for every state: adds the value as the newest entry, or refuses when full; order by age is kept if no waiting entry has seen 2^32 - 1 pushes, and by every refusal |
| `StableHeap.MaxHeap.Pop` | Os/Pthreads/MaxHeap/MaxHeap.cpp:111-137 | for every state: takes out exactly one entry of the highest value, or refuses when empty; while ages fit it is the oldest |
| `BufferBytes.LiveSlotsDiffer` | Os/Pthreads/BufferQueueCommon.cpp:116-118 | positions less than depth apart use different slots, if the counter has not wrapped or depth divides 2^32 |
| `BufferBytes.SafeForeverIffDivides` | Os/Pthreads/BufferQueueCommon.cpp:116-118 | live messages never collide, however long the queue runs, if and only if depth divides 2^32 |
| `BufferBytes.SlotBytesDisjoint` | Os/Pthreads/BufferQueueCommon.cpp:116-118 | different slots occupy disjoint bytes inside the buffer |
| `BufferBytes.BufferIndexExact` | Os/Pthreads/BufferQueueCommon.cpp:116-118 | the 32-bit index computation is the slot's start, without overflow |
| `BufferBytes.SizeRoundTrip` | Os/Pthreads/BufferQueueCommon.cpp:120-143 | the four stored size bytes give the size back |
| `BufferBytes.WrittenElsewhere` | Os/Pthreads/BufferQueueCommon.cpp:120-131 | writing one slot leaves the message of every disjoint slot intact |
| `BufferBytes.WriteFresh` | Os/Pthreads/BufferQueueCommon.cpp:120-131 | writing a free slot adds its message behind the others and disturbs none |
| `BufferBytes.EnqueueBuffer` | Os/Pthreads/BufferQueueCommon.cpp:120-131 | the buffer afterwards is the old one with size and bytes written at the index |
| `BufferBytes.DequeueBuffer` | Os/Pthreads/BufferQueueCommon.cpp:133-155 | copies exactly the stored message if it fits, else reports its size and leaves the caller's buffer alone |
| `FifoBufferQueue.FirstInFirstOut` | Os/Pthreads/FIFOBufferQueue.cpp:66-97 | over every run, whatever capacities pops bring: accepted messages are exactly the delivered ones followed by the waiting ones, at most depth of them |
| `FifoBufferQueue.PeakIsLargest` | Os/Pthreads/BufferQueueCommon.cpp:63-68 | maxCount is the largest number waiting after any call, and is reached |
| `FifoBufferQueue.NextOffsetApart` | Os/Pthreads/FIFOBufferQueue.cpp:66-79 | the next push writes a slot inside the buffer and apart from all waiting messages |
| `FifoBufferQueue.BufferQueue.CountIsDifference` | Os/Pthreads/FIFOBufferQueue.cpp:66-97 | the number of waiting messages is always tail - head in 32 bits |
| `FifoBufferQueue.BufferQueue.Create` | Os/Pthreads/FIFOBufferQueue.cpp:37-51 | an empty queue with no calls made |
| `FifoBufferQueue.BufferQueue.Enqueue` | Os/Pthreads/FIFOBufferQueue.cpp:66-79 | adds the message behind the held ones at the tail |
| `FifoBufferQueue.BufferQueue.Push` | Os/Pthreads/BufferQueueCommon.cpp:51-70 | accepts exactly when not full; contents, counters and maxCount follow the recorded run of calls |
| `FifoBufferQueue.BufferQueue.Pop` | Os/Pthreads/BufferQueueCommon.cpp:72-89 | delivers the oldest message with exact bytes and size if it fits; otherwise reports the size and changes nothing |
| `PriorityOrder.MessagesAddUp` | Os/Pthreads/PriorityBufferQueue.cpp:131-176 | over every run the accepted messages are the delivered plus the waiting ones as multisets, and at most depth wait |
| `PriorityOrder.PeakIsLargest` | Os/Pthreads/BufferQueueCommon.cpp:63-68 | maxCount of a run is the largest number waiting after any call, and is reached |
| `PriorityOrder.AddsUpPopped` | Os/Pthreads/PriorityBufferQueue.cpp:151-176 | whichever message a pop takes or puts back, none is lost or made up |
| `PriorityOrder.RoomRefusesNone` | Os/Pthreads/PriorityBufferQueue.cpp:163-170 | over a run whose pops all have room, no pop is refused |
| `PriorityOrder.BestIsHead` | Os/Pthreads/PriorityBufferQueue.cpp:158-161 | the message taken heads the list of its priority, and all other lists stay |
| `PriorityOrder.EqualsFirstInFirstOut` | Os/Pthreads/PriorityBufferQueue.cpp:131-176 | over every run whose pops have room, messages of equal priority come out in the order they went in |
| `PriorityOrder.RefusedPopRotates` | Os/Pthreads/PriorityBufferQueue.cpp:163-170 | a pop without room moves the best message behind all others of its priority |
| `PriorityOrder.RefusedPopKeepsOrderIff` | Os/Pthreads/PriorityBufferQueue.cpp:163-170 | a refused pop keeps the order within priorities if and only if all waiting messages of the best priority are identical |
| `PriorityOrder.RefusedPopReorders` | Os/Pthreads/PriorityBufferQueue.cpp:163-170 | a run in which the message accepted second is delivered first among equals |
| `PriorityBufferQueue.FreeOffsetApart` | Os/Pthreads/PriorityBufferQueue.cpp:131-149 | the offset checked out lies in the buffer and overlaps no slot in use |
| `PriorityBufferQueue.AddConserves` | Os/Pthreads/PriorityBufferQueue.cpp:138-143 | a push keeps free and used offsets together each slot exactly once |
| `PriorityBufferQueue.RequeueConserves` | Os/Pthreads/PriorityBufferQueue.cpp:163-170 | so does a refused pop |
| `PriorityBufferQueue.RemoveConserves` | Os/Pthreads/PriorityBufferQueue.cpp:172-173 | so does a pop, and the pool is not full before the return |
| `PriorityBufferQueue.PoolTake` | Os/Pthreads/PriorityBufferQueue.cpp:44-53 | the ring's first entry is the next free offset, and the rest stays |
| `PriorityBufferQueue.PoolGive` | Os/Pthreads/PriorityBufferQueue.cpp:55-63 | a returned offset goes behind the free ones and overwrites none |
| `PriorityBufferQueue.BestAgrees` | Os/Pthreads/PriorityBufferQueue.cpp:158-161 | the heap's best entry stands for the best waiting message |
| `PriorityBufferQueue.ForemostAgrees` | Os/Pthreads/PriorityBufferQueue.cpp:158-161 | an entry of the highest value stands for a message of the highest priority |
| `PriorityBufferQueue.FillIndexes` | Os/Pthreads/PriorityBufferQueue.cpp:90-92 | the pool starts with every slot's offset in order |
| `PriorityBufferQueue.OffsetPool.Checkout` | Os/Pthreads/PriorityBufferQueue.cpp:44-53 | takes the first free offset; the assertion on the counters cannot fire |
| `PriorityBufferQueue.OffsetPool.Return` | Os/Pthreads/PriorityBufferQueue.cpp:55-63 | appends an offset; the assertion on the counters cannot fire |
| `PriorityBufferQueue.BufferQueue.PoolCounts` | Os/Pthreads/PriorityBufferQueue.cpp:44-63 | after any number of calls, whatever the ages in the heap: stopIndex - startIndex in 32 bits equals depth - count |
| `PriorityBufferQueue.BufferQueue.EarlyRunsAreSound` | Os/Pthreads/PriorityBufferQueue.cpp:44-63 | with accepted pushes, refused pops and depth together below 2^32, the next call finds ring and ages sound; refused pushes and pops of an empty queue do not count |
| `PriorityBufferQueue.BufferQueue.RoomyRunsAreSound` | Os/Pthreads/PriorityBufferQueue.cpp:44-63 | if all pops had room, fewer than 2^32 - depth accepted pushes are enough for that |
| `PriorityBufferQueue.BufferQueue.Create` | Os/Pthreads/PriorityBufferQueue.cpp:69-107 | an empty queue over a full pool with no calls made |
| `PriorityBufferQueue.BufferQueue.Enqueue` | Os/Pthreads/PriorityBufferQueue.cpp:131-149 | for every state of the counters: stores the message in a free slot, conserves the slots and enters it as the newest |
| `PriorityBufferQueue.BufferQueue.Push` | Os/Pthreads/BufferQueueCommon.cpp:51-70 | accepts exactly when not full and adds the message as the newest, for every state of the counters; the queue still does what a stable priority list does, unless an accepted push makes a waiting entry 2^32 pushes old |
| `PriorityBufferQueue.BufferQueue.Dequeue` | Os/Pthreads/PriorityBufferQueue.cpp:151-176 | takes a message of the highest priority if it fits, otherwise enters it again as the newest and keeps its slot; slots are conserved whatever the ages, and in a stable heap it is the oldest |
| `PriorityBufferQueue.BufferQueue.Pop` | Os/Pthreads/BufferQueueCommon.cpp:72-89 | delivers exact bytes, size and priority of a message of the highest priority, or reports its size and keeps it, for ever if depth divides 2^32; in a stable queue it is the oldest, as the recorded run of calls says |
| `Crc16.Compute` | vesc/vescminimal_nov20.py:6-16 | the two nested loops compute the checksum function |
| `Crc16.ShiftIsFeed` | vesc/vescminimal_nov20.py:11-15 | shift, conditional xor and mask feed one zero bit into a linear feedback register |
| `Crc16.LoadIsFeed` | vesc/vescminimal_nov20.py:9-15 | xor-ing a word into the register and shifting is feeding the word bit by bit |
| `Crc16.CrcIsFeed` | vesc/vescminimal_nov20.py:6-16 | the byte loop equals a bit-serial fold over all bits of the data, and the result fits 16 bits |
| `Crc16.FeedAllLinear` | vesc/vescminimal_nov20.py:6-16 | the bit-serial fold is linear over exclusive or |
| `Crc16.CrcLinear` | vesc/vescminimal_nov20.py:6-16 | the checksum of the xor of two messages of equal length is the xor of their checksums |
| `Crc16.TurnInjective` | vesc/vescminimal_nov20.py:11-15 | one turn of the inner loop is injective on the register |
| `Crc16.BurstDetected` | vesc/vescminimal_nov20.py:6-16 | different messages of equal length that differ only within 16 consecutive bits have different checksums |
| `Crc16.SeventeenCancel` | vesc/vescminimal_nov20.py:6-16 | 16 is the limit: two messages differing within 17 bits with equal checksums |
| `Crc16.FeedAllParity` | vesc/vescminimal_nov20.py:6-16 | feeding digits changes the parity of the register by the parity of the digits |
| `Crc16.ParityKept` | vesc/vescminimal_nov20.py:6-16 | the checksum has an odd number of digits set exactly if the data has |
| `Crc16.OddErrorsDetected` | vesc/vescminimal_nov20.py:6-16 | messages of equal length that differ in an odd number of digits, wherever they are, have different checksums |
| `Crc16.SelfCheckIff` | vesc/vescminimal_nov20.py:31-34 | payload and two further bytes check to zero if and only if the bytes are the checksum, high byte first |
| `Crc16.SendPacket` | vesc/vescminimal_nov20.py:22-38 | refuses exactly bodies of 256 bytes or more; otherwise the packet is start byte, length, body, checksum, end byte |
| `Crc16.PacketIsSelfDescribing` | vesc/vescminimal_nov20.py:22-38 | a packet tells its own length, carries the body unchanged and checks to zero exactly with the right checksum |
| `Crc16.DamageDetected` | vesc/vescminimal_nov20.py:22-38 | damage to body and checksum of a packet is noticed if it lies within 16 consecutive bits or hits an odd number of bits |
| `FwTime.CompareIsOrder` | Fw/Time/Time.cpp:158-190 | times of one clock compare like microsecond values; others are incomparable |
| `FwTime.AddIsSum` | Fw/Time/Time.cpp:192-213 | add is exact up to one turn of the 32-bit seconds |
| `FwTime.AddIsMonotoneIff` | Fw/Time/Time.cpp:192-213 | adding never goes back in time if and only if the sum does not overflow |
| `FwTime.SubIsDifference` | Fw/Time/Time.cpp:215-239 | sub is exact and add undoes it |
| `FwTime.SubUndoesAdd` | Fw/Time/Time.cpp:192-239 | sub undoes add when nothing overflows |
| `TokenBuckets.TokenBucket.Full` | Utils/TokenBucket.cpp:18-31 | sets all settings and the state; any start time is accepted |
| `TokenBuckets.TokenBucket.Simple` | Utils/TokenBucket.cpp:33-45 | a full bucket at time zero with rate one |
| `TokenBuckets.TokenBucket.Replenish` | Utils/TokenBucket.cpp:71-78 | fills the bucket and never takes tokens away; a new run of calls starts |
| `TokenBuckets.TokenBucket.Trigger` | Utils/TokenBucket.cpp:104-132 | accepts any time; stops at the assertion in Time::add exactly if it replenishes and the bucket's time has a time base or context or too many microseconds; otherwise the loop terminates, interval zero included, answer and state are those of the recursive description, and state and grants those of the recorded run |
| `TokenBuckets.ForeignStartAsserts` | Utils/TokenBucket.cpp:108-110 | a start time of another clock is accepted, and then every call stops exactly if the rate is positive |
| `TokenBuckets.PouredTokens` | Utils/TokenBucket.cpp:112-117 | closed form of the loop: whole elapsed intervals times the rate, cut off at the capacity |
| `TokenBuckets.PouredTime` | Utils/TokenBucket.cpp:112-117 | the loop does not run ahead of the call and stops less than an interval behind unless full |
| `TokenBuckets.ZeroIntervalFills` | Utils/TokenBucket.cpp:112-117 | with interval zero the bucket is filled as soon as its time has come |
| `TokenBuckets.PouredCredit` | Utils/TokenBucket.cpp:112-117 | replenishing turns credit into tokens and creates none |
| `TokenBuckets.GrantedByCredit` | Utils/TokenBucket.cpp:104-132 | over any calls up to u, grants plus remaining credit never exceed the initial credit |
| `TokenBuckets.OneMoreCall` | Utils/TokenBucket.cpp:104-132 | state and number of grants of a run with one more call at its end, which ties the object's record to the theorems on runs |
| `TokenBuckets.WholeRunBound` | Utils/TokenBucket.cpp:104-132 | at most startTokens + rate * floor((u - start) / interval) grants up to time u |
| `TokenBuckets.WindowBound` | Utils/TokenBucket.cpp:104-132 | in every window of calls after any others: at most max(capacity, start tokens) + rate * (floor(span / interval) + 1) grants |
| `TokenBuckets.OtherClockOnlyTakes` | Utils/TokenBucket.cpp:112-131 | a call with a time of another clock brings no tokens, moves no time, and is granted exactly if there is a token |
| `TokenBuckets.BackwardsCallRefusedIff` | Utils/TokenBucket.hpp:53-61 | a call from before the bucket's time is refused if and only if the bucket is empty, where the header says always |
| `TokenGuarantees.NoCreditLost` | Utils/TokenBucket.cpp:112-121 | a call that does not find the bucket full turns credit into tokens one for one and loses none |
| `TokenGuarantees.ReplenishedTime` | Utils/TokenBucket.cpp:112-121 | the bucket's time never passes that of the call, and is that of the call once the bucket is full |
| `TokenGuarantees.RefusedOnlyAfterGrant` | Utils/TokenBucket.cpp:104-132 | over every run in order of time: a call is refused only if a call less than one interval before it was granted, or if the bucket started empty less than one interval before it |
| `TokenGuarantees.RefusedIsUsedUp` | Utils/TokenBucket.cpp:104-132 | the number of grants up to a refused call is exact: startTokens + rate * floor((t - start) / interval), or, from some call on that found the bucket full, its tokens then + rate * floor of the intervals since then |
| `RateLimiting.RateLimiter.Create` | Utils/RateLimiter.cpp:17-28 | the fresh state |
| `RateLimiting.RateLimiter.ShouldTimeTrigger` | Utils/RateLimiter.cpp:145-156 | due if and only if timeCycle seconds or more have passed, counted in microseconds, since the stored trigger time, or before any call; never with the time of another clock |
| `RateLimiting.RateLimiter.UpdateCounter` | Utils/RateLimiter.cpp:158-173 | restarts, counts or wraps the counter |
| `RateLimiting.RateLimiter.UpdateTime` | Utils/RateLimiter.cpp:175-185 | remembers the trigger time and leaves negative infinity |
| `RateLimiting.RateLimiter.Trigger` | Utils/RateLimiter.cpp:88-125 | accepts any time; stops at the assertion in Time::add exactly if the call goes by time and the stored time has a time base or context or too many microseconds; otherwise decides by count or time, and after usable times only exactly as the theorems on the recorded run say |
| `RateLimiting.DueIsPassed` | Utils/RateLimiter.cpp:151-153 | the stored time plus the cycle, with carry, is at most the time of the call exactly if the cycle has passed in microseconds |
| `RateLimiting.ForeignTimeAsserts` | Utils/RateLimiter.cpp:100-122 | a first call with a time base is accepted and triggers, and the next call by time then asserts |
| `RateLimiting.RunsTrack` | Utils/RateLimiter.cpp:88-185 | after every run counter and time say how long ago the latest trigger was |
| `RateLimiting.Spacing` | Utils/RateLimiter.cpp:88-185 | the first call triggers; a later one triggers exactly if it is the period-th since the latest trigger or the time cycle has passed since then |
| `RateLimiting.CountedCalls` | Utils/RateLimiter.cpp:158-173 | by count alone exactly the calls 0, period, 2 period, ... trigger |
| `RateLimiting.EveryNthCallIff` | Utils/RateLimiter.cpp:158-173 | every counterCycle-th call triggers, and no other, if and only if the cycle is not one (cycle one triggers every second call) |
| `Serialization.NumberOfBigEndian` | Fw/Types/Serializable.cpp:91-166 | big-endian bytes give the number back |
| `Serialization.BigEndianOfNumber` | Fw/Types/Serializable.cpp:319-415 | a number read from bytes encodes to those bytes |
| `Serialization.BigEndianByte` | Fw/Types/Serializable.cpp:91-155 | byte k of w is n / 256^(w - 1 - k) modulo 256: most significant first |
| `Serialization.NumberIsWeighted` | Fw/Types/Serializable.cpp:319-415 | a number read is the sum of its bytes times 256^(number of bytes behind) |
| `Serialization.RoomTestIff` | Fw/Types/Serializable.cpp:67-286 | the 32-bit test for room is right if and only if cursor plus length stay below 2^32 |
| `Serialization.SerialBuffer.SerializeNumber` | Fw/Types/Serializable.cpp:67-186 | appends the bytes, each at its place and most significant first, if there is room, else changes nothing |
| `Serialization.SerialBuffer.SerializeBlock` | Fw/Types/Serializable.cpp:237-258 | appends length and bytes; without room for the bytes the length stays written; the read cursor goes back to zero as soon as anything was written and stays otherwise |
| `Serialization.SerialBuffer.Serialize` | Fw/Types/Serializable.cpp:67-258 | every kind of value: status and written bytes are those of the write function, the rest of the buffer is untouched, and the read cursor goes back to zero exactly if something was written |
| `Serialization.SerialBuffer.SerializeAll` | Fw/Types/Serializable.cpp:67-258 | a loop of writes up to the first without room leaves what the list write function says, and the read cursor at zero if anything was written |
| `Serialization.SerialBuffer.DeserializeNumber` | Fw/Types/Serializable.cpp:290-438 | empty, too short, or the sum of the bytes with their weights, with the cursor moved only on success |
| `Serialization.SerialBuffer.DeserializeBool` | Fw/Types/Serializable.cpp:459-478 | the two boolean bytes; any other byte is a format error that leaves the cursor |
| `Serialization.SerialBuffer.DeserializeBlock` | Fw/Types/Serializable.cpp:496-529 | the stored length is consumed even if the block then does not fit |
| `Serialization.SerialBuffer.Deserialize` | Fw/Types/Serializable.cpp:290-529 | on arbitrary bytes the cursors stay in order within the capacity, and status, value and cursor are those of the read function |
| `Serialization.SerialBuffer.DeserializeAll` | Fw/Types/Serializable.cpp:290-529 | a loop of reads up to the first failure returns the values and leaves the unread bytes of the list read function |
| `Serialization.SerialBuffer.WriteAndRead` | Fw/Types/Serializable.cpp:67-529 | on the buffer object: a list of values that fits, and only such a list, is written and read back as the same values, with nothing left to read |
| `Serialization.SerialBuffer.DeserializeSkip` | Fw/Types/Serializable.cpp:578-589 | skips within what is left, with the two error cases |
| `Serialization.SerialBuffer.SetBuff` | Fw/Types/Serializable.cpp:595-606 | replaces the contents and resets the cursors if it fits |
| `Serialization.SerialBuffer.SetBuffLen` | Fw/Types/Serializable.cpp:608-616 | sets the write cursor within the capacity and resets the read cursor |
| `Serialization.SerialBuffer.CopyRaw` | Fw/Types/Serializable.cpp:618-634 | replaces the other buffer by bytes from the read cursor on; keeps the cursors in order if and only if it refuses or the bytes are unread ones |
| `Serialization.SerialBuffer.CopyRawOffset` | Fw/Types/Serializable.cpp:636-653 | moves unread bytes to the end of another buffer, or changes neither |
| `Serialization.SerialBuffer.Fill` | Fw/Types/SerialBuffer.cpp:47-52 | everything in the buffer counts as written and unread |
| `Serialization.SerialBuffer.PushBytes` | Fw/Types/SerialBuffer.cpp:54-59 | appends raw bytes if there is room |
| `Serialization.SerialBuffer.PopBytes` | Fw/Types/SerialBuffer.cpp:61-66 | takes raw bytes off the unread part if there are enough |
| `Serialization.GetOfPut` | Fw/Types/Serializable.cpp:67-529 | what was written for a value is read back for its type, whatever follows |
| `Serialization.BlockReturnsIff` | Fw/Types/Serializable.cpp:237-258 | a length-prefixed block comes back if and only if it is shorter than 65536 bytes |
| `Serialization.PutOfGet` | Fw/Types/Serializable.cpp:290-529 | whatever a read accepts is the encoding of what it returns |
| `Serialization.PutAllIff` | Fw/Types/Serializable.cpp:67-258 | a list of values is written in full behind what is there if and only if it fits the capacity |
| `Serialization.ListRoundTrip` | Fw/Types/Serializable.cpp:67-529 | a list of values reads back as the same values and leaves exactly what follows; nothing if nothing follows |
| `Serialization.ListReadIsWritten` | Fw/Types/Serializable.cpp:290-529 | any bytes that read as a list of values are the encoding of that list followed by what is left |
| `WireFormat.FourBytes` | Fw/Types/Serializable.cpp:117-145 | a 32-bit number is written as its four bytes from the highest to the lowest |
| `WireFormat.TwosComplement` | Fw/Types/Serializable.cpp:79-186 | a negative number is written as itself plus 256^w, and the top bit is its sign |
| `WireFormat.BoolBytes` | Fw/Types/Serializable.cpp:208-226 | true is written as 0xFF and false as 0x00 |
| `WireFormat.BlockBytes` | Fw/Types/Serializable.cpp:237-258 | a block is written as its length in two bytes, high byte first, and its bytes |
| `WireFormat.StatusesAre` | Fw/Types/Serializable.cpp:290-529 | each status of a read: nothing left, too short or too long for what is left or for the caller's room, no boolean, or ok |
| `WireFormat.AcceptedBlockFits` | Fw/Types/Serializable.cpp:496-529 | an accepted block is exactly the bytes announced by the two before it, and never longer than the caller's room |
| `FilePackets.SizeIsLength` | Fw/FilePacket/FilePacket.cpp:96-112 | bufferSize equals the number of encoded bytes for every packet |
| `FilePackets.HeaderRoundTrip` | Fw/FilePacket/Header.cpp:34-70 | type and index come back from the header |
| `FilePackets.TakeOfPath` | Fw/FilePacket/PathName.cpp:35-82 | a path comes back from its length-prefixed form |
| `FilePackets.StartRoundTrip` | Fw/FilePacket/StartPacket.cpp:51-118 | a start packet's body comes back, whatever follows |
| `FilePackets.DataRoundTrip` | Fw/FilePacket/DataPacket.cpp:52-109 | a data packet's body comes back |
| `FilePackets.EndRoundTrip` | Fw/FilePacket/EndPacket.cpp:60-91 | an end packet's body comes back, whatever follows |
| `FilePackets.RoundTrip` | Fw/FilePacket/FilePacket.cpp:22-166 | fromBuffer of toBuffer gives the packet back for all four kinds |
| `FilePackets.AcceptedIsEncoded` | Fw/FilePacket/FilePacket.cpp:138-166 | accepted bytes begin with the encoding of the packet, and are exactly it for data and cancel packets |
| `FilePackets.AcceptedIff` | Fw/FilePacket/FilePacket.cpp:138-166 | exactly the encodings of well-formed packets, with a tail for start and end, are accepted |
| `FilePackets.AssertsIff` | Fw/FilePacket/FilePacket.cpp:145-164 | the assertion on the packet type fires exactly if a whole header with an unknown type byte is there |
| `FilePackets.ToBuffer` | Fw/FilePacket/FilePacket.cpp:116-132 | succeeds exactly when the buffer has bufferSize bytes, and then writes exactly the encoding and nothing behind it |
| `FilePackets.FromBuffer` | Fw/FilePacket/FilePacket.cpp:22-32 | decodes the whole buffer as the decoding function does, with every error status |
| `FilePackets.DataFromSerial` | Fw/FilePacket/DataPacket.cpp:52-74 | demands exactly dataSize trailing bytes and takes them from behind the fixed part |
| `WireFormat.HeaderBytes` | Fw/FilePacket/Header.cpp:34-70 | a packet's first byte is 0, 1, 2 or 3 for start, data, end and cancel, and the next four are its index |
| `WireFormat.StartBytes` | Fw/FilePacket/StartPacket.cpp:85-118 | a start packet by position: file size, length and bytes of the source path, length and bytes of the destination path |
| `WireFormat.DataBytes` | Fw/FilePacket/DataPacket.cpp:76-109 | a data packet by position: offset, length in two bytes, bytes |
| `WireFormat.EndBytes` | Fw/FilePacket/EndPacket.cpp:74-91 | an end packet by position: the checksum; a cancel packet is its header |
| `WireFormat.RefusalsAre` | Fw/FilePacket/FilePacket.cpp:138-166 | which bytes are refused and with which status, told by the positions of the fields |
| `CfdpChecksum.Checksum.AddByteAtOffset` | CFDP/Checksum/Checksum.cpp:132-141 | adds the byte with the weight of its place, modulo 2^32 |
| `CfdpChecksum.Checksum.AddWordAligned` | CFDP/Checksum/Checksum.cpp:108-113 | adds four bytes from place zero |
| `CfdpChecksum.Checksum.AddWordUnaligned` | CFDP/Checksum/Checksum.cpp:115-130 | adds up to three bytes from any place, wrapping to the next word |
| `CfdpChecksum.LoopEndsIff` | CFDP/Checksum/Checksum.cpp:93-95 | with its 32-bit index the loop over aligned words ends if and only if the place behind the last whole word plus four is below 2^32 |
| `CfdpChecksum.Checksum.Update` | CFDP/Checksum/Checksum.cpp:71-106 | for exactly the lengths for which the loop ends: adds every byte of the chunk with the weight of its position in the file, despite the 8-bit position |
| `CfdpChecksum.Checksum.UpdateAll` | CFDP/Checksum/Checksum.cpp:71-106 | updating chunk by chunk leaves what the description over chunks says |
| `CfdpChecksum.PlaceOfTruncated` | CFDP/Checksum/Checksum.cpp:88-103 | cutting the position to 32 and to 8 bits does not change the place in the word |
| `CfdpChecksum.WholeFile` | CFDP/Checksum/Checksum.cpp:71-141 | the sum over bytes is the sum of the zero-padded file's big-endian words |
| `CfdpChecksum.ChunkingAndOrderDoNotMatter` | CFDP/Checksum/Checksum.cpp:71-141 | for every partition of a file into chunks, in every order, the result is the checksum of section 4.2 of CCSDS 727.0-B-4 |
| `CfdpChecksum.Checksum.UpdateWithFile` | CFDP/Checksum/Checksum.cpp:71-141 | on the object: the chunks of a file of up to 2^32 - 5 bytes, cut anyhow and in any order, leave the file's checksum |
| `FileCrc.File.ReadBytes` | Os/Linux/File.cpp:175-251 | what is returned is the file from the old position on; end of file, error and size cases; the retry assertion fires only after two interruptions, and without waitForFull exactly if the first 2 * size reads are interrupted |
| `FileCrc.FoldOfBoth` | Os/FileCommon.cpp:50-53 | digesting chunk after chunk is digesting their concatenation |
| `FileCrc.FoldIsLastRegister` | Os/FileCommon.cpp:50-53 | the fold is the last register of a chain from the seed that takes one byte at a time, first to last |
| `FileCrc.File.Digest` | Os/FileCommon.cpp:50-53 | the inner loop is the fold over the chunk |
| `FileCrc.File.ReadChunk` | Os/FileCommon.cpp:31-48 | one open, seek, read, close turn yields the file's next bytes, or an error |
| `FileCrc.File.NiceCRC32` | Os/FileCommon.cpp:17-70 | for all kernel behaviour and all file sizes: success means the fold over the whole file from 0xFFFFFFFF, which is the result for an empty file; failure means zero; the signed offset can overflow only from 2^31 bytes on, and success means that there are fewer; without faults it succeeds or overflows |
| `FileCrc.File.CalculateCRC32` | Os/Linux/File.cpp:421-483 | the same for the checksum of an open file |
| `DutyServer.ExclusiveStep` | vesc_tcp_server.py:53-68 | every step of clients and sender keeps the lock exclusive |
| `DutyServer.SafeStep` | vesc_tcp_server.py:85-141 | every step keeps: duty within the limit, no duty while disabled, samples equal to the duty that counts |
| `DutyServer.TracedStep` | vesc_tcp_server.py:53-68 | every step keeps: what the sender holds or has sent is the duty that counted when it last took its sample |
| `DutyServer.ClampIsNearest` | vesc_tcp_server.py:59-59 | the clamped duty lies within 0.05 either way, and every other duty that does is further from what was asked for |
| `DutyServer.ObeysStep` | vesc_tcp_server.py:85-141 | every step keeps: the stored duty and every sample are what the commands so far permit |
| `DutyServer.DutyIsSafe` | vesc_tcp_server.py:53-141 | in every reachable state: disabled means duty zero except between the two writes of the command that disables; every value sent is within 0.05 either way and is the effective duty at the sender's latest sample |
| `DutyServer.SendsFollowCommands` | vesc_tcp_server.py:53-141 | in every reachable state: each value sent is what the commands before the latest sample permit, zero while off, otherwise the permitted duty nearest to the latest one asked for while on |
| `DutyServer.AtMostOneSendAfterOff` | vesc_tcp_server.py:53-141 | between a disable or stop command and the next enable at most one nonzero duty is sent, in every interleaving |
| `DutyServer.OffIsImmediateIff` | vesc_tcp_server.py:5-9 | switching off takes effect at once, in every continuation, if and only if the sender is not on its way with a nonzero sample |
| `DutyServer.LateSend` | vesc_tcp_server.py:53-141 | for every duty but zero and both commands: a run after which the duty is off and zero and the sender is on its way with the old one, and which then sends it |
| `EventFilters.FullIff` | Svc/ActiveLogger/ActiveLoggerImpl.cpp:168-178 | a table without repeated IDs is full exactly when no entry is free |
| `EventFilters.Fill` | Svc/ActiveLogger/ActiveLoggerImpl.cpp:168-174 | using a free entry adds exactly the ID and keeps entries distinct |
| `EventFilters.Clear` | Svc/ActiveLogger/ActiveLoggerImpl.cpp:181-187 | zeroing an entry removes exactly its ID |
| `EventFilters.ActiveLogger.Create` | Svc/ActiveLogger/ActiveLoggerImpl.cpp:19-38 | no ID command yet, so no ID is blocked; all severities but diagnostic are on |
| `EventFilters.ActiveLogger.AddId` | Svc/ActiveLogger/ActiveLoggerImpl.cpp:158-178 | response and blocked set as for a bounded set, the reserved ID zero included |
| `EventFilters.ActiveLogger.RemoveId` | Svc/ActiveLogger/ActiveLoggerImpl.cpp:179-192 | response and blocked set as for a bounded set, the reserved ID zero included |
| `EventFilters.ActiveLogger.SetIdFilter` | Svc/ActiveLogger/ActiveLoggerImpl.cpp:141-194 | dispatches, and answers and changes the table as the recorded run of commands says |
| `EventFilters.ActiveLogger.SetEventFilter` | Svc/ActiveLogger/ActiveLoggerImpl.cpp:129-139 | sets one severity, or refuses without change |
| `EventFilters.ActiveLogger.LogRecv` | Svc/ActiveLogger/ActiveLoggerImpl.cpp:50-112 | an event is forwarded if and only if it is FATAL, or its severity is on and its ID is not blocked, that is, the latest accepted command on it does not say so |
| `EventFilters.LatestCommandDecides` | Svc/ActiveLogger/ActiveLoggerImpl.cpp:141-194 | after every run of commands an ID is blocked exactly if the latest accepted command on it says so; at most 25 are, and never zero |
| `EventFilters.ResponsesAre` | Svc/ActiveLogger/ActiveLoggerImpl.cpp:141-194 | the response to every ID command after any run: for an ID that is blocked or not, the reserved ID, a full table and a bad switch |
| `EventFilters.RefusedIffFull` | Svc/ActiveLogger/ActiveLoggerImpl.cpp:158-178 | a new ID is refused if and only if the table is full |

## Left out

- Weak memory ordering: the lockless queue is proved for sequentially consistent memory, which the source's built-in
  compare-and-swap does not give for its plain reads and writes.
- A negative size passed to the lockless `Send`, allocation failures, destructors, and `create` on a queue in use.
- StableHeap.MaxHeap.Push: promises the order of equals only while no waiting entry has seen 2^32 - 1 later pushes;
  beyond that the source can take the younger of two equals (`OlderWinsIff`, `YoungerWins`).
- FifoBufferQueue.BufferQueue.Push: requires of an accepted push fewer than 2^32 before it unless depth divides 2^32;
  beyond that slots collide (`SafeForeverIffDivides`).
- PriorityBufferQueue.BufferQueue.Create: requires depth below 2^31 and all offsets below 2^32, as the source's signed
  and 32-bit index arithmetic does.
- PriorityBufferQueue.BufferQueue.Pop: requires, if a message of the highest priority fits, that the pool's stop
  counter has not reached 2^32 or depth divides 2^32; beyond that the returned offset can overwrite a free one. The
  order of equals is promised with the heap's own restriction.
- BufferBytes.SizeRoundTrip: fixes one byte order for the stored size, low byte first; the source copies the host's.
- QueueMonitor.CallsAreHonest: is about calls that reach the lock; a send larger than msgSize, a missing buffer or
  queue is refused before that.
- QueueMonitor.RunsAreSound: looks at sizes of messages only; their order and bytes are the buffer queues' business,
  which the locked section calls atomically.
- The kernel-backed queues in `Os/Posix/Queue.cpp` and `Os/Posix/IPCQueue.cpp`: ordering and storage are the kernel's.
- CfdpChecksum.Checksum.Update: requires a length for which the source's loop ends (`LoopEndsIff`); for the others,
  all of at least 2^32 - 4 bytes, there is no result to state.
- FileCrc.File.NiceCRC32: ends where the signed offset overflows; what the source does from there on is undefined. The
  table-driven byte step in `Utils/Hash/libcrc/lib_crc.c` is a parameter of the model.
- Os/Linux/File.cpp: write, prealloc and bulk write; they have the same retry loop.
- The union layout of file packets: decoding returns a packet instead of overwriting a union, and a data packet or
  path holds a copy of its bytes instead of a pointer into the buffer. What a failed decode leaves in the union is not
  said.
- FilePackets.ToBuffer: does not say what a buffer that is too small holds afterwards.
- Nested serializable objects and pointers; floating point values are the case of unsigned numbers of four and eight
  bytes.
- Serialization.SerialBuffer.PushBytes: lengths are unbounded here; with a length near 2^32 the source's 32-bit sum
  `m_serLoc + length` wraps around and the test for room passes, exactly as `RoomTestIff` says.
- Serialization.SerialBuffer.SerializeBlock: likewise.
- Serialization.SerialBuffer.CopyRawOffset: likewise for the sum of `size` and the other buffer's length; a buffer
  that is copied to itself is left out.
- Serialization.SerialBuffer.CopyRaw: requires that bytes to be copied lie in the buffer's memory, which the source
  does not test, and two different buffers.
- TokenBuckets.WindowBound: is for fixed settings, times of the bucket's own clock and no overflow of the seconds.
- RateLimiting.Spacing: is for runs from the fresh state with fixed settings and no overflow of the seconds.
- DutyServer.DutyIsSafe: duty values are real numbers; not-a-number inputs, parsing, sockets and the serial device are
  left out. A send is counted where the server calls the controller object (`vesc_tcp_server.py:64`); the vendored
  controller class in `vesc/vendor/vescminimal_nov20.py` has that operation under the name `set_duty_cycle` only.
- EventFilters.ActiveLogger.LogRecv: ends at the hand-over to the logger's queue; packing and sending the event, and
  the dump command, are left out.
- Sockets, drivers, topology, the motor bridge component and string classes: plumbing around foreign calls.
