# A verified model of the trading-system data structures and protocols

This Dafny project models the parts of the repository whose correctness is hardest to see by reading one
function, and proves what they promise: the lock-free queue, free list and memory pool of the trading system,
the market-data gap recovery, its hash maps and order book, and four smaller programs (a monitor queue, a
shared pointer, a minesweeper game and a Twitter feed). `dafny verify dfyconfig.toml` checks everything.

## How the models are built

**Lock-free code is a system of atomic steps.** One atomic load, store, compare-exchange or fetch-add of one
thread, with the local computation up to the next one, is one step. A program counter carries the thread's
locals. A schedule is a list of choices and `Run` is a total fold over it (a choice that is not enabled leaves the
state alone), so a lemma about `Run` for every schedule is a statement about every interleaving of any
number of threads. Memory is sequentially consistent. Fields called history are written by steps and read by none.
Each such module has one inductive invariant and derives its results from it.

**Sequential code is a class** with the original's fields, and each method is proved against a function of the old
state; lemmas then prove what that function means. A `std::vector` whose elements or length change is a field of
type `seq`, a `std::array` an `array`, an `unordered_map` a `map`. Exceptions are a boolean or `Option` result.

| file | models |
|---|---|
| `Words.dfy` | 64-bit words, wrap-around comparison, masks of power-of-two rings |
| `FreeList.dfy`, `TicketDequeue.dfy`, `BlockIndex.dfy` | the free list, the dequeue counters and the implicit producer's block index of `concurrentqueue.h` |
| `ImplicitQueue.dfy` | the implicit producer's queue as a whole: claims decided by the counters, elements found through the index |
| `MpmcQueue.dfy`, `MpmcWords.dfy` | the MPMC ring queue of `Queue.hpp` on unbounded positions, and the same machine on 64-bit words |
| `SpscQueue.dfy` | the SPSC ring queue of `Queue.hpp` |
| `TaggedPool.dfy` | the tagged free list of `MemoryPool.hpp` |
| `Sequencer.dfy` | message store, snapshot server and gap-recovering sequencer |
| `ChainingMap.dfy`, `OpenAddressing.dfy` | two of the hash maps of `HashMap.hpp` |
| `OrderBook.dfy` | `OrderBook<false>` |
| `Minesweeper.dfy`, `BlockingQueue.dfy`, `Twitter.dfy`, `SharedPtr.dfy` | the four smaller programs |

## Where the code does less than it seems to

Each of these is a proved statement, with the exact condition under which the code is right.

- The MPMC queue's constructor accepts capacity 1, where a full cell looks free and an unread value is
  overwritten (`CapacityOneOverwrites`); from capacity 2 on the queue is a bounded FIFO.
- The pool's test for exhaustion compares a 32-bit index with a 64-bit -1 and never fires; `allocate` then reads past
  the index array exactly when the free list was empty at that thread's latest load of the head, at the call or at a
  retry (`ReadsPastTheArrayIffEmpty`). A free slot at the call is not enough (`RetryOverrunsWithASlotAtTheCall`):
  calls are safe when each is made with more free slots than threads inside `allocate` (`GuardedCallsStayInside`),
  and a call made with fewer can go wrong whatever happened before (`UnguardedCallCanOverrun`).
- The SPSC queue moves `head_` before it reads the slot. If there was room for k more elements, the oldest one is
  read exactly as long as at most k enqueues come in between; the next one is accepted and its element is read
  instead (`OldestIsReadIff`; `TwoEnqueuesReplaceTheOldest` is a queue that was not full). The queue's own theorems
  therefore take whole operations as atomic.
- The sequencer goes on after a recovery that breaks off early, and offers the gap-revealing message out of step. The
  gap is closed exactly when the missing messages come in order before the connection breaks, and the stream is
  lost exactly when the connection breaks after too few of them (`StreamSurvivesIffRecoveryCompletes`, with
  `ClosedRecoveryLosesTheStream`; over whole runs `RunSurvivesIff` and `RunEnds`).
- The snapshot server counts with an `int`: a request within the store is answered in full exactly when its end is
  below 2^31 - 1, and every other pair of words has the reply or the overflow that `ServeGapRequest` states.
- A bulk dequeue that asks for nothing still claims, looks its index up and completes 0 elements. Runs whose
  bulk calls all ask for at least n elements never fail an assertion if and only if n is at least 1
  (`SafeIffBulkCallsAskForSomething`): for nothing, the look-up can come after the last block
  (`EmptyBulkFailsTheLookup`), and from every quiet state with an unclaimed place such a call can lead to two consumers
  giving the same block back (`AskingForNothingCanGiveBackTwice`).
- The chaining map's `insert` never looks for its key; it is a map update exactly when the key is absent
  (`InsertRefinesIff`), and erasing a duplicated key uncovers the newer value (`ErasingUncoversTheDuplicate`).
- The open-addressing map's `insert` and `operator[]` reuse the first tombstone: they update the map exactly when the
  table grows or no tombstone precedes the key (`InsertedRefinesIff`, `IndexedRefinesIff`); otherwise a later erase
  brings the old value back (`ShadowedKeyComesBack`, reachable by `ShadowingIsReachable`).
- The open-addressing map steps with a mask, which reaches every slot exactly for a power of two
  (`Words.MaskReachesAllIff`); its constructor does not check that.
- The order book's levels stay exact under an insert exactly when the id is new or names an order without quantity
  (`InsertKeepsExactIff`). Nothing checks quantities, so a cursor goes wrong exactly when an insert leaves its own level
  empty at or beyond the cursor (`InsertKeepsCursorsIff`, `EmptyInsertMovesTheBestBid`), or an update or a cancellation
  fills an empty level beyond the cursor or empties the best level while a negative one is the next
  (`ChangedBidsIff`, `ChangedAsksIff`). Asking for the best bid of a book that never had one reads outside the levels
  (`BestBidReadableIff`).

## Model

| member | source | states |
|---|---|---|
| `Words.CircularLessIsOrder` | HFT/moodycamel/concurrentqueue.h:476-483 | for counters less than a word apart, the wrapped comparison agrees with integer order exactly when their distance is in [-2^63, 2^63) |
| `Words.CircularLessExact` | HFT/moodycamel/concurrentqueue.h:476-483 | the comparison of two wrapped counters holds exactly when the wrapped difference is positive and below half a word |
| `Words.MaskIsRing` | HFT/HashMap.hpp:144 | `x & (c - 1)` is `x mod c` for every power of two c |
| `Words.WordRing` | HFT/Queue.hpp:95 | masking a wrapped counter gives the slot of the unbounded counter for every power-of-two ring |
| `Words.MaskReachesAllIff` | HFT/HashMap.hpp:251-282 | masking with c - 1 reaches every one of c slots exactly when c is a power of two |
| `FreeList.RunInv` | HFT/moodycamel/concurrentqueue.h:1459-1538 | under every interleaving of `add` and `try_get` by fewer than 2^31 - 1 threads: exact reference words, one place per node, an acyclic list, valid locals |
| `FreeList.OwnershipIsExclusive` | HFT/moodycamel/concurrentqueue.h:1459-1538 | a node is owned, listed, being inserted or being taken, never two of these or by two threads; in what callers see (`Observed`, read off the schedule) no node is handed out twice without an `add` between; the flag assertion never fails |
| `FreeList.RefCountIsExact` | HFT/moodycamel/concurrentqueue.h:1466-1507 | a node's low reference bits are the list's reference plus the number of threads holding it |
| `FreeList.QuiescentNodesAreOwnedOrListed` | HFT/moodycamel/concurrentqueue.h:1459-1538 | nothing is lost: with no call in progress each node is owned or linked from the head, not both, and its reference word says which |
| `FreeList.FlaggedNodeHasACarrier` | HFT/moodycamel/concurrentqueue.h:1503-1505 | a node whose insertion was deferred always has a thread left that will carry it out |
| `FreeList.PoppedIsUnflagged` | HFT/moodycamel/concurrentqueue.h:1490-1493 | after a successful pop the should-be-on-list bit is clear |
| `FreeList.NextIsPrivate` | HFT/moodycamel/concurrentqueue.h:1516-1529 | the next pointer is only written while the node is off the list and nobody else relies on it |
| `FreeList.PopKeepsLinks` | HFT/moodycamel/concurrentqueue.h:1489-1490 | the successor read under a reference is the true one, so popping keeps the list linked |
| `FreeList.LogIsObserved` | HFT/moodycamel/concurrentqueue.h:1459-1510 | the log is what callers see: the nodes they add and the nodes `try_get` returns |
| `FreeList.GoesOnWithTheHead` | HFT/moodycamel/concurrentqueue.h:1478-1507 | over every schedule a thread inside `try_get` goes on with the first node of the list at its latest load of the head, at the call, at a reload or at a failed exchange, also while it reinserts another node |
| `FreeList.TryGetEndsIff` | HFT/moodycamel/concurrentqueue.h:1478-1510 | over every schedule a call of `try_get` ends exactly by handing a node out or because the list was empty at its latest load of the head; contention alone never ends it |
| `FreeList.CallGetReturnsIffEmpty` | HFT/moodycamel/concurrentqueue.h:1478-1479 | a call returns null at once exactly when the list is empty, and else goes on with its first node |
| `FreeList.AloneEnds` | HFT/moodycamel/concurrentqueue.h:1459-1535 | from any reachable state every call, of `add` or `try_get`, ends within 19 steps of its own if the others stand still |
| `FreeList.LoneGetPops` | HFT/moodycamel/concurrentqueue.h:1473-1510 | without interference `try_get` hands out the head, or null exactly when the list is empty |
| `FreeList.LoneAddPushes` | HFT/moodycamel/concurrentqueue.h:1459-1471 | without interference `add` puts the node in front |
| `TicketDequeue.RunInv` | HFT/moodycamel/concurrentqueue.h:2551-2619 | on every run with fewer than 2^63 elements and at most 2^63 tickets: all ticket units are accounted for and everything won or winnable by older tickets is published |
| `TicketDequeue.DequeueNeverOverruns` | HFT/moodycamel/concurrentqueue.h:2551-2619 | on every such run the head index, even with all promised claims added, never passes the published tail, and what was delivered is the published elements in order, each once, the published ones read off the schedule (`PublishedBy`) |
| `TicketDequeue.ItemsArePublished` | HFT/moodycamel/concurrentqueue.h:2544 | the elements of the queue are those the schedule published, in order |
| `TicketDequeue.QuiescentCountsAgree` | HFT/moodycamel/concurrentqueue.h:1954-2052 | with no operation in flight, optimistic count minus overcommit is the head index |
| `TicketDequeue.DecideExact` | HFT/moodycamel/concurrentqueue.h:2780-2879 | the word comparison after a ticket grants exactly the room behind the ticket's rank, single and bulk |
| `TicketDequeue.EstimateExact` | HFT/moodycamel/concurrentqueue.h:2556 | the advisory word comparison is the comparison of the counts themselves |
| `TicketDequeue.WinKeeps` | HFT/moodycamel/concurrentqueue.h:2561-2562 | a winning ticket fits beside everything already won and winnable |
| `TicketDequeue.SmallCountersStayInWindow` | HFT/moodycamel/concurrentqueue.h:476-483 | while fewer than 2^63 elements and at most 2^63 tickets were issued, every pending comparison is in window |
| `TicketDequeue.SmallRunsStayInWindow` | HFT/moodycamel/concurrentqueue.h:476-483 | a run that ends with so few was in window at every step |
| `TicketDequeue.WindowInv` | HFT/moodycamel/concurrentqueue.h:2551-2619 | the invariant on runs of any length, across any wrap of the counters, as long as compared counts are less than half a word apart |
| `TicketDequeue.WindowNeverOverruns` | HFT/moodycamel/concurrentqueue.h:2551-2619 | no overrun on those runs either |
| `TicketDequeue.CallEndsOnly` | HFT/moodycamel/concurrentqueue.h:2551-2619 | on small-count runs a call ends only by the tail at its call and the counts it read, after returning its tickets, or with exactly the next published elements; it comes to return them all exactly when the tail is not past its rank |
| `TicketDequeue.EveryStepIsProgress` | HFT/moodycamel/concurrentqueue.h:2551-2619 | nothing is retried: every call ends within six steps of its own, whatever the others do |
| `TicketDequeue.LoneDequeueTakesWhatIsThere` | HFT/moodycamel/concurrentqueue.h:2780-2879 | without interference a call takes exactly as many elements as are there and asked for, and touches no counter on an empty queue |
| `BlockIndex.RunInv` | HFT/moodycamel/concurrentqueue.h:2624-3008 | under every interleaving of one producer, whose insertions may fail at any point and be undone, and any consumers, every header leads from each present block up to its limit to that block's own entry |
| `BlockIndex.CountsAreTheCallers` | HFT/moodycamel/concurrentqueue.h:2487-2619 | published and claimed elements are those of the schedule for which there was room, so the results are about every such publication and claim |
| `BlockIndex.LookupsFindTheirBlock` | HFT/moodycamel/concurrentqueue.h:2941-2964 | the lookup of a claimed, uncompleted element ends at the entry with its block's key and that block still in it; no assertion of lookup, insertion or undo fails, across reuse, wrap-around, doubling and blocks given back |
| `BlockIndex.EveryStepAdvances` | HFT/moodycamel/concurrentqueue.h:2563-2605 | consumers never wait: every step of a consumer brings it nearer to having completed its claim, whatever the others do |
| `BlockIndex.BlocksOutliveTheirElements` | HFT/moodycamel/concurrentqueue.h:1597-1634 | each block's completed, in-flight and unclaimed elements add up to the block size, and the block is present until all are completed |
| `BlockIndex.SlotFromKeyExact` | HFT/moodycamel/concurrentqueue.h:2960-2961 | the slot from the signed division of the wrapped base difference is the tail slot moved by the distance in blocks, ahead or back |
| `BlockIndex.TailLoaded` | HFT/moodycamel/concurrentqueue.h:2954-2955 | from the claimed element's block on, the slots up to a loaded tail are right |
| `BlockIndex.KeyLoaded` | HFT/moodycamel/concurrentqueue.h:2956-2961 | the slot computed from the tail's key is the claimed element's |
| `BlockIndex.LoneLookupFinds` | HFT/moodycamel/concurrentqueue.h:2941-2964 | a look-up left alone finds the block of any index whose block is present, whatever was claimed |
| `BlockIndex.LoneLookupPastTheBlocksFails` | HFT/moodycamel/concurrentqueue.h:2941-2964 | a look-up of the first index past the installed blocks fails its assertion |
| `BlockIndex.FreeSlotIsNobodys` | HFT/moodycamel/concurrentqueue.h:2907-2915 | an entry the producer finds reusable belongs to no present block |
| `BlockIndex.InsertInstallsTheBlock` | HFT/moodycamel/concurrentqueue.h:2901-2933 | an insertion with a slot and a block, left alone, installs the block under its base |
| `BlockIndex.LoneInsertInstallsIff` | HFT/moodycamel/concurrentqueue.h:2901-3008 | a whole insertion that gets a block when it asks for one, left alone, installs it exactly when the next slot is free or the index may and can be doubled, and else changes nothing |
| `BlockIndex.FailedInsertGivesBack` | HFT/moodycamel/concurrentqueue.h:2505-2512 | an insertion that gets no block, left alone, gives its slot back: the tail is where it was, the slot after it is free, and nothing else has changed |
| `BlockIndex.GrowingFreesASlot` | HFT/moodycamel/concurrentqueue.h:2966-3008 | a call that finds the next slot taken doubles the index and then has a free slot |
| `BlockIndex.UndoGivesBack` | HFT/moodycamel/concurrentqueue.h:2662-2677 | a failed bulk enqueue, left alone, clears the entries of every block without a published element, moves the tail back by as many slots, changes nothing consumers see, and the next insertion needs no growth |
| `BlockIndex.UndoFindsItsBlock` | HFT/moodycamel/concurrentqueue.h:2669-2672 | in the middle of an undo, with the tail already moved back past some blocks, the look-up still finds the block's own entry and its assertions hold |
| `BlockIndex.DoubledSlot` | HFT/moodycamel/concurrentqueue.h:2982-3001 | in the doubled index each block's slot holds the old index's entry for it |
| `BlockIndex.CopyIndex` | HFT/moodycamel/concurrentqueue.h:2982-2996 | the copy loop lays out the successor index oldest entry first, then the fresh entries, and stops after one lap |
| `BlockIndex.InvIsWellFormed` | HFT/moodycamel/concurrentqueue.h:2941-2964 | no step reads memory that is not there |
| `ImplicitQueue.RunInv` | HFT/moodycamel/concurrentqueue.h:2487-2619 | counters and index together, under every interleaving of one producer and any consumers whose bulk calls ask for something: claims are unguarded fetch-adds, both parts agree on head and tail, and every element has one place |
| `ImplicitQueue.ClaimIsCovered` | HFT/moodycamel/concurrentqueue.h:2561-2562 | what the tickets promise is what the index needs: a claim about to be made covers published elements only |
| `ImplicitQueue.EveryElementHasOneTaker` | HFT/moodycamel/concurrentqueue.h:2550-2619 | on those runs every element below the head index was taken with the value enqueued under its index (`EnqueuedBy`, read off the schedule), or is in the claim of exactly one consumer; nothing else is touched |
| `ImplicitQueue.ItemsAreEnqueued` | HFT/moodycamel/concurrentqueue.h:2487-2544 | over every schedule the queue's elements are the concatenation, in order, of the elements of the enqueues that had room |
| `ImplicitQueue.LoneDequeue` | HFT/moodycamel/concurrentqueue.h:2550-2619 | a dequeue left alone on a resting, non-empty queue comes to its end and moves the head index by one |
| `ImplicitQueue.EnqueuedThenDequeued` | HFT/moodycamel/concurrentqueue.h:2487-2619 | after any run that leaves the queue empty and resting, an enqueue of some elements and n dequeues, each left alone, hand out the first n of those elements in order |
| `ImplicitQueue.NothingIsTakenTwice` | HFT/moodycamel/concurrentqueue.h:2563-2605 | on those runs a consumer finishing with a block moves out just the enqueued elements of its own claim in that block, none taken before |
| `ImplicitQueue.ClaimedIsTaken` | HFT/moodycamel/concurrentqueue.h:2550-2619 | on those runs, once every claim is worked off, what has left the queue is exactly the enqueued elements below the head index, unchanged |
| `ImplicitQueue.OneCallAtATime` | HFT/moodycamel/concurrentqueue.h:2550-2619 | over every schedule a consumer is in one part of a call at a time |
| `ImplicitQueue.UndoLeavesTheElements` | HFT/moodycamel/concurrentqueue.h:2662-2677 | after any run a failed bulk enqueue, left alone, gives back every block without an enqueued element, and neither the elements nor any consumer notices |
| `ImplicitQueue.AssertionsHold` | HFT/moodycamel/concurrentqueue.h:2487-2619 | on those runs no assertion of enqueue, look-up, insertion or undo fails, and every look-up ends at its own block |
| `ImplicitQueue.SafeIffBulkCallsAskForSomething` | HFT/moodycamel/concurrentqueue.h:2780-2858 | no run whose bulk calls ask for at least n elements fails an assertion if and only if n is at least 1 |
| `ImplicitQueue.EmptyBulkFailsTheLookup` | HFT/moodycamel/concurrentqueue.h:2786-2807 | the failing run: one full block, a call for nothing stopped before its fetch-add, a call that claims all 32 elements, then the look-up of index 32 |
| `ImplicitQueue.LookUpFails` | HFT/moodycamel/concurrentqueue.h:2786-2807 | the same from any quiet state with full blocks, an element left and a free slot after the tail |
| `ImplicitQueue.AskingForNothingCanGiveBackTwice` | HFT/moodycamel/concurrentqueue.h:2807-2858 | after any good run that is quiet with an unclaimed place, an enqueue, a call for nothing and one other call bring two consumers to give the same block back |
| `ImplicitQueue.GivenBackTwice` | HFT/moodycamel/concurrentqueue.h:2807-2858 | how: the look-up for nothing still finds the block at the head, completes 0 elements and sees it completed |
| `ImplicitQueue.LookupHolds` | HFT/moodycamel/concurrentqueue.h:2941-2964 | a look-up step changes no claim except by the part it has just moved out |
| `ImplicitQueue.MovedIsOwn` | HFT/moodycamel/concurrentqueue.h:2565-2605 | reading the found block at the index gives the element published under that index |
| `MpmcQueue.RunInv` | HFT/Queue.hpp:133-174 | for capacity at least 2, every cell's sequence number tells whether it is free, being filled, full or being drained |
| `MpmcQueue.BoundedFifoByPosition` | HFT/Queue.hpp:133-174 | over every schedule for capacity at least 2: never more than capacity positions claimed; every finished dequeue of a position gave back the value with which the thread that won the position was called (`ValuesEnqueued`, read off the schedule); each position below head is given back or in exactly one dequeuer's hands |
| `MpmcQueue.CarriesItsValue` | HFT/Queue.hpp:133-151 | over every schedule a thread inside `enqueue` carries the value of its latest call, through any number of retries |
| `MpmcQueue.ItemsAreTheCallers` | HFT/Queue.hpp:133-151 | the value of each position is the one its winner was called with |
| `MpmcQueue.ReturnedOnce` | HFT/Queue.hpp:154-174 | whatever step comes next, a returned position is not returned again and its value does not change |
| `MpmcQueue.UnreadCellsKeepTheirValue` | HFT/Queue.hpp:150-151 | a published value stays in its cell until its own dequeue has read it |
| `MpmcQueue.EnqueueFailsIff` | HFT/Queue.hpp:136-145 | over every schedule, an enqueue step returns false exactly when its position is still the tail and the position one lap before has not been given back |
| `MpmcQueue.DequeueFindsNothingIff` | HFT/Queue.hpp:157-166 | a dequeue step returns null exactly when its position is still the head and nothing is published there |
| `MpmcQueue.EnqueueEndsOnly` | HFT/Queue.hpp:133-152 | a step takes a thread out of `enqueue` only with false, exactly when the queue is full at that step, or with true after its value was published |
| `MpmcQueue.DequeueEndsOnly` | HFT/Queue.hpp:154-174 | a step takes a thread out of `dequeue` only with null, exactly when nothing is published at the head at that step, or with the value of its position |
| `MpmcQueue.AloneEnds` | HFT/Queue.hpp:133-174 | from any reachable state every call ends within six steps of its own if the others stand still |
| `MpmcQueue.RoomAtTail` | HFT/Queue.hpp:137-143 | a producer whose compare-exchange succeeds finds its cell free and drained |
| `MpmcQueue.ItemAtHead` | HFT/Queue.hpp:158-164 | a consumer whose compare-exchange succeeds finds its cell filled with its position's value |
| `MpmcQueue.LoneEnqueueFailsIffFull` | HFT/Queue.hpp:133-153 | from a quiescent state enqueue returns false exactly when full and otherwise appends |
| `MpmcQueue.LoneDequeueNullIffEmpty` | HFT/Queue.hpp:154-174 | from a quiescent state dequeue returns null exactly when empty and otherwise the oldest value |
| `MpmcQueue.CapacityOneOverwrites` | HFT/Queue.hpp:123-151 | with capacity 1 a second enqueue succeeds over the first, unread value |
| `MpmcWords.StepSimulates` | HFT/Queue.hpp:133-174 | each step on 64-bit words does what the step on unbounded positions does, as long as the compared numbers are less than half a word apart |
| `MpmcWords.RunSimulates` | HFT/Queue.hpp:133-174 | so does every run that keeps them so, across any number of wraps |
| `MpmcWords.SmallRunsStayClose` | HFT/Queue.hpp:136-160 | every run whose positions, two laps ahead, stay below 2^63 keeps them so |
| `MpmcWords.SmallRunsSimulate` | HFT/Queue.hpp:133-174 | on such a run the 64-bit machine is the image of the unbounded one, so its results carry over |
| `TaggedPool.RunInv` | HFT/MemoryPool.hpp:182-223 | the chain from the head is acyclic and duplicate-free and what threads remember of the head is current unless its tag moved on |
| `TaggedPool.SlotsArePartitioned` | HFT/MemoryPool.hpp:182-223 | each slot is allocated, free or being freed by one thread, never two of these |
| `TaggedPool.NoAba` | HFT/MemoryPool.hpp:195-199 | a successful compare-exchange means the head did not change since it was read |
| `TaggedPool.AllocKeeps` | HFT/MemoryPool.hpp:193-199 | a successful allocation installs the true current successor |
| `TaggedPool.HandsOutTheFirstFreeSlot` | HFT/MemoryPool.hpp:182-203 | whatever step comes next, a slot handed out was the first free one |
| `TaggedPool.CallsEndOnly` | HFT/MemoryPool.hpp:182-223 | over every schedule a step takes a thread out of allocate only with the first free slot or past the array, and out of deallocate only by putting its slot in front; deallocating null throws and changes nothing |
| `TaggedPool.AloneEnds` | HFT/MemoryPool.hpp:182-223 | from any reachable state every call ends within four steps of its own if the others stand still |
| `TaggedPool.ReadsPastTheArrayIffEmpty` | HFT/MemoryPool.hpp:189-193 | on every schedule a step takes a thread past the index array exactly when it is that thread's read of the successor and the list was empty at its latest load of the head, call or retry |
| `TaggedPool.LoadSawList` | HFT/MemoryPool.hpp:183-199 | the index a thread is about to use is past the array exactly when the list was empty at its latest load |
| `TaggedPool.GuardedCallsStayInside` | HFT/MemoryPool.hpp:182-203 | if each call is made with more free slots than threads inside allocate, no thread ever reads past the array, however often it retries |
| `TaggedPool.ShortageOverruns` | HFT/MemoryPool.hpp:182-203 | with more threads inside allocate than free slots, some continuation of them alone takes one past the array |
| `TaggedPool.UnguardedCallCanOverrun` | HFT/MemoryPool.hpp:182-203 | after any run, a call made without that guard can be continued to such a read |
| `TaggedPool.RetryOverrunsWithASlotAtTheCall` | HFT/MemoryPool.hpp:195-199 | a run in which a call with a free slot at hand retries on an empty list |
| `TaggedPool.FreeThenAllocateRoundTrip` | HFT/MemoryPool.hpp:182-223 | without interference deallocate then allocate gives the slot back and leaves the free list as it was |
| `SpscQueue.SpscQueue.constructor` | HFT/Queue.hpp:80-88 | a fresh queue is empty |
| `SpscQueue.SpscQueue.Enqueue` | HFT/Queue.hpp:89-98 | on wrapping counters, appends to the contents or returns false exactly when full |
| `SpscQueue.SpscQueue.Dequeue` | HFT/Queue.hpp:99-105 | on wrapping counters, removes and returns the oldest element, null exactly when empty |
| `SpscQueue.TailCell` | HFT/Queue.hpp:95 | the tail word's slot is the slot after the contents, wherever the counters wrapped |
| `SpscQueue.OldestIsReadIff` | HFT/Queue.hpp:89-105 | for any enqueues between the two halves of dequeue: those up to one more than the room are accepted, and the oldest element is read exactly when at most as many came as there was room for, or the one too many has the same value |
| `SpscQueue.WindowAfter` | HFT/Queue.hpp:89-105 | the tail word, the next acceptance and the value read after any enqueues in that window |
| `SpscQueue.EnqueueHitsTheCellBeingReadIff` | HFT/Queue.hpp:95-104 | of the enqueues in the window just the one past the room writes the cell being read, wherever the counters wrap |
| `SpscQueue.TwoEnqueuesReplaceTheOldest` | HFT/Queue.hpp:89-105 | two enqueues into a queue that was not full replace the element being dequeued |
| `Sequencer.TradeMsgStore.ParseTrade` | HFT/TickerServer/ITCHTickerServer.cpp:64-94 | each parsed line is stored under the next sequence number |
| `Sequencer.TradeMsgStore.Get` | HFT/TickerServer/ITCHTickerServer.cpp:45-49 | returns the message with that sequence number, nothing past the end |
| `Sequencer.ServeGapRequest` | HFT/TickerServer/ITCHTickerServer.cpp:206-215 | for every pair of words whether the counter overflows, and the reply if not; a request within the store is answered by exactly its slice, without overflow, exactly when its end is below 2^31 - 1 |
| `Sequencer.ServedIff` | HFT/TickerServer/ITCHTickerServer.cpp:206-215 | for a request within the store, the counter stays in range and finds exactly the slice if and only if the end is below 2^31 - 1 |
| `Sequencer.CompleteRecovery` | HFT/TickerServer/ITCHTradeReceiver.cpp:81-128 | a recovery that completes offers exactly the missing slice in order, whatever the timeouts |
| `Sequencer.RoundIsGapFree` | HFT/TickerServer/ITCHTradeReceiver.cpp:166-184 | handling one stored message leaves the stream a prefix of the store ending just past it, or unchanged for an old one |
| `Sequencer.RunIsGapFree` | HFT/TickerServer/ITCHTradeReceiver.cpp:156-186 | for any lossy, duplicated, reordered delivery with completing recoveries, the stream offered is the store up to one past the largest number delivered |
| `Sequencer.Frontier` | HFT/TickerServer/ITCHTradeReceiver.cpp:166-184 | where a run ends: the least number past the start and everything delivered |
| `Sequencer.ReceiveStaysInOrder` | HFT/TickerServer/ITCHTradeReceiver.cpp:98-128 | whatever the recovery socket yields of the store, the stream stays a prefix of it, and the recovery completes exactly when all missing messages came |
| `Sequencer.StreamSurvivesIffRecoveryCompletes` | HFT/TickerServer/ITCHTradeReceiver.cpp:105-124 | the gap is closed and its message offered in its place exactly when the missing messages come in order before the connection breaks; the stream is lost exactly when it breaks after too few |
| `Sequencer.RunSurvivesIff` | HFT/TickerServer/ITCHTradeReceiver.cpp:156-186 | over any run with any recovery events, the stream offered is still a prefix of the store exactly when no recovery broke off with too few messages |
| `Sequencer.RunEnds` | HFT/TickerServer/ITCHTradeReceiver.cpp:156-186 | how a run ends, read off the messages and the recoveries: it throws exactly when a recovery brings a message out of order after ones that ended, comes to the end exactly when every recovery ends, and then, unless one broke off short, expects the frontier |
| `Sequencer.HandleKeepsIff` | HFT/TickerServer/ITCHTradeReceiver.cpp:166-184 | what one message does to the stream and how it ends, for every recovery |
| `Sequencer.ReceiveEnds` | HFT/TickerServer/ITCHTradeReceiver.cpp:98-128 | how a recovery ends (completed, broken off, thrown), read off the events the socket yields, each exactly |
| `Sequencer.ClosedRecoveryLosesTheStream` | HFT/TickerServer/ITCHTradeReceiver.cpp:105-124 | a connection closed at once with one message missing leaves a stream that is not the store's |
| `Sequencer.TradeDataSequencer.OnRecoveredMsg` | HFT/TickerServer/ITCHTradeReceiver.cpp:192-200 | offers exactly the expected message, throws on any other |
| `Sequencer.TradeDataSequencer.ReceiveRecoveryMessages` | HFT/TickerServer/ITCHTradeReceiver.cpp:81-128 | the receive loop computes the specified outcome and stream for every sequence of socket events |
| `Sequencer.TradeDataSequencer.OnMessage` | HFT/TickerServer/ITCHTradeReceiver.cpp:166-184 | one message: recover, drop and deallocate, or offer |
| `Sequencer.TradeDataSequencer.RunAgainst` | HFT/TickerServer/ITCHTradeReceiver.cpp:156-186 | the loop computes the specified stream for any recovery events, and ends at an exception |
| `Sequencer.TradeDataSequencer.Run` | HFT/TickerServer/ITCHTradeReceiver.cpp:156-186 | the loop against a live server ends with the stream equal to the store up to the frontier |
| `ChainingMap.FixedSizedChainingHashMap.constructor` | HFT/HashMap.hpp:131-142 | the new map represents the empty map with every node free |
| `ChainingMap.FixedSizedChainingHashMap.Index` | HFT/HashMap.hpp:143-169 | refers to the first match, appends a default only when absent, fails exactly when absent and no node is free |
| `ChainingMap.FixedSizedChainingHashMap.AppendNode` | HFT/HashMap.hpp:158-167 | taking and linking a node appends one entry to its bucket and changes no other bucket |
| `ChainingMap.FixedSizedChainingHashMap.Write` | HFT/HashMap.hpp:143-169 | a write through the returned reference changes the first match only |
| `ChainingMap.FixedSizedChainingHashMap.Put` | HFT/HashMap.hpp:143-169 | `map[key] = value` is the specified assignment |
| `ChainingMap.FixedSizedChainingHashMap.Insert` | HFT/HashMap.hpp:170-188 | appends, duplicates included; fails exactly when no node is free |
| `ChainingMap.FixedSizedChainingHashMap.Contains` | HFT/HashMap.hpp:189-199 | true exactly when the key's bucket holds it |
| `ChainingMap.FixedSizedChainingHashMap.Find` | HFT/HashMap.hpp:220-230 | the node of the first match, null exactly when absent |
| `ChainingMap.FixedSizedChainingHashMap.Erase` | HFT/HashMap.hpp:200-219 | removes the first match and gives its node back |
| `ChainingMap.ChainsPartitionThePool` | HFT/HashMap.hpp:231-243 | every node is on exactly one chain, once, or on the free stack, once |
| `ChainingMap.ExhaustedIffEveryNodeChained` | HFT/HashMap.hpp:155-157 | no free node exactly when every node is chained; for a map state, free nodes are pool size minus keys |
| `ChainingMap.AppendKeepsWired` | HFT/HashMap.hpp:158-167 | appending keeps all chains linked, acyclic, hashed to their bucket and disjoint |
| `ChainingMap.UnlinkKeepsWired` | HFT/HashMap.hpp:205-213 | unlinking head, middle or end keeps them so and removes exactly that entry |
| `ChainingMap.AssignRefines` | HFT/HashMap.hpp:143-169 | assignment through operator[] is the map update, refused only for an absent key in a full pool |
| `ChainingMap.EraseRefines` | HFT/HashMap.hpp:200-219 | erase is map removal |
| `ChainingMap.InsertRefinesIff` | HFT/HashMap.hpp:170-188 | insert is the map update exactly when the key is absent; otherwise no map describes the result and look-ups do not change |
| `ChainingMap.ErasingUncoversTheDuplicate` | HFT/HashMap.hpp:200-219 | erasing a duplicated key leaves the shadowed value findable |
| `ChainingMap.RunRefinesMap` | HFT/HashMap.hpp:127-243 | every run of operator[] assignments and erases is exactly a bounded finite map |
| `OpenAddressing.OpenAddressingHashMap.constructor` | HFT/HashMap.hpp:251-255 | the new map represents the empty map |
| `OpenAddressing.OpenAddressingHashMap.Index` | HFT/HashMap.hpp:256-283 | the slot of the key in the specified table; the "map is full" exception is never thrown; the retry ends |
| `OpenAddressing.OpenAddressingHashMap.ProbeForIndex` | HFT/HashMap.hpp:257-281 | operator[]'s probing stops at the first slot not occupied by another key, before it has been around |
| `OpenAddressing.OpenAddressingHashMap.Insert` | HFT/HashMap.hpp:284-302 | leaves the specified table and keeps the probe-path invariant and the load bound |
| `OpenAddressing.OpenAddressingHashMap.ProbeForInsert` | HFT/HashMap.hpp:288-296 | the unguarded loop terminates, at the same slot |
| `OpenAddressing.OpenAddressingHashMap.ReHash` | HFT/HashMap.hpp:366-377 | leaves the doubled, reinserted table and is never re-entered |
| `OpenAddressing.OpenAddressingHashMap.Contains` | HFT/HashMap.hpp:303-317 | true exactly when the look-up finds the key |
| `OpenAddressing.OpenAddressingHashMap.Find` | HFT/HashMap.hpp:336-350 | the slot of the first match, null exactly when the look-up fails |
| `OpenAddressing.OpenAddressingHashMap.Erase` | HFT/HashMap.hpp:318-335 | turns the first match into a tombstone |
| `OpenAddressing.SearchIsExact` | HFT/HashMap.hpp:336-350 | with no empty slot before an occupied one on its path, a failed search means the key is nowhere |
| `OpenAddressing.VacancyExists` | HFT/HashMap.hpp:290-296 | with a slot to spare, insertion stops before it has been around |
| `OpenAddressing.PlacedKeeps` | HFT/HashMap.hpp:284-302 | placing a key keeps the probe-path invariant, is found at once and disturbs no other key, tombstones and duplicates or not |
| `OpenAddressing.BuriedKeeps` | HFT/HashMap.hpp:318-335 | burying a key keeps the invariant and disturbs no other key |
| `OpenAddressing.InsertIsFound` | HFT/HashMap.hpp:284-302 | after insert the value is found, from any reachable table; the table doubles exactly when one more entry would exceed seven tenths, and the load stays within that |
| `OpenAddressing.GrownFacts` | HFT/HashMap.hpp:366-377 | growing keeps the map, drops tombstones and duplicates and leaves room for one more insertion |
| `OpenAddressing.ReinsertedFacts` | HFT/HashMap.hpp:372-376 | reinsertion keeps the last value of every key in table order |
| `OpenAddressing.InsertedRefinesIff` | HFT/HashMap.hpp:284-302 | insert is the map update exactly when the table grows or no tombstone precedes the key; always for an absent key or a tombstone-free table |
| `OpenAddressing.IndexedRefinesIff` | HFT/HashMap.hpp:256-283 | the same for operator[] |
| `OpenAddressing.EraseRefines` | HFT/HashMap.hpp:318-335 | erase is map removal |
| `OpenAddressing.SizeIsKeyCount` | HFT/HashMap.hpp:359 | the size is the number of keys |
| `OpenAddressing.ShadowedKeyComesBack` | HFT/HashMap.hpp:290-335 | after inserting a shadowed key and erasing it, its old value is found |
| `OpenAddressing.ShadowingIsReachable` | HFT/HashMap.hpp:284-335 | a concrete run into such a state |
| `OrderBook.TotalUpdate` | HFT/OrderBook.hpp:70-83 | a level's total moves by exactly the share of the order put in and the one replaced |
| `OrderBook.InsertKeepsExactIff` | HFT/OrderBook.hpp:52-84 | after an insert levels equal the sums of live quantities exactly when the id is new or its order has quantity zero |
| `OrderBook.UpdateKeepsExact` | HFT/OrderBook.hpp:86-99 | updates keep the levels exact, for any quantities |
| `OrderBook.CancelKeepsExact` | HFT/OrderBook.hpp:101-117 | cancellations keep the levels exact |
| `OrderBook.ChangedBidsIff` | HFT/OrderBook.hpp:171-185 | a level change, for any quantities, keeps the bid cursor exact unless it fills an empty level above it or empties the best level with a negative one next below |
| `OrderBook.ChangedAsksIff` | HFT/OrderBook.hpp:186-197 | the same for asks, below the cursor |
| `OrderBook.AddedBidIff` | HFT/OrderBook.hpp:73-78 | an insert keeps the bid cursor exact unless it leaves its own level empty at or above the cursor |
| `OrderBook.AddedAskIff` | HFT/OrderBook.hpp:79-83 | the same for asks, at or below the cursor |
| `OrderBook.InsertKeepsCursorsIff` | HFT/OrderBook.hpp:52-84 | exactly when a whole insert keeps both cursors |
| `OrderBook.EmptyInsertMovesTheBestBid` | HFT/OrderBook.hpp:73-78 | an order without quantity takes the best bid to an empty level |
| `OrderBook.RunIsSound` | HFT/OrderBook.hpp:52-198 | over every run with new ids and positive quantities, levels and both cursors are exact |
| `OrderBook.RunIsExact` | HFT/OrderBook.hpp:52-198 | over every run with new ids, levels are exact whatever the quantities |
| `OrderBook.BestPricesAreBest` | HFT/OrderBook.hpp:119-126 | on a side with orders the cursor is the best order's tick; on an empty side it is an end level |
| `OrderBook.BestBidReadableIff` | HFT/OrderBook.hpp:119-122 | the best-bid index is inside the levels exactly when a bid was ever inserted |
| `OrderBook.BestAskReadableIff` | HFT/OrderBook.hpp:123-126 | the same for the best ask |
| `OrderBook.ZeroUpdateLosesTheBestBid` | HFT/OrderBook.hpp:86-99 | a run that updates the best bid to zero and up again leaves the cursor behind |
| `OrderBook.OrderBook.constructor` | HFT/OrderBook.hpp:41-51 | an empty book with cursors just outside the levels |
| `OrderBook.OrderBook.Insert` | HFT/OrderBook.hpp:52-84 | files the caller's order object and leaves the specified levels and cursors |
| `OrderBook.OrderBook.Update` | HFT/OrderBook.hpp:86-99 | sets the quantity of that order object alone and changes its level; a missing id changes nothing |
| `OrderBook.OrderBook.Cancel` | HFT/OrderBook.hpp:101-117 | drops the order and its level's share; a missing id changes nothing |
| `OrderBook.OrderBook.UpdatePriceLevel` | HFT/OrderBook.hpp:171-198 | changes the level of the order's side by the specified level change |
| `OrderBook.OrderBook.UpdateBidLevel` | HFT/OrderBook.hpp:171-185 | an emptied best level moves the cursor to the next non-empty one or 0 |
| `OrderBook.OrderBook.UpdateAskLevel` | HFT/OrderBook.hpp:186-197 | the same for asks, or the last level |
| `OrderBook.OrderBook.BestBid` | HFT/OrderBook.hpp:119-122 | the cursor's tick and its level; on a sound book that is the total at that tick and no buy order is higher |
| `OrderBook.OrderBook.BestAsk` | HFT/OrderBook.hpp:123-126 | the cursor's tick and its level; on a sound book that is the total at that tick and no sell order is lower |
| `Minesweeper.NumberIsExact` | Leet/minesweeper.py:22-36 | a cell shows an asterisk exactly when it is a mine; a safe cell shows the decimal digit of the number of mines around it, and a blank exactly when there is none |
| `Minesweeper.Minesweeper.PopulateNumbers` | Leet/minesweeper.py:22-36 | overwriting in place leaves every cell's number or mine |
| `Minesweeper.ExploredIsExact` | Leet/minesweeper.py:51-61 | newly visible are precisely the cells reached through hidden blank cells; from a safe cell never a mine |
| `Minesweeper.ExploreNeighbour` | Leet/minesweeper.py:58-61 | what one recursive call contributes to the loop |
| `Minesweeper.RevealExtends` | Leet/minesweeper.py:44-49 | the visible cells depend only on which cells were revealed, not on their order |
| `Minesweeper.VisibleBlanksAreOpen` | Leet/minesweeper.py:57-61 | throughout a game every visible blank cell has all its neighbours visible |
| `Minesweeper.VisibleIsSafe` | Leet/minesweeper.py:44-49 | before a mine is hit no mine is visible |
| `Minesweeper.Minesweeper.DfsReveal` | Leet/minesweeper.py:51-61 | the in-place recursion explores exactly and terminates by the hidden cells |
| `Minesweeper.Minesweeper.Reveal` | Leet/minesweeper.py:44-49 | false exactly on a mine, which alone becomes visible; otherwise the flood |
| `Minesweeper.Minesweeper.CheckWin` | Leet/minesweeper.py:83-88 | won exactly when every safe cell is visible, in play exactly when all and only these are |
| `BlockingQueue.RunInv` | c++20/BoundedBlockingQueue.cpp:22-37 | nobody sleeps through more than the threads already woken can use up, under spurious wake-ups and barging |
| `BlockingQueue.NoLostWakeups` | c++20/BoundedBlockingQueue.cpp:22-37 | when everyone inside sleeps none could proceed, and with a positive limit they all sleep for the same reason |
| `BlockingQueue.SleepersAreCovered` | c++20/BoundedBlockingQueue.cpp:22-37 | with k elements (places) and a sleeper for them, at least k woken threads of its kind are on their way |
| `BlockingQueue.BoundedFifo` | c++20/BoundedBlockingQueue.cpp:22-37 | under any schedule the values taken, as many as takes have returned, and those still in the queue are the values of the puts that have returned, in that order, and never more than the capacity converted to unsigned |
| `BlockingQueue.EverySectionDoesTheJob` | c++20/BoundedBlockingQueue.cpp:22-37 | from any reachable state a thread that calls, or a sleeper that wakes for no reason, does the whole of the job it was called with exactly when it can, and else sleeps and changes nothing |
| `BlockingQueue.CarriesItsJob` | c++20/BoundedBlockingQueue.cpp:22-37 | a thread that waits, is woken and tries again still has the job of its latest call |
| `BlockingQueue.NotifyOneWakes` | c++20/BoundedBlockingQueue.cpp:27 | a notification wakes exactly one sleeper of its kind if there is one |
| `BlockingQueue.SectionKeepsInv` | c++20/BoundedBlockingQueue.cpp:22-37 | a whole section under the mutex keeps the invariant, whoever is woken |
| `Twitter.CappedIsEnough` | c++20/Twitter.cpp:22-26 | the ten most recent of the capped deques are the ten most recent of the full history |
| `Twitter.TopIsTheFeed` | c++20/Twitter.cpp:28-52 | any descending list of the ten newest capped tweets is the feed of the full history |
| `Twitter.RecentIsTop` | c++20/Twitter.cpp:28-52 | the feed is newest first and leaves out only older tweets |
| `Twitter.RecentIsCapped` | c++20/Twitter.cpp:22-26 | what reaches the common feed is in its author's capped deque |
| `Twitter.OfferKeepsTop` | c++20/Twitter.cpp:37-42 | pushing and popping the oldest of eleven keeps the ten newest |
| `Twitter.MergeStep` | c++20/Twitter.cpp:96-103 | popping the newest next tweet keeps the merge exact |
| `Twitter.PostRecent` | c++20/Twitter.cpp:22-26 | what a post does to every user's ten most recent tweets |
| `Twitter.Twitter.PostTweet` | c++20/Twitter.cpp:22-26 | each deque stays its user's ten most recent tweets of the full history |
| `Twitter.Twitter.Follow` | c++20/Twitter.cpp:54-56 | adds one followee |
| `Twitter.Twitter.Unfollow` | c++20/Twitter.cpp:58-61 | removes it, never the user itself |
| `Twitter.Twitter.GetNewsFeed` | c++20/Twitter.cpp:28-52 | the bounded heap returns the ten most recent tweets of user and followees from the full history, newest first |
| `Twitter.Twitter.GetNewsFeedMerged` | c++20/Twitter.cpp:83-106 | so does the k-way merge |
| `Twitter.OfferAll` | c++20/Twitter.cpp:37-42 | one followee's deque leaves the ten newest of everything gathered |
| `Twitter.DrainHeap` | c++20/Twitter.cpp:45-49 | filling from the end turns the heap into the feed, newest first |
| `Twitter.MergeRanges` | c++20/Twitter.cpp:95-103 | the merge loop yields the ten newest in order |
| `SharedPtr.AliveIffHeld` | Study/weak_ptr_impl.cpp:74-86 | after any operations an object is alive from its creation on, and once given to a SharedPtr exactly while some SharedPtr points at the block made for it; it is deleted once |
| `SharedPtr.StepOnHandles` | Study/weak_ptr_impl.cpp:27-136 | every operation points the handles it names where the source does (`SharedAfter`, `WeakAfter`, in terms of the handle maps alone), changes no other handle, and leaves every held block its object; a new block has exactly the given target |
| `SharedPtr.HeldBlocksKeepTheirObject` | Study/weak_ptr_impl.cpp:27-136 | over every run a block some SharedPtr holds has the object it was made with |
| `SharedPtr.LockSharesTheOwner` | Study/weak_ptr_impl.cpp:88-136 | a WeakPtr made from a SharedPtr locks to that one's block, after any operations that write neither handle |
| `SharedPtr.BlockLivesWithItsHandles` | Study/weak_ptr_impl.cpp:74-149 | a control block exists exactly while some handle points at it, is freed once, and its counts are its handles' |
| `SharedPtr.NoHandleDangles` | Study/weak_ptr_impl.cpp:28-149 | no handle points at a freed block, no SharedPtr at a deleted object |
| `SharedPtr.LockSucceedsIffAlive` | Study/weak_ptr_impl.cpp:88-136 | lock shares the block exactly when some SharedPtr keeps it, and changes nothing else |
| `SharedPtr.NothingLeaks` | Study/weak_ptr_impl.cpp:74-149 | once no handle points anywhere every block is freed and every adopted object deleted |
| `SharedPtr.ReleasedSharedKeeps` | Study/weak_ptr_impl.cpp:74-86 | SharedPtr::release keeps counts, ownership and liveness |
| `SharedPtr.ReleasedWeakKeeps` | Study/weak_ptr_impl.cpp:141-149 | WeakPtr::release keeps them |
| `SharedPtr.MovedKeeps` | Study/weak_ptr_impl.cpp:35-38 | moving transfers the count |
| `SharedPtr.AdoptedKeeps` | Study/weak_ptr_impl.cpp:28 | a new control block starts with exact counts |
| `SharedPtr.Memory.NewShared` | Study/weak_ptr_impl.cpp:28 | constructs from a raw pointer, possibly null |
| `SharedPtr.Memory.DefaultShared` | Study/weak_ptr_impl.cpp:27 | an empty SharedPtr |
| `SharedPtr.Memory.DefaultWeak` | Study/weak_ptr_impl.cpp:104 | an empty WeakPtr |
| `SharedPtr.Memory.CopyShared` | Study/weak_ptr_impl.cpp:30-33 | copy construction |
| `SharedPtr.Memory.MoveShared` | Study/weak_ptr_impl.cpp:35-38 | move construction |
| `SharedPtr.Memory.AssignShared` | Study/weak_ptr_impl.cpp:40-47 | copy assignment: release, then share; self-assignment does nothing |
| `SharedPtr.Memory.MoveAssignShared` | Study/weak_ptr_impl.cpp:49-56 | move assignment |
| `SharedPtr.Memory.DestroyShared` | Study/weak_ptr_impl.cpp:58-60 | destruction |
| `SharedPtr.Memory.ReleaseShared` | Study/weak_ptr_impl.cpp:74-86 | the step-by-step release has the specified effect |
| `SharedPtr.Memory.WeakOfShared` | Study/weak_ptr_impl.cpp:106-109 | a WeakPtr made from a SharedPtr |
| `SharedPtr.Memory.CopyWeak` | Study/weak_ptr_impl.cpp:111-114 | copy construction |
| `SharedPtr.Memory.AssignWeak` | Study/weak_ptr_impl.cpp:116-123 | copy assignment |
| `SharedPtr.Memory.DestroyWeak` | Study/weak_ptr_impl.cpp:125-127 | destruction |
| `SharedPtr.Memory.ReleaseWeak` | Study/weak_ptr_impl.cpp:141-149 | the step-by-step release has the specified effect |
| `SharedPtr.Memory.Lock` | Study/weak_ptr_impl.cpp:133-136 | lock through the private constructor has the specified effect |
| `SharedPtr.Memory.IsExpired` | Study/weak_ptr_impl.cpp:129-131 | true exactly when no SharedPtr holds the weak handle's block |
| `SharedPtr.Memory.Unique` | Study/weak_ptr_impl.cpp:69 | true exactly when this is the block's only SharedPtr |

## Left out

- FreeList.RunInv: assumes fewer than 2^31 - 1 threads, because a count of more would reach the flag bit.
- TicketDequeue.RunInv: bounds a run to fewer than 2^63 elements and at most 2^63 tickets, which the original assumes of its comparisons (concurrentqueue.h:476-483); longer runs need the window condition of `WindowInv`.
- BlockIndex.RunInv: index capacity is bounded by what a 64-bit address space can hold; what makes an insertion fail (size limit, allocation, an element's constructor) is the scheduler's choice.
- MpmcQueue.RunInv: is about unbounded positions; `MpmcWords` carries it to 64-bit words, for subtraction of signed words taken as two's complement and as long as no thread sleeps while the queue moves on by half a word.
- ImplicitQueue.RunInv: requires bulk calls to ask for at least one element, which is exact (`SafeIffBulkCallsAskForSomething`); the memory of a block is named by its block number, so its reuse by another block is the free list's concern.
- TaggedPool.RunInv: assumes that a head does not change 2^32 times between one thread's load and its compare-exchange, and that only owners deallocate.
- TaggedPool.ReadsPastTheArrayIffEmpty: a thread that read past the index array is not followed any further.
- Sequencer.ServeGapRequest: a store of more than 2^63 messages is not considered.
- Sequencer.RunIsGapFree: assumes completing recoveries, and speaks of messages offered to the send queue, whose full case the original ignores; sequence numbers are unbounded.
- OpenAddressing.InsertIsFound: the load factor is the rational 7/10, not its nearest float.
- OpenAddressing.OpenAddressingHashMap.constructor: the bucket count is required to be a power of two, which the mask needs (`Words.MaskReachesAllIff`) and this class, unlike the chaining one, does not check.
- ChainingMap.FixedSizedChainingHashMap.constructor: takes only powers of two; the original throws on any other bucket count, which is a compile-time constant.
- SpscQueue.SpscQueue.constructor: takes only powers of two up to 2^63; the original throws on a capacity that is not a power of two, which is a compile-time constant.
- OrderBook.OrderBook.Insert: prices are tick indices within the levels; double prices, int overflow of quantities and a full order map are not modelled.
- Lock-free parts as state machines on values: update in place and C++ memory orders weaker than sequential consistency are not captured, nor padding, alignment, allocation failure and destructors of elements.
- The monitor is a step system too: one section under the mutex is one step, so fairness of the mutex and who gets it first are the scheduler's choice and liveness is not claimed.
- The explicit producer's own block index, thread-exit hooks, the producer hash, consumer-token rotation and statistics of `concurrentqueue.h`: not needed by the properties above.
- In the hash maps and the order book, linking a node, probing for a free slot and scanning for the next level are methods of their own, where the original writes them inside the operation.
- Drawing mines at random, reading input and printing the board.
- Object destructors that themselves use handles (cycles), threads and casts in the shared pointer.
- A heap's layout: the priority queues are sets with a smallest or largest element; hash sets are iterated in any order.
- `setSequenceNum`, `replayAll`, sockets, timing, logging and message fields other than the sequence number.
- `OrderBook<true>`, the other hash maps, pools and queues, sorts, trees and language demonstrations: easier, or weaker copies of the parts modelled.
