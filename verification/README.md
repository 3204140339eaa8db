# Verified model of the server's queues, calendar and cache

The project states and proves what the concurrency, calendar and cache components of the HTTP server
are for.

**Queues.** The server's threads communicate only through a lock-free queue with a semaphore on top.
Six protocols are step systems: one datatype for the shared state, a program counter with saved
locals for each of any number of threads, one step for each atomic operation, and an event sequence
for an interleaving. A theorem about `Run(s0, es)` is about every reachable state.

- `FreeList`, `FreeListProof`: the CAS free list with its reference count and should-be-on-list bit.
- `OptimisticDequeue`: the overcommit protocol of `dequeue` and `dequeue_bulk`. The proof keeps a log
  with one entry for each unit the optimistic count was raised by.
- `Semaphore`: the signed count that stands for permits and sleepers at once.
- `BlockingQueue`: permits and elements together, on top of the step system of `Semaphore`.
- `SlotSafety`: the claims together with the slots and empty flags of blocks that are used again while
  consumers read.
- `IndexLookup`: how consumers find those blocks through the circular index, while blocks are entered in
  it and it is replaced by larger ones; on top of `SlotSafety`.
- `FreeListCalls`, `DequeueProgress`, `SlotProgress`, `LookupProgress`, `SemaphoreCalls`, `BlockingCalls`:
  what the calls of these protocols answer. What is there is taken, what was given arrives, and a call
  comes back with nothing only if it saw nothing; alone, between quiet moments, or in every interleaving.
- `Threads`: sums over threads. `Basics`: what several modules use.

Two parts are classes that update their fields and arrays in place, one call at a time.

- `ExplicitProducer`: the ring of blocks with their flag arrays, and the circular block index. The
  ghost fields `head` and `tail` are the unbounded values of the 64-bit indices and `items` is the
  queue the object stands for. `Index` has the arithmetic of indices that wrap.
- `ImplicitTable`: the chain of hash tables from thread ids to producers.

**Calendar.** `Calendar` has `to_days` and `from_days` with C++'s truncating division and 32-bit
unsigned arithmetic written out, next to the proleptic Gregorian calendar of section 3.2.1 of
ISO 8601:2004 given one day at a time. `Weekdays` has weekday arithmetic, the nth and the last
weekday of a month, and ISO week dates.

**Cache.** `LfuOrder` says where hinted insertions put equal keys and what that means for a history of
calls; `LfuPolicy` and `Cache` are the objects, with the iterators of the code as references to nodes.

Where the code does not do what one would expect of it, an input is given and the exact condition is
proved:

- A `timed_wait` that timed out, saw a count of zero or more and then finds no post need not have a
  signaller that owes one: run in `EmptyTryWaitWithoutSignaller`, condition in `EmptyTryWaitExplained`.
- `waitMany(0)`, which `wait_dequeue_bulk` reaches with a maximum of 0, returns 0 and fails its
  assertion: run in `WaitManyOfZero`, condition in `CallsReturnWhatTheyMay`.
- With exactly 2^63 elements in one sub-queue `dequeue` and `dequeue_bulk` report it empty, because the
  circular comparison is strict at half the range. `HalfFull` has calls that get there, with more
  memory than a 64-bit address space has; with fewer than 2^58 blocks it cannot happen
  (`SmallRingBelowHalf`).
- `from_days` narrows the year to 16 bits, so a day need not come back (`DayAfterRange`,
  `ToDaysOfFromDays`), and "`from_days` always yields an `ok` date" is false (`NotOkBeyondRange`,
  `FromDaysOkExactly`), while a wrapped date can be `ok` (`OkBeyondRange`).
- `ok` refuses nth-weekday forms of the year -32768 that come back: `IndexedOfLowestYear`,
  `IndexedOkExactly`.
- Given year, week and weekday the parser checks neither the week, so it takes 0 and 53 to 99 as well
  (`NoWeek53In2021`), nor the year, which it narrows (`Year40000`): `IsoParseExactly`,
  `LongYearsExactly`.
- Inserting a key twice into the policy leaves an entry behind; `Insert`. The cache never does.

## Model

| member | source | states |
|---|---|---|
| FreeListProof.Exclusive | http_server/async/include/concurrentqueue.hpp:1438-1517 | In every interleaving of any number of threads no two threads have the same block in hand (owned, about to be returned by `try_get`, or being added), and no block in hand is on the list. |
| FreeListProof.Conserved | http_server/async/include/concurrentqueue.hpp:1438-1517 | At every step of every run a block is in exactly one of three places: on the list, in one thread's custody, or flagged with a live reference holder; no failed CAS or late decrement loses or doubles one. |
| FreeListProof.PopIsExact | http_server/async/include/concurrentqueue.hpp:1468-1482 | A head CAS of `try_get` that succeeds removes exactly the first block and keeps the rest of the list, although the link it installs was read earlier (no ABA). |
| FreeListProof.PushIsExact | http_server/async/include/concurrentqueue.hpp:1508-1512 | A head CAS of the adding loop that succeeds puts exactly its block in front of the current list. |
| FreeListProof.OtherStepsKeepList | http_server/async/include/concurrentqueue.hpp:1438-1517 | No other atomic operation of any thread changes the list. |
| FreeListProof.WordsNeverOverflow | http_server/async/include/concurrentqueue.hpp:1438-1517 | The assertion after the pop holds in every run; the flag is clear wherever `add` sets it; no `fetch_add` or `fetch_sub` on the 32-bit word carries or borrows across the flag bit. |
| FreeListProof.Quiescent | http_server/async/include/concurrentqueue.hpp:1438-1517 | When no call is in progress a block is on the list exactly if nobody owns it, and its reference word is 1 or 0 accordingly. |
| FreeListProof.StepKeeps | http_server/async/include/concurrentqueue.hpp:1438-1517 | Every event keeps the per-block invariant that ties the reference word to reference holders, place and flag, and moves the list as the event's own operation says. |
| FreeListCalls.TryGetAlone | http_server/async/include/concurrentqueue.hpp:1452-1482 | After any run that left no call in progress, a `try_get` that runs alone hands over the first block and leaves the rest of the list; it returns nothing, and changes nothing, if and only if the list is empty. |
| FreeListCalls.AddAlone | http_server/async/include/concurrentqueue.hpp:1438-1512 | An `add` that runs alone puts its block in front of the list as it was. |
| FreeListCalls.AddThenGet | http_server/async/include/concurrentqueue.hpp:1438-1482 | So what was added is what the next `try_get` returns, and the list is as before. |
| FreeListCalls.EmptyHandedSawNull | http_server/async/include/concurrentqueue.hpp:1452-1482 | In every interleaving a `try_get` that comes back with nothing has, within the call, seen the head null: at a load of it, or at a failed CAS of it that loaded it again. |
| OptimisticDequeue.ClaimsAreBacked | http_server/async/include/concurrentqueue.hpp:1940-2037 | With any number of single and bulk dequeuers `headIndex` never passes `tailIndex`, and a thread that passed the comparison finds its elements at the head whatever the order in which threads get there. |
| OptimisticDequeue.FifoExactlyOnce | http_server/async/include/concurrentqueue.hpp:1940-2037 | Over any run the claims concatenate to the first `headIndex` elements enqueued, each once and in order. |
| OptimisticDequeue.ClaimsAreDisjoint | http_server/async/include/concurrentqueue.hpp:2254 | A later claim starts at or after the end of every earlier one. |
| OptimisticDequeue.QuietCounters | http_server/async/include/concurrentqueue.hpp:1964-2032 | Whenever no dequeue is in flight `dequeueOptimisticCount - dequeueOvercommit == headIndex`. |
| OptimisticDequeue.OvercommitNeverAhead | http_server/async/include/concurrentqueue.hpp:1966-1971 | A saved overcommit never exceeds the ticket drawn after it, and head plus overcommit never exceed the optimistic count: what the comment argues and the code does not assert. |
| OptimisticDequeue.LoneDequeueTakesWhatIsThere | http_server/async/include/concurrentqueue.hpp:2233-2323 | After any run, a dequeue that runs alone takes the smaller of its maximum and everything that remains: failed calls before it put no element out of reach. |
| DequeueProgress.ContendersAreServed | http_server/async/include/concurrentqueue.hpp:1964-2032 | Between two moments without a dequeue in flight, whatever the interleaving, at least as many elements are taken as tickets are drawn or as there were elements, whichever is less: contention leaves nothing behind. |
| DequeueProgress.EnoughForAll | http_server/async/include/concurrentqueue.hpp:1964-2032 | So while there is an element for each ticket every ticket is served and the overcommit does not grow. |
| OptimisticDequeue.AcceptedIsCovered | http_server/async/include/concurrentqueue.hpp:1976-1988 | The key step: a unit that passes the comparison with `o` lost units below its ticket is covered by the tail once lost units are left out. |
| Index.CircularLessExactly | http_server/async/include/concurrentqueue.hpp:468-480 | For any two indices, wrapped any number of times, `circular_less_than` says less if and only if the second is ahead of the first, going around, by less than half the range. |
| Index.CircularIsOrder | http_server/async/include/concurrentqueue.hpp:468-480 | So it is `<` on the unbounded indices exactly while they are less than half the range apart; at half the range neither is less, and beyond it the order is reversed. |
| Index.LookupGoesBack | http_server/async/include/concurrentqueue.hpp:1993-2002 | A negative distance in elements, divided by 32 as an unsigned number and masked, still leads the right number of slots back, because the size is a power of two. |
| ExplicitProducer.LookupWorks | http_server/async/include/concurrentqueue.hpp:1993-2002 | The same from the wrapped head index and the wrapped newest base, for every live index. |
| ExplicitProducer.BlockIndex.SlotOf | http_server/async/include/concurrentqueue.hpp:1993-2002 | The slot looked up is the one of the block whose base is the head index rounded down to `BLOCK_SIZE`. |
| ExplicitProducer.BlockIndex.SlotAfter | http_server/async/include/concurrentqueue.hpp:2311 | Going one slot on, around the end if need be, is going to the next block of the ring. |
| ExplicitProducer.BlockIndex.Grow | http_server/async/include/concurrentqueue.hpp:2341-2378 | `new_block_index` doubles the size and still lists every block in order; when the allocation fails nothing changes. |
| ExplicitProducer.BlockIndex.CopyTo | http_server/async/include/concurrentqueue.hpp:2357-2365 | The copying loop moves the used slots of the old circular index, oldest first, to the beginning of the new one, also when the old one is full and the loop starts where it ends. |
| ExplicitProducer.BlockIndex.PublishNew | http_server/async/include/concurrentqueue.hpp:1919-1924 | Entering a new tail block keeps the index listing all blocks, however often it went around. |
| ExplicitProducer.BlockIndex.PublishAgain | http_server/async/include/concurrentqueue.hpp:1847-1924 | So does entering the reused oldest block, whose own slot may be the one overwritten. |
| ExplicitProducer.ExplicitProducer.constructor | http_server/async/include/concurrentqueue.hpp:1751-1768 | A new producer is empty and valid whether or not the first index could be allocated. |
| ExplicitProducer.ExplicitProducer.Enqueue | http_server/async/include/concurrentqueue.hpp:1834-1937 | `enqueue` appends to the sequence the object stands for or leaves it alone; it succeeds if and only if the tail is inside a block, the oldest block is empty, or a block can be inserted. The next block is used again exactly when all its elements are gone, so no live slot is overwritten. |
| ExplicitProducer.ExplicitProducer.Dequeue | http_server/async/include/concurrentqueue.hpp:1940-2036 | One call alone, through the optimistic count and the overcommit left by any earlier calls, returns the oldest element and keeps the rest; it reports empty if and only if the queue is empty or holds exactly half the index range. |
| ExplicitProducer.ExplicitProducer.SmallRingBelowHalf | http_server/async/include/concurrentqueue.hpp:1856-1865 | The queue cannot hold half the range while its ring has fewer than 2^58 blocks, so there `dequeue` reports empty if and only if it is. |
| HalfRange.HalfFull | http_server/async/include/concurrentqueue.hpp:1940-2036 | Calls that do bring a new sub-queue to exactly 2^63 elements, and the `dequeue` that then reports it empty. |
| ExplicitProducer.ExplicitProducer.TakeHead | http_server/async/include/concurrentqueue.hpp:1991-2026 | The element of the head's slot is taken and that slot, no other, is flagged. |
| ExplicitProducer.ExplicitProducer.DequeueBulk | http_server/async/include/concurrentqueue.hpp:2233-2323 | One bulk call alone, through the same two counters, hands over the oldest elements in order, as many as there are up to the maximum, across any number of blocks and index wraps, and keeps the rest; with exactly half the index range of elements it takes none. |
| ExplicitProducer.ExplicitProducer.WalkBlock | http_server/async/include/concurrentqueue.hpp:2267-2311 | One round of its loop takes from one block and flags what lies there and is wanted, and goes on exactly if the block ended first. |
| ExplicitProducer.TakeSlots | http_server/async/include/concurrentqueue.hpp:2273-2310 | Within a block the elements from one wrapped index up to another are taken in order, then exactly their slots are flagged. |
| ExplicitProducer.EndInBlock | http_server/async/include/concurrentqueue.hpp:2269-2270 | The circular comparison picks the nearer of the block's end and the last element wanted, wrapped or not. |
| ExplicitProducer.Block.SetManyEmpty | http_server/async/include/concurrentqueue.hpp:1595-1607 | Sets exactly the flags of the given run of slots. |
| ExplicitProducer.ClearOldest | http_server/async/include/concurrentqueue.hpp:1632-1643 | Clearing the flags of the oldest block makes it the last block of the ring without touching what the other blocks hold. |
| ExplicitProducer.OldestIsEmpty | http_server/async/include/concurrentqueue.hpp:1549-1572 | `is_empty` of the block ahead is true if and only if all 32 of its indices are below the head. |
| ExplicitProducer.Block.IsEmpty | http_server/async/include/concurrentqueue.hpp:1549-1572 | True if and only if every flag is set. |
| SlotSafety.ReadsAreRight | http_server/async/include/concurrentqueue.hpp:1834-2026 | In every interleaving of claims, reads, flag stores and block reuse, each element a consumer has read is the one of its index. |
| SlotSafety.ClaimedSlotIsSafe | http_server/async/include/concurrentqueue.hpp:1834-2026 | A slot that was claimed and is not yet flagged lies in a block of the ring and holds its element, no other consumer has it, and neither the clearing nor the next store of the producer touches it. |
| SlotSafety.ReusedOnlyWhenGone | http_server/async/include/concurrentqueue.hpp:1841-1849 | Every element of a block that was used again had been claimed and flagged. |
| SlotSafety.OldestBecomesReusable | http_server/async/include/concurrentqueue.hpp:1841-1849 | Once the elements of the oldest block are claimed and none is held, every flag the scan looks at is set: no block is lost. |
| SlotProgress.ItemsArePublished | http_server/async/include/concurrentqueue.hpp:1834-1937 | In every run the elements published are those of the enqueues that went through, in order, and the one under way is the last one given. |
| SlotProgress.EnqueueInBlock | http_server/async/include/concurrentqueue.hpp:1834-1937 | An enqueue inside a block, alone, publishes its element in two steps. |
| SlotProgress.EnqueueReuses | http_server/async/include/concurrentqueue.hpp:1841-1937 | With the tail at the end of its block and the elements of the oldest block gone, an enqueue that runs alone scans it, clears it, makes it the last block of the ring and publishes its element there. |
| SlotProgress.EnqueueInserts | http_server/async/include/concurrentqueue.hpp:1841-1937 | With an element of the oldest block still there, it asks for a new block, and publishes its element in that. |
| SlotProgress.ConsumerGetsOn | http_server/async/include/concurrentqueue.hpp:1991-2026 | In every reachable state a consumer can read the next element of its claim, set the flag of one it has read, which is then set, and leave once all are. |
| SlotSafety.StepKeeps | http_server/async/include/concurrentqueue.hpp:1834-2026 | Every atomic step keeps the invariant that a slot of the ring is flagged if and only if its element was claimed and nobody holds it. |
| IndexLookup.FoundBlockIsRight | http_server/async/include/concurrentqueue.hpp:1991-2002 | In every interleaving of the consumers' loads of header, front, base and block with the producer's writes to a slot, its stores of the front and its swaps of the header, the block found for an unread index is the memory of that index's block, and its slot holds the element. |
| IndexLookup.FlagsGoToTheirBlock | http_server/async/include/concurrentqueue.hpp:1991-2026 | A consumer at a block sets flags in that block's memory, whatever was entered in the index since. |
| IndexLookup.LookGetsOn | http_server/async/include/concurrentqueue.hpp:1991-2002 | No load leads nowhere: there is a header, the front is a slot with a base, and the slot reached is that of the block wanted. |
| IndexLookup.StepKeeps | http_server/async/include/concurrentqueue.hpp:1919-2026 | Every step keeps all headers, replaced ones included, right for every block of the ring that was entered in them. |
| IndexLookup.LookupSlot | http_server/async/include/concurrentqueue.hpp:1993-2002 | From a base that belongs to any later block still in the header the wrapped arithmetic leads to the slot of the index's block. |
| IndexLookup.GrownRight | http_server/async/include/concurrentqueue.hpp:2357-2378 | The header of twice the size lists the same blocks, from slot 0 on. |
| LookupProgress.ConsumerFinishes | http_server/async/include/concurrentqueue.hpp:1991-2026 | From any reachable state after its claim a consumer that runs alone finds, reads and flags all of its elements, the published ones in order, across any number of blocks, and leaves. |
| LookupProgress.EnteringEnds | http_server/async/include/concurrentqueue.hpp:1919-1924 | Entering a block in the index ends with three writes at most, and the block is entered then. |
| LookupProgress.RoomForBlock | http_server/async/include/concurrentqueue.hpp:1878-1924 | A producer in need of a block has room for it in the index, after growing it at most once. |
| ImplicitTable.ImplicitProducers.GetOrAdd | http_server/async/include/concurrentqueue.hpp:3384-3522 | The same id gets the same producer forever, across table growth; a new id gets the new producer, under which no other id is; a call fails if and only if the id is new and an allocation it needs fails; afterwards the id is in the table in use. |
| ImplicitTable.ImplicitProducers.Find | http_server/async/include/concurrentqueue.hpp:3395-3436 | The lookup through the current and the older tables finds an id exactly if it was ever given a producer, and moves it to the table in use. |
| ImplicitTable.ImplicitProducers.Reserve | http_server/async/include/concurrentqueue.hpp:3438-3480 | A table in use always stays less than half counted, by doubling before the insertion or giving the count back. |
| ImplicitTable.Probe | http_server/async/include/concurrentqueue.hpp:3397-3435 | Each linear probe terminates, at the id if the table has it and at a free slot otherwise. |
| ImplicitTable.Place | http_server/async/include/concurrentqueue.hpp:3498-3515 | Inserting an absent id keeps every id reachable by probing and leaves a free slot. |
| ImplicitTable.ImplicitProducers.EntriesAtMostCount | http_server/async/include/concurrentqueue.hpp:3404-3407 | Between calls the occupied slots of any table never exceed `implicitProducerHashCount`, which is below half the capacity of the table in use. |
| Semaphore.SleepersAccounted | http_server/async/include/lightweightsemaphore.hpp:262-402 | In every interleaving max(0, -count) + posts + posts owed equals the number of threads in the slow path, timed-out ones and `waitMany` callers included. |
| Semaphore.PermitsConserved | http_server/async/include/lightweightsemaphore.hpp:262-402 | Initial plus signalled permits are available, in a call's hands, or returned: none is made or lost over any run. |
| Semaphore.NoLostWakeup | http_server/async/include/lightweightsemaphore.hpp:262-402 | A thread is left in the slow path with no post pending or owed only if every permit has been taken, and then the count is exactly minus the sleepers. |
| Semaphore.CallTakesWhatItReturns | http_server/async/include/lightweightsemaphore.hpp:262-391 | Whatever other threads do meanwhile, a call's own steps together take from the available permits exactly those it returns with, and from the count those and one while it is in the slow path. |
| Semaphore.GivingUpTakesNothing | http_server/async/include/lightweightsemaphore.hpp:262-391 | So a call that returns nothing, timed out or not, has from its beginning to its return left the available permits and the count as they were. |
| Semaphore.EmptyTryWaitExplained | http_server/async/include/lightweightsemaphore.hpp:288-326 | A thread that saw a non-negative count and finds no post: a signaller still owes one if and only if the negative count does not stand for all slow-path threads; in particular whenever the count is still non-negative. |
| Semaphore.EmptyTryWaitWithoutSignaller | http_server/async/include/lightweightsemaphore.hpp:288-295 | A concrete run in which such a thread finds no post and nobody owes one, because the count has gone negative again. |
| Semaphore.PostsFitThreads | http_server/async/include/lightweightsemaphore.hpp:397-401 | The number narrowed to `int` never exceeds the number of threads. |
| Semaphore.CallsReturnWhatTheyMay | http_server/async/include/lightweightsemaphore.hpp:341-391 | No call returns more permits than it asked for; if untimed sleeps end only by a post, a call that waits indefinitely returns at least one, as `waitMany` asserts, if and only if its maximum is above 0. |
| Semaphore.WaitManyOfZero | http_server/async/include/lightweightsemaphore.hpp:377-391 | The run in which `waitMany(0)` returns 0 against its assertion. |
| SemaphoreCalls.EmptyOnlyWhenSeen | http_server/async/include/lightweightsemaphore.hpp:341-391 | In every interleaving a call that comes back without a permit, though it wanted one, does so by a step at which the count is at or below 0. |
| SemaphoreCalls.FewerOnlyWhenNoneLeft | http_server/async/include/lightweightsemaphore.hpp:262-391 | In every interleaving a call that comes back with fewer permits than it wanted leaves none in the count: the greedy promise of the bulk calls. |
| SemaphoreCalls.TakesWhatIsThere | http_server/async/include/lightweightsemaphore.hpp:341-391 | With permits there, any call that runs alone, timed or not, returns as many as it wants or all there are, at its first try. |
| SemaphoreCalls.SpinnerTakesWhatIsThere | http_server/async/include/lightweightsemaphore.hpp:302-313 | A spinning call for which permits have come takes them in its next round, as many as it wants or all. |
| SemaphoreCalls.JoinerTakesWhatIsThere | http_server/async/include/lightweightsemaphore.hpp:314-331 | One that has stopped spinning does not sleep where permits are, and takes as many as it wants or all. |
| SemaphoreCalls.TryFindsNone | http_server/async/include/lightweightsemaphore.hpp:341-374 | With none there a call that does not wait returns 0 and changes nothing. |
| SemaphoreCalls.SignalAlone | http_server/async/include/lightweightsemaphore.hpp:393-402 | A signal that runs alone adds its permits and posts once for each sleeper they are for. |
| SemaphoreCalls.PostWakesSleeper | http_server/async/include/lightweightsemaphore.hpp:262-338 | A sleeper for whom there is a post wakes with one permit and takes what else there is, up to its maximum. |
| SemaphoreCalls.LatePostIsTaken | http_server/async/include/lightweightsemaphore.hpp:288-326 | A wait that timed out and sees that it has been counted off takes the post that came for it. |
| SemaphoreCalls.TimesOutAlone | http_server/async/include/lightweightsemaphore.hpp:262-338 | With no permits a timed call that runs alone spins, sleeps, gives up, and leaves the semaphore as it was. |
| BlockingQueue.PermitMeansElement | http_server/async/include/blockingconcurrentqueue.hpp:123-455 | In every interleaving the inner size is the elements not yet signalled plus the permits available, held and granted but not yet used. |
| BlockingQueue.RetryCanSucceed | http_server/async/include/blockingconcurrentqueue.hpp:297-366 | A thread in a retry loop always faces at least as many elements as it still needs, and a try for one of them brings it forward. |
| BlockingQueue.FinishedCallsDeliver | http_server/async/include/blockingconcurrentqueue.hpp:294-455 | Every finished dequeue of any run has handed over an element for each permit of its call of the semaphore, no more than it asked for; one that waited indefinitely at least one, if and only if it asked for any. |
| BlockingQueue.ElementsConserved | http_server/async/include/blockingconcurrentqueue.hpp:123-367 | What was put in is, with multiplicity, inside, with a dequeue under way, or with one finished dequeue: nothing is lost, invented or delivered twice. |
| BlockingCalls.PutIsGiven | http_server/async/include/blockingconcurrentqueue.hpp:123-130 | In every run, what was put in is exactly what the enqueues made by free threads were given. |
| BlockingCalls.SignalledIsGiven | http_server/async/include/blockingconcurrentqueue.hpp:123-130 | So each element given has been signalled once or its enqueue has still to do so. |
| BlockingCalls.EnqueueAlone | http_server/async/include/blockingconcurrentqueue.hpp:123-130 | An enqueue that runs alone, with its signal, puts its elements inside, adds as many permits, posts to the sleepers they are for, and is done. |
| BlockingCalls.DequeueAlone | http_server/async/include/blockingconcurrentqueue.hpp:294-367 | With permits there a dequeue that runs alone returns as many elements as it wants or as there are permits, takes them out, and uses as many permits. |
| BlockingCalls.DequeueNothing | http_server/async/include/blockingconcurrentqueue.hpp:294-335 | With none there a `try_dequeue` returns nothing and changes nothing. |
| BlockingCalls.RoundTrip | http_server/async/include/blockingconcurrentqueue.hpp:123-367 | After any run that ends at rest with the queue empty, an enqueue and then a dequeue that wants as many give back exactly the elements, and the queue is empty and at rest. |
| BlockingQueue.SleepMeansEmpty | http_server/async/include/blockingconcurrentqueue.hpp:359-455 | If a consumer sleeps with no signal or post under way, every element inside is promised to another consumer. |
| BlockingQueue.QuietCountIsSize | http_server/async/include/blockingconcurrentqueue.hpp:123-303 | With no call in progress the semaphore's count is the number of elements. |
| Calendar.ToDaysIsSerial | http_server/include/date.h:2970-2987 | No unsigned operation of `to_days` goes wrong: it is the floor-division formula for every year and month, also for days the month lacks. |
| Calendar.DateOfIsCivil | http_server/include/date.h:3091-3101 | The date `from_days` computes, before its year is narrowed, exists and has that serial day, for every integer, although it goes through unsigned numbers. |
| Calendar.YearFromDay | http_server/include/date.h:3093-3096 | The correction by 1460, 36524 and 146096 days gives the right year of the era on all 146097 days, with a day 365 only in leap years. |
| Calendar.MonthFromDay | http_server/include/date.h:3097-3099 | The month found from any of the 366 days of a March year is one of twelve and contains the day. |
| Calendar.MonthLengths | http_server/include/date.h:2737-2983 | The month formula steps by the table of month lengths. |
| Calendar.FromDaysOfToDays | http_server/include/date.h:2970-3103 | `from_days` undoes `to_days` on a date if and only if a `short` holds its year: on every valid date. |
| Calendar.ToDaysOfFromDays | http_server/include/date.h:1681-3103 | `to_days` undoes `from_days` on a day if and only if a `short` holds its year, from -32768 to 32767. |
| Calendar.DayAfterRange | http_server/include/date.h:1681-3103 | The first day that does not come back is stored as 1 January -32768. |
| Calendar.FromDaysOkExactly | http_server/include/date.h:3006-3103 | `from_days` yields an `ok` date if and only if the narrowed year is not -32768 and, for a 29 February, is leap. |
| Calendar.FromDaysOkInRange | http_server/include/date.h:1704-3103 | On the days whose year a `short` holds the date is `ok` exactly from 1 January -32767 on. |
| Calendar.OkExactly | http_server/include/date.h:3006-3011 | For every stored month and day and any year, `ok` holds if and only if the year is one it allows and the date comes back from its serial day: 31 April does not. |
| Calendar.OkBeyondRange | http_server/include/date.h:1681-3103 | 1 January 32769 is stored as an `ok` date 65536 years earlier. |
| Calendar.NotOkBeyondRange | http_server/include/date.h:1681-3103 | 29 February 65436 is stored as 29 February -100, which does not exist. |
| Calendar.ToDaysOfNextDay | http_server/include/date.h:1694-2987 | The calendar's next day, by leap years and month lengths, is the next integer. |
| Calendar.FromDaysCounts | http_server/include/date.h:1681-3103 | `from_days` is the date reached by counting days one at a time from 1 January 1970, forwards or backwards, if and only if a `short` holds the year. |
| Calendar.DateOfCounts | http_server/include/date.h:3084-3101 | For every integer the date computed before the narrowing is the one reached by counting. |
| Calendar.ToDaysKeepsOrder | http_server/include/date.h:2970-3038 | A date is before another if and only if its serial day is smaller. |
| Calendar.EpochIsZero | http_server/include/date.h:2970-2987 | 1 January 1970 is day 0. |
| Weekdays.WeekdayFromDaysIsWeekday | http_server/include/date.h:1823-1827 | Both branches, the wrapping one too, give (z + 4) mod 7 for every 32-bit day. |
| Weekdays.PlusFollowsDays | http_server/include/date.h:1914-1920 | Adding days to a weekday is stepping that many days, either way. |
| Weekdays.MinusUndoesPlus | http_server/include/date.h:1905-1920 | The difference of two weekdays is the step from one to the other. |
| Weekdays.IndexedRoundTrip | http_server/include/date.h:3272-3292 | A day survives the way through its nth-weekday form if and only if a `short` holds its year. |
| Weekdays.IndexedOkExactly | http_server/include/date.h:3259-3292 | `ok` of an nth-weekday form, whatever its month, weekday and index, holds if and only if its year is one that `ok` allows and the form comes back from the day it means. |
| Weekdays.IndexedOfLowestYear | http_server/include/date.h:1704-3292 | In the year -32768 a form comes back and is not `ok`. |
| Weekdays.LastIsLast | http_server/include/date.h:3469-3473 | The last-weekday form is in its month, on its weekday, and within the last seven days. |
| Weekdays.IsoYearContains | http_server/include/date.h:5346-5818 | With years that do not wrap, the interval of the ISO year computed contains the day, and the ISO week counts from its start. |
| Weekdays.IsoYearIsUnique | http_server/include/date.h:5346-5351 | With years that do not wrap, it is the only year whose interval does. |
| Weekdays.IsoRoundTrip | http_server/include/date.h:5346-7716 | With years that do not wrap, the ISO week is one its year has, at most 53, and year, week and weekday lead back to exactly the day, for every integer day. |
| Weekdays.IsoParseExactly | http_server/include/date.h:7712-7730 | What the parser stores for a year, week and weekday, with every year in a `short`, prints back as the same year and week if and only if the year is from -32767 to 32767 and has that week. |
| Weekdays.ParsedInRange | http_server/include/date.h:7712-7730 | For those years and weeks the parser stores an `ok` date with that weekday, of the day meant. |
| Weekdays.Year40000 | http_server/include/date.h:7404-7730 | Week 1 of 40000 is taken, stored as an `ok` date of the year -25536, and printed as that. |
| Weekdays.DayFromIsoExactly | http_server/include/date.h:7712-7716 | With years that do not wrap, the day of a year, week and weekday has that year and week if and only if the year has that week. |
| Weekdays.LongYearsExactly | http_server/include/date.h:7712-7716 | A year has 53 weeks if and only if it starts on a Thursday, or is leap and starts on a Wednesday, and 52 otherwise. |
| Weekdays.NoWeek53In2021 | http_server/include/date.h:7712-7730 | Week 53 of 2021 is parsed, stored and printed as week 1 of 2022. |
| Weekdays.PrintedIsIsoExactly | http_server/include/date.h:5346-5818 | With every year in a `short`, what is printed is the ISO year and week if and only if the day is from 3 January -32767 to 31 December 32767. |
| Weekdays.PrintedRoundTrip | http_server/include/date.h:5346-7716 | On all those days printing and parsing back, with every year in a `short`, gives the same day. |
| Weekdays.IsoFollowsThursday | http_server/include/date.h:5346-5818 | The rule of section 4.1.4 of ISO 8601:2004: year and week are those of the week's Thursday. |
| LfuOrder.FrequenciesCountUses | http_server/async/include/lfu_cache_policy.hpp:21-42 | Over any history each stored frequency is one plus the touches since insertion, and the multimap is sorted. |
| LfuOrder.VictimPrecedesAll | http_server/async/include/lfu_cache_policy.hpp:44-49 | The candidate has the fewest uses; at one use the newest insertion wins a tie, at more the earliest arrival, as the hints place equal keys. |
| LfuOrder.OnlyLiveKeysListed | http_server/async/include/lfu_cache_policy.hpp:21-42 | Every entry is of a key that is in the policy, and no key has two. |
| LfuPolicy.LfuCachePolicy.Insert | http_server/async/include/lfu_cache_policy.hpp:21-27 | Inserts at frequency 1 in front of its equals; the containers agree afterwards if and only if the key was absent. |
| LfuPolicy.LfuCachePolicy.Touch | http_server/async/include/lfu_cache_policy.hpp:29-40 | Moves the key's own entry one frequency up, behind its equals, and keeps the iterators right. |
| LfuPolicy.LfuCachePolicy.Erase | http_server/async/include/lfu_cache_policy.hpp:42-46 | Removes exactly the key's own entry and its iterator. |
| LfuPolicy.LfuCachePolicy.ReplCandidate | http_server/async/include/lfu_cache_policy.hpp:48-53 | Returns the key that precedes all others in the history's order. |
| Cache.FixedSizedCache.Put | http_server/async/include/cache.hpp:43-64 | Stores the pair and keeps map, multimap and index in agreement and the size within the maximum; a new key in a full cache first evicts the policy's candidate, an overwrite counts as a use. |
| Cache.FixedSizedCache.Get | http_server/async/include/cache.hpp:66-82 | A hit returns the stored value and counts as a use; a miss changes nothing. |
| Cache.FixedSizedCache.Remove | http_server/async/include/cache.hpp:103-117 | Erases exactly that key with one callback, and says whether it was there. |
| Cache.FixedSizedCache.EraseElem | http_server/async/include/cache.hpp:146-151 | Policy, callback and map each lose exactly the one pair. |
| Cache.FixedSizedCache.Clear | http_server/async/include/cache.hpp:120-127 | Empties map, multimap and index, with no callback. |
| Cache.HitReturnsLastPut | http_server/async/include/cache.hpp:43-82 | After any run a stored key has the value last put for it. |
| Cache.PutStores | http_server/async/include/cache.hpp:43-64 | After any run a put stores its pair, whatever was in the cache. |
| Cache.PutInRoom | http_server/async/include/cache.hpp:43-64 | Where the key was stored or there is room it changes nothing else and runs no callback. |
| Cache.RemoveAndGet | http_server/async/include/cache.hpp:66-117 | After any run a remove takes out exactly its key, with one callback for its pair if it was there; a get changes no pair. |
| Cache.UsesAreCalls | http_server/async/include/cache.hpp:43-82 | The frequency of a stored key is the number of calls that used it since it was inserted. |
| Cache.PutEvictsLeastUsed | http_server/async/include/cache.hpp:49-58 | After any run, a put of a new key into a full cache drops exactly one pair, of a key with the fewest calls, and no other. |
| Cache.CallbackOncePerErasure | http_server/async/include/cache.hpp:103-151 | Over any run the insertions of a key equal its callbacks plus one if it is still stored. |

## Left out

- Weak memory orders and fences: every atomic operation is sequentially consistent.
- Wrapping of the counters in `OptimisticDequeue`: they are unbounded there; `Index.CircularIsOrder` is the link to the 64-bit comparison while distances are below half the range.
- The arrays of `ExplicitProducer` under concurrent calls: the class is proved for one call at a time. Concurrent claims are in `OptimisticDequeue`, concurrent reading, flagging and reuse in `SlotSafety`, and the concurrent use of the block index in `IndexLookup`, on values. There element indices are unbounded and only bases and looked-up indices are 64-bit words, a bulk call for no elements looks nothing up, and the copying loop of `new_block_index` is one step with the swap (`BlockIndex.CopyTo` is the loop).
- `enqueue_bulk`, `set_all_empty`, the counter variant of block emptiness, the sub-queue size limit and the non-allocating mode.
- Exceptions thrown by element constructors and assignments, move and swap of queues, destructors, aligned allocation, debug and Relacy code, the thread-exit listener (and with it recycled producers and the second invalid id).
- Where blocks come from: `Enqueue` is given a spare block or none, and whether allocation succeeds is a parameter; the same holds for the producer that `GetOrAdd` is given.
- `ImplicitTable`: the hash function is arbitrary, ids and counts are unbounded, and calls are atomic, so the wait for another thread's table does not occur.
- The implicit producer's own queue.
- The operating system's semaphore: a counter whose wait may end without a post, which also stands for a failed or interrupted call and for a timeout; times are not modelled.
- `Semaphore`: `tryWait` and `wait` are the bulk calls for one permit, which compute the same counts and take the same branches.
- The inner queue of `BlockingQueue`: a bag whose tries may find nothing at any time, so the order across producers is not modelled and termination of the retry loops is stated as "some try can succeed". Consumer and producer tokens are not distinguished.
- `m_count` and the amounts signalled are unbounded.
- `Calendar` and `Weekdays`: the day count is unbounded. Months outside 1 to 12 appear only in `LastDay`.
- Streams, locales, parsing and printing of text, time zones, and the remaining date classes and operators of date.h.
- The cache's mutex (calls are atomic), the caller's callback body, copying of the policy, and the destructor.
- Sockets, event loops, listener, worker and task threads, HTTP text, configuration and the linters.
