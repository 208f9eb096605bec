# Verified models of the algorithm core

This project models the parts of the repository that hold real algorithms, one Dafny module
per source file (and one more for whole runs where they are long), and proves what each of them
is for. `dafny verify dfyconfig.toml` checks
everything.

**Matching engine.** `OrderBook` is the lazy order book: ordered price levels, a queue on
each level, a table of order metadata, and cancelled orders that stay queued until matching
meets them. `ReferenceBook` is its specification: one sequence per side in price-time
priority, a cancelled order forgotten at once, and a set of refused ids. Every call of the
lazy book refines the reference book (same trades, same book once cancelled entries are
disregarded), and `BookRuns` proves whole-run properties: equal tapes, an uncrossed book,
price-time priority, conservation of quantity, and no more matching rounds in a whole run than
submissions accepted. Several books draw arrival numbers from one shared counter, as the static
member of the source does, so a run contains `Elsewhere` events.

**Shared pointer.** Each member function is a list of tasks, each task a few atomic steps
(fetch the pointers, take the lock, change the count, leave the lock, delete the object,
delete the block), and threads interleave freely. One invariant covers every interleaving, and
every call ends. A thread uses a handle only while it is inside a member function, so handles
pass from thread to thread between calls. Releases that return at a null pointer are counted
in a history variable, which makes the meaning of the count exact for every block.
`SharedPointerCalls` states what each member function does to its handles and returns, over whole
runs and without its task list.

**Fast structures against simple ones.** `SegmentTree` (allocated on demand, doubling range)
against a sequence and its fold over whole runs, with node and call counts; `KacRing` (a table of
2N averages) against a direct simulation; `Vectors` (raw slots, doubling) against a sequence, with
element lifetimes and amortised relocation, and `VectorRuns` for runs on any number of vectors;
`BusiestServers` (heap and ordered set) against a cyclic scan; `MergeKLists` relinks
heap-allocated nodes in place.

**Optimality and counting.** `MaxEvents`, `MaximumGain`, `MaxFreeTime` and `MeetingRooms`
prove their loops optimal over every plan, every sequence of deletions, every move and every
room assignment; `CountPalindromes` counts index tuples exactly, in 32 and 64-bit integers.

The standard containers are modelled by their contracts in `Containers`: a stable or unstable
sort gives some sorted permutation, a heap is a multiset whose top is some least element, an
ordered set is a set with `lower_bound`. Callbacks, allocation failure and output are not
modelled.

## Where code and intent part

The model follows the code. In these places the code does not do what one would expect of it,
and the exact condition is proved:

- A control block made from a null pointer is never deleted, because `release` returns before
  it counts (`SharedPointer.DeletedExactlyWhen`; shortest run: `SharedPointer.NullBlockLeaks`).
- Assigning into a moved-from vector does nothing, so it ends up equal to the source exactly when
  there was nothing to assign (`Vectors.Vector.Assign`, `Vectors.Vector.MoveAssign`; example:
  `VectorRuns.LostAssignment`).
- A meeting of no length can cost a room too many, depending on the order sorting leaves among
  equal starts (`MeetingRooms.AllAssigned`). Some order does so exactly when such a meeting starts
  together with a longer one at a peak (`MeetingRooms.LateStartNeedsTie`,
  `MeetingRooms.TieMakesLateStart`; example: `MeetingRooms.LateStartExample`).
- A negative `kstep` shows the right colour on every ring of N places if and only if it does not
  pass step 0, or 2N divides 2^64, or the entry reached mirrors the right one, that is, 2N divides
  twice the sum of counter and argument plus 2^64 (`KacRing.BackwardExactlyWhen`; a wrong colour:
  `KacRing.BackwardExample`; a right one after wrapping: `KacRing.MirrorExample`).
- With a negative price the two ordered passes can earn less than stopping early
  (`MaximumGain.GreedyIsBestExactlyWhen`, on the letters of the input
  `MaximumGain.GreedyIsBestInLetters`; example: `MaximumGain.NegativeExample`).
- Without any meeting the longest free stretch comes out as 0 (`MaxFreeTime.BestExactlyWhen`;
  example: `MaxFreeTime.NoMeetingExample`).
- A digit-pair table leaves the 32-bit range exactly when some pair of digits occurs 2^31 times
  or more (`CountPalindromes.CellsFitByPairs`), which takes at least 65537 digits
  (`CountPalindromes.CellsFitExactlyWhen`).
- An id out of the book is not always free: a submission is turned away exactly when its id is
  open or was once withdrawn while open, also after the cancelled entry has left its queue
  (`BookRuns.TurnedAwayExactlyWhen`; example: `BookRuns.CancelledIdExample`). The id of a filled
  order is free at once (`BookRuns.FilledIdIsFree`).

## Model

| member | source | states |
|---|---|---|
| OrderBook.Orderbook.AddOrder | get_cracked/coding/orderbook.cpp:75-88 | any submission returns the reference book's trades and leaves the lazy book standing for the reference book's result; known ids, cancelled ones included, are refused; matching rounds are paid for by entries that leave the queues |
| OrderBook.Orderbook.CancelOrder | get_cracked/coding/orderbook.cpp:90-94 | marking the metadata equals removing the order from the reference book and refusing its id from then on |
| OrderBook.Orderbook.Match | get_cracked/coding/orderbook.cpp:97-153 | from a valid book with one order just pushed, matching terminates, restores validity (no empty level, best bid below best ask, unique ids with metadata) and yields the reference book's addition |
| OrderBook.Orderbook.MatchLevels | get_cracked/coding/orderbook.cpp:106-147 | the inner loop keeps the matching invariant, empties one of the two queues and removes at least one queued entry a round |
| OrderBook.Orderbook.TradeFronts | get_cracked/coding/orderbook.cpp:118-146 | neither fill throws; the smaller quantity trades at the earlier order's price, the later order is the aggressor, and exactly the filled orders leave queue and table |
| OrderBook.PushIsInsert | get_cracked/coding/orderbook.cpp:78-85 | appending to the level's queue is, seen without cancelled entries, insertion behind every order at the same or a better price |
| OrderBook.PushEntries | get_cracked/coding/orderbook.cpp:78-81 | one submission adds one queued entry |
| OrderBook.DropCancelled | get_cracked/coding/orderbook.cpp:109-116 | dropping a cancelled front order changes nothing the book stands for and shortens the queue |
| OrderBook.TradeAhead | get_cracked/coding/orderbook.cpp:118-137 | one trade at the fronts is exactly one step of the reference execution |
| OrderBook.OneTrade | get_cracked/coding/orderbook.cpp:118-146 | a trade keeps the whole matching invariant: order, ids, metadata, and the result still to come |
| OrderBook.CancelIsRemoval | get_cracked/coding/orderbook.cpp:90-94 | setting the flag keeps the raw book valid and is the reference cancellation, also when repeated |
| OrderBook.KnownIds | get_cracked/coding/orderbook.cpp:76 | the table contains an id if and only if its order is open or was cancelled |
| OrderBook.LaterClock | get_cracked/coding/orderbook.cpp:164 | another book drawing from the static counter leaves this book valid and unchanged |
| OrderBook.Finish | get_cracked/coding/orderbook.cpp:100-104 | when the outer loop stops, the book is valid and is the reference result |
| BookRuns.Replay | get_cracked/coding/orderbook.cpp:75-153 | over every run of submissions and cancellations the lazy book's trades equal the reference tape call by call; the raw book, cancelled entries included, is uncrossed without empty levels; all matching rounds together with the entries still queued are at most the submissions accepted |
| BookRuns.MatchingExample | get_cracked/coding/orderbook.cpp:75-153 | two sales at 100 and a purchase at 101: the older sale trades whole, the newer in part, both at 100, and the rest stays in the book |
| BookRuns.RunsAreWellFormed | get_cracked/coding/orderbook.cpp:75-153 | after every run both sides are in strict price-time order, uncrossed, each id in one place, none of them refused |
| BookRuns.RefusedExactlyWhen | get_cracked/coding/orderbook.cpp:76-94 | after every run the refused ids are those that some earlier call withdrew while open, and no others |
| BookRuns.TurnedAwayExactlyWhen | get_cracked/coding/orderbook.cpp:76 | a submission changes nothing and trades nothing if and only if its id is open or was withdrawn while open |
| BookRuns.RefusedForever | get_cracked/coding/orderbook.cpp:76-94 | an id withdrawn while open is turned away after every continuation of the run |
| BookRuns.CancelledIdExample | get_cracked/coding/orderbook.cpp:76-94 | submitted, cancelled, submitted again: the book is empty and the second submission is turned away |
| BookRuns.FilledIdIsFree | get_cracked/coding/orderbook.cpp:139-146 | the id of an order that a call filled, incoming or resting, is unknown after that call |
| BookRuns.ExecuteTakesPrefix | get_cracked/coding/orderbook.cpp:97-153 | the trades of a call take a prefix of the opposite side in order, all but the last one whole, and stop exactly when the order is filled or nothing crosses |
| BookRuns.TermsOfTrade | get_cracked/coding/orderbook.cpp:121-137 | every trade of a call has the incoming order as aggressor, a resting order of the other side at its own price, and a price within both limits |
| BookRuns.PriceTimePriority | get_cracked/coding/orderbook.cpp:102-136 | after any run, trades go from best to worse and oldest to newest, and every resting order ahead of a traded one was filled before it in the same call |
| BookRuns.Conservation | get_cracked/coding/orderbook.cpp:75-153 | for any choice of orders, after every run: quantity accepted = traded + still open + withdrawn |
| BookRuns.BoughtEqualsSold | get_cracked/coding/orderbook.cpp:123-137 | after every run total bought equals total sold |
| BookRuns.PositiveQuantities | get_cracked/coding/orderbook.cpp:123-145 | with positive submissions every open quantity and every trade size stays positive |
| SharedPointer.EveryInterleaving | get_cracked/cpp/memory_and_pointers/shared_ptr.cpp:20-107 | the counting, locking, ownership and handle invariant holds after every interleaving of every program, handles passing between threads from call to call |
| SharedPointer.StepKeeps | get_cracked/cpp/memory_and_pointers/shared_ptr.cpp:77-107 | each atomic step of each thread, and the beginning of each member function, keeps that invariant |
| SharedPointer.NeverFaults | get_cracked/cpp/memory_and_pointers/shared_ptr.cpp:77-107 | no step touches a deleted block, counts below zero, deletes twice or destroys a held mutex |
| SharedPointer.HandedAround | get_cracked/cpp/memory_and_pointers/shared_ptr.cpp:21-54 | one thread makes a handle, a second copies it, a third destroys the first: the copy keeps the object, with count 1 |
| SharedPointer.CountMeaning | get_cracked/cpp/memory_and_pointers/shared_ptr.cpp:77-101 | for every block the count is its handles plus releases not yet decremented minus copies not yet incremented plus releases that skipped the count; none are skipped on a block made from a non-null pointer |
| SharedPointer.DeletedLastAndOnce | get_cracked/cpp/memory_and_pointers/shared_ptr.cpp:83-92 | object and block are deleted at most once, the block not before the object, and only with count zero and no handle, copy or release left |
| SharedPointer.OnlyTheReaperDeletes | get_cracked/cpp/memory_and_pointers/shared_ptr.cpp:83-92 | an action deletes an object or block only if it is a step of the thread whose release reached zero, the count being zero; and a thread becomes that one exactly by the decrement from one |
| SharedPointer.DeletedExactlyWhen | get_cracked/cpp/memory_and_pointers/shared_ptr.cpp:77-93 | once no handle is on a block and no thread is at work on it, whatever threads do elsewhere, both are deleted if and only if it was made from a non-null pointer |
| SharedPointer.NullBlockLeaks | get_cracked/cpp/memory_and_pointers/shared_ptr.cpp:77-93 | make a handle from a null pointer and destroy it: everything is idle, and the block remains with count 1 |
| SharedPointer.CopiesAreHeld | get_cracked/cpp/memory_and_pointers/shared_ptr.cpp:95-102 | while copies await their increment, the block has strictly more handles than such copies |
| SharedPointer.ReferencedBlock | get_cracked/cpp/memory_and_pointers/shared_ptr.cpp:83-101 | a thread waiting for or holding a block's lock to work on the count finds it alive with a positive count |
| SharedPointer.SomeThreadMoves | get_cracked/cpp/memory_and_pointers/shared_ptr.cpp:65-102 | no deadlock: while a thread is inside a member function, some thread's step changes the state |
| SharedPointer.StepWorks | get_cracked/cpp/memory_and_pointers/shared_ptr.cpp:65-102 | each step that changes the state lowers the work left to its thread and leaves the other threads' alone |
| SharedPointer.StepsBounded | get_cracked/cpp/memory_and_pointers/shared_ptr.cpp:65-102 | in every run a thread takes at most six state-changing steps for each task it began |
| SharedPointer.EveryCallEnds | get_cracked/cpp/memory_and_pointers/shared_ptr.cpp:65-102 | from every reachable state, scheduling only threads that can move brings every call to its end |
| SharedPointer.CountRead | get_cracked/cpp/memory_and_pointers/shared_ptr.cpp:65-70 | the value read is positive and is exactly the references counted at that moment, skipped releases included |
| SharedPointer.CallFits | get_cracked/cpp/memory_and_pointers/shared_ptr.cpp:20-63 | every member function overwrites only handles that are null by then, whatever it started from |
| SharedPointer.TasksKeepPromise | get_cracked/cpp/memory_and_pointers/shared_ptr.cpp:20-63 | the exchanges and swaps of each member function compose to its documented effect, self-assignment included |
| SharedPointer.FinishedCall | get_cracked/cpp/memory_and_pointers/shared_ptr.cpp:20-63 | whatever other threads do meanwhile, at its last step a call leaves in its handles what it promises: copied, moved, null, or a new block of its own |
| SharedPointer.PromiseLasts | get_cracked/cpp/memory_and_pointers/shared_ptr.cpp:20-63 | and each handle keeps that through any further run until a member function that changes it begins |
| SharedPointer.Undisturbed | get_cracked/cpp/memory_and_pointers/shared_ptr.cpp:20-63 | a handle that no member function in progress changes stays the same until one that changes it begins |
| SharedPointerCalls.CopyAssigned | get_cracked/cpp/memory_and_pointers/shared_ptr.cpp:35-42 | after a copy assignment, run to its end under any interleaving, both handles are where the source was and the temporary is null, also for self-assignment |
| SharedPointerCalls.MoveAssigned | get_cracked/cpp/memory_and_pointers/shared_ptr.cpp:46-52 | after a move assignment the destination is where the source was and the source is null; to itself it changes nothing |
| SharedPointerCalls.CopyConstructed | get_cracked/cpp/memory_and_pointers/shared_ptr.cpp:30-33 | a constructed copy is where its source is |
| SharedPointerCalls.MoveConstructed | get_cracked/cpp/memory_and_pointers/shared_ptr.cpp:44 | a move-constructed handle is where its source was, and the source is null |
| SharedPointerCalls.ResetDone | get_cracked/cpp/memory_and_pointers/shared_ptr.cpp:56-63 | reset with a pointer puts the handle on a block that did not exist before; reset with null makes it null |
| SharedPointerCalls.Constructed | get_cracked/cpp/memory_and_pointers/shared_ptr.cpp:21-28 | a constructed handle is on a block that did not exist before |
| SharedPointerCalls.Destroyed | get_cracked/cpp/memory_and_pointers/shared_ptr.cpp:54 | a destroyed handle is null |
| SharedPointerCalls.CountReturned | get_cracked/cpp/memory_and_pointers/shared_ptr.cpp:65-70 | under any interleaving `get_count` returns 0 on a handle without a block, and otherwise the positive count of the handle's block, every reference counted, at some moment within the call |
| SharedPointerCalls.CountOfOne | get_cracked/cpp/memory_and_pointers/shared_ptr.cpp:65-70 | a handle alone on its object reads 1 |
| SharedPointerCalls.CanComplete | get_cracked/cpp/memory_and_pointers/shared_ptr.cpp:20-107 | from every reachable state, a call that may begin can be run to its end |
| SharedPointerCalls.CallsBegin | get_cracked/cpp/memory_and_pointers/shared_ptr.cpp:20-63 | with nobody inside a member function every member function may begin, on new names for what it constructs |
| SharedPointerCalls.SharedReads | get_cracked/cpp/memory_and_pointers/shared_ptr.cpp:30-70 | while one thread copies a handle others may copy it or read its count, but not move or destroy it |
| SegmentTree.Replay | get_cracked/coding/segment_tree.cpp:17-58 | a tree made for any size, after any sequence of insertions, updates and growths: a query is the left-to-right fold of the plain sequence, refused exactly outside its range |
| SegmentTree.PlainStep | get_cracked/coding/segment_tree.cpp:29-58 | one more operation on the plain sequence: an insertion or update sets one reading and no other, growth doubles the length with the identity behind |
| SegmentTree.FoldStep | get_cracked/coding/segment_tree.cpp:81-88 | a fold starts from the identity and takes the readings from left to right |
| SegmentTree.NodesAreCounted | get_cracked/coding/segment_tree.cpp:63-64 | a tree has as many node objects as its value has branches |
| SegmentTree.SegmentTree.Create | get_cracked/coding/segment_tree.cpp:17-22 | a tree is made exactly for positive sizes, without nodes, reading as the identity everywhere |
| SegmentTree.SegmentTree.Insert | get_cracked/coding/segment_tree.cpp:29-33 | replaces one reading, exactly for indices in range, with at most Height(size) + 1 new nodes |
| SegmentTree.SegmentTree.InsertAt | get_cracked/coding/segment_tree.cpp:63-78 | the recursive insertion into a linked node, fresh where absent, equals the insertion on tree values and stays within its own nodes |
| SegmentTree.SegmentTree.InsertBelow | get_cracked/coding/segment_tree.cpp:71-77 | descends into the half that holds the index and recombines the children's values |
| SegmentTree.SegmentTree.InsertLeft | get_cracked/coding/segment_tree.cpp:72-73 | the left child becomes the insertion into it, the right one stays, and the nodes stay disjoint |
| SegmentTree.SegmentTree.InsertRight | get_cracked/coding/segment_tree.cpp:74-75 | likewise on the right |
| SegmentTree.SegmentTree.Update | get_cracked/coding/segment_tree.cpp:35 | an update replaces one reading like an insertion |
| SegmentTree.SegmentTree.Query | get_cracked/coding/segment_tree.cpp:37-41 | for any associative operation with identity, the left-to-right fold of the readings in the range, exactly for valid ranges, in at most 4 Height(size) + 1 calls |
| SegmentTree.SegmentTree.QueryAt | get_cracked/coding/segment_tree.cpp:80-89 | the recursion over linked nodes computes the answer on tree values with the counted number of calls |
| SegmentTree.SegmentTree.Grow | get_cracked/coding/segment_tree.cpp:43-58 | doubles the range, keeps every reading, reads as the identity in the new half; refused exactly above half of the int range |
| SegmentTree.QueryIsFold | get_cracked/coding/segment_tree.cpp:80-89 | the recursive answer is the ordered fold of the readings inside the range, for every node range, commutative or not |
| SegmentTree.QuerySlice | get_cracked/coding/segment_tree.cpp:37-41 | at the root it is the fold of the slice l..r |
| SegmentTree.InsertReplaces | get_cracked/coding/segment_tree.cpp:63-78 | insertion on tree values replaces exactly one reading and leaves every inner value the combination of its children |
| SegmentTree.GrowDoubles | get_cracked/coding/segment_tree.cpp:48-57 | the old tree becomes the left half because the new midpoint is the old right end |
| SegmentTree.ValueIsFold | get_cracked/coding/segment_tree.cpp:77-91 | a node's stored value is the fold of everything below it, absent nodes counting as the identity |
| SegmentTree.InsertAllocates | get_cracked/coding/segment_tree.cpp:63-78 | one insertion adds at most one node a level |
| SegmentTree.QueryCallsBound | get_cracked/coding/segment_tree.cpp:80-89 | one query makes at most 4h + 1 calls |
| SegmentTree.CallsAddUp | get_cracked/coding/segment_tree.cpp:80-88 | a call that is not answered at once makes both recursive calls |
| SegmentTree.OneSidedCalls | get_cracked/coding/segment_tree.cpp:80-89 | a prefix or suffix of a node's range costs at most 2h + 1 calls |
| SegmentTree.HeightIsLog | get_cracked/coding/segment_tree.cpp:71 | h is the least number with n <= 2^h |
| KacRing.Ring.constructor | get_cracked/coding/kac_ring.cpp:7-31 | builds the table of the first 2N averages for exactly the listed marks, duplicates allowed, with no steps made |
| KacRing.BuildTable | get_cracked/coding/kac_ring.cpp:13-30 | entry t is the average of the ball-by-ball simulation after t steps |
| KacRing.AverageTimes | get_cracked/coding/kac_ring.cpp:17 | N times the average is the sum of the balls |
| KacRing.ColourRange | get_cracked/coding/kac_ring.cpp:13-17 | the average lies between -1 and 1; it is 1 at the start and without marks |
| KacRing.OneStep | get_cracked/coding/kac_ring.cpp:13-26 | all balls start white, and each step moves every ball one place on, turning it if it leaves a marked place |
| KacRing.Advance | get_cracked/coding/kac_ring.cpp:19-28 | one pass of the inner loop is one simulated step, and its running total is the sum of the new colours |
| KacRing.Ring.Step | get_cracked/coding/kac_ring.cpp:33 | counts one step |
| KacRing.Ring.KStep | get_cracked/coding/kac_ring.cpp:35 | for every 64-bit k the counter is the wrapped unsigned sum modulo the period; for k >= 0 nothing wraps and k steps are counted, otherwise the colour is the one at the counter |
| KacRing.Ring.Color | get_cracked/coding/kac_ring.cpp:37 | after any mix of steps N times the colour is the sum of the balls of a direct simulation of all of them; it lies between -1 and 1, and is 1 at the start and on a ring without marks |
| KacRing.AfterSteps | get_cracked/coding/kac_ring.cpp:20-26 | s steps carry a ball s places on, with the signs of the places it leaves |
| KacRing.LapParity | get_cracked/coding/kac_ring.cpp:20-26 | the signs of a whole lap multiply to (-1)^m for m marked places |
| KacRing.OneLap | get_cracked/coding/kac_ring.cpp:20-26 | N steps multiply every ball by (-1)^m |
| KacRing.TwoLaps | get_cracked/coding/kac_ring.cpp:8 | 2N steps restore the ring |
| KacRing.TableSuffices | get_cracked/coding/kac_ring.cpp:33-37 | the arrangement after t steps is the one after t mod 2N |
| KacRing.BackwardExactlyWhen | get_cracked/coding/kac_ring.cpp:35-37 | for every N, counter and signed k, the colour shown is that of the mathematical step on every ring of N places if and only if the sum is not negative, or 2N divides 2^64, or the two entries mirror each other |
| KacRing.CounterExactlyWhen | get_cracked/coding/kac_ring.cpp:35 | the counter itself is the mathematical remainder if and only if the sum is not negative or the period divides 2^64 |
| KacRing.SameColourExactlyWhen | get_cracked/coding/kac_ring.cpp:13-37 | two table entries agree on every ring of N places if and only if they are the same or add up to 2N |
| KacRing.Mirror | get_cracked/coding/kac_ring.cpp:13-30 | entries t and 2N - t of the table are equal on every ring |
| KacRing.OneMarkSum | get_cracked/coding/kac_ring.cpp:16-28 | with one mark the colours sum to N - 2t over the first lap and rise again over the second |
| KacRing.BackwardExample | get_cracked/coding/kac_ring.cpp:35-37 | on three places with one mark, one step back from the start shows -1 instead of 1/3 |
| KacRing.MirrorExample | get_cracked/coding/kac_ring.cpp:35-37 | on three places, five steps back reach entry 5 instead of 1 and show the right colour on every ring |
| Vectors.Vector.constructor | get_cracked/coding/vector.cpp:31-35 | an empty vector of capacity one |
| Vectors.Vector.Copy | get_cracked/coding/vector.cpp:37-39 | a copy has equal contents in its own buffer, leaves the other unchanged and adds its elements to the lifetime count |
| Vectors.Vector.Assign | get_cracked/coding/vector.cpp:41-47 | the destination equals the other's contents if and only if it is initialised or there is nothing to copy; self-assignment and a moved-from destination change nothing, otherwise the old elements are destroyed |
| Vectors.Vector.Move | get_cracked/coding/vector.cpp:49-51 | takes over the buffer without touching an element and leaves the other empty |
| Vectors.Vector.MoveAssign | get_cracked/coding/vector.cpp:53-61 | under the same condition the contents arrive, by taking over the buffer; self-move and a moved-from destination change neither vector |
| Vectors.Vector.Destroy | get_cracked/coding/vector.cpp:63-67 | destroys exactly the elements, none if moved from |
| Vectors.Vector.PushBack | get_cracked/coding/vector.cpp:69-78 | appends the value the reference had before the call, even one of the vector's own slots that growth relocates; a full vector of size n grows to 2n, or to 1 from nothing, relocating its n elements, and any other keeps buffer and capacity; one more element alive |
| Vectors.Vector.At | get_cracked/coding/vector.cpp:80-83 | the element of the plain sequence, or the range error exactly past the end |
| Vectors.Vector.Clear | get_cracked/coding/vector.cpp:95-98 | empties the vector, destroying exactly its elements and keeping the buffer |
| Vectors.Vector.PopBack | get_cracked/coding/vector.cpp:100-104 | drops the last element, refused exactly when empty |
| Vectors.Vector.Reserve | get_cracked/coding/vector.cpp:106-134 | contents and lifetimes stay, capacity grows to the request or stays, each element is relocated once or not at all |
| Vectors.Vector.CopyFrom | get_cracked/coding/vector.cpp:138-159 | destroys what is there and constructs the other's elements in a buffer of exactly their number |
| Vectors.Vector.StealFrom | get_cracked/coding/vector.cpp:161-165 | exchanges the pointers: contents move, the other is uninitialised |
| Vectors.Replay | get_cracked/coding/vector.cpp:69-104 | any mix of insertions, own-element insertions and removals on a fresh vector acts as on a plain sequence, keeps exactly its elements alive and relocates at most two elements an insertion |
| Vectors.PlainStep | get_cracked/coding/vector.cpp:69-104 | one more operation on the plain sequence: what is appended, which appends are refused, what a removal leaves |
| Vectors.PushesStep | get_cracked/coding/vector.cpp:69-78 | an insertion is an operation after which the plain sequence is longer |
| VectorRuns.ReplayAll | get_cracked/coding/vector.cpp:31-165 | any run on any number of vectors, with copies, moves, both assignments, destructions and pushes of other vectors' elements, moved-from vectors included, acts as on plain sequences, capacities included; the elements alive are the sum of the sizes, none is left once all are destroyed, and relocations stay within the bill |
| VectorRuns.AmortisedRun | get_cracked/coding/vector.cpp:69-159 | over every such run growth relocates at most two elements an insertion, and one for each element copied or in a vector told to grow |
| VectorRuns.CapacityBound | get_cracked/coding/vector.cpp:31-159 | over every such run no capacity exceeds 1, twice the largest size any vector had, or the largest reserve |
| VectorRuns.ActionsInPlainTerms | get_cracked/coding/vector.cpp:31-159 | what each action leaves of the contents of the vectors it names |
| VectorRuns.AssignmentsInPlainTerms | get_cracked/coding/vector.cpp:41-61 | likewise for both assignments, moved-from destinations and self-assignment included |
| VectorRuns.OthersUntouched | get_cracked/coding/vector.cpp:31-159 | an action leaves every vector it does not name as it is |
| VectorRuns.BillInPlainTerms | get_cracked/coding/vector.cpp:69-159 | an action pays for an insertion when a vector grew by one, for the elements it copied, or for those of a vector told to grow |
| VectorRuns.PossibleExactlyWhen | get_cracked/coding/vector.cpp:31-159 | an action is possible if and only if the vectors and the element it names exist |
| VectorRuns.ActionPays | get_cracked/coding/vector.cpp:69-159 | each action's relocations are covered by what it pays and by what the vectors have saved |
| VectorRuns.ActDestroy | get_cracked/coding/vector.cpp:63-67 | destroying a vector in the middle of a run changes no other vector and removes its elements from the count |
| VectorRuns.ActAssign | get_cracked/coding/vector.cpp:41-47 | an assignment changes no third vector and keeps the balance of elements |
| VectorRuns.ActMoveAssign | get_cracked/coding/vector.cpp:53-61 | a move assignment likewise |
| VectorRuns.ActPushFrom | get_cracked/coding/vector.cpp:69-78 | so does pushing an element of any vector, itself included |
| VectorRuns.LostAssignment | get_cracked/coding/vector.cpp:41-47 | push 7, move the vector away, assign it back: it stays empty |
| Vectors.AmortisedGrowth | get_cracked/coding/vector.cpp:69-78 | m insertions mixed with removals relocate at most 2m elements in total |
| Vectors.EveryRunPays | get_cracked/coding/vector.cpp:69-104 | after every run exactly capacity - 1 elements have been relocated, and the capacity is one or at most 2(m - 1) |
| BusiestServers.BusiestServers | leetcode/hard/1606.cpp:4-46 | every request goes to the server the naive cyclic scan picks, or is dropped when that finds none; the output lists, once each, exactly the servers with most requests |
| BusiestServers.RequestGoesTo | leetcode/hard/1606.cpp:11-29 | request i goes to the first server from i mod k on, round the ring, all of whose earlier requests have ended; it is dropped if and only if every server has one that has not |
| BusiestServers.BackToBack | leetcode/hard/1606.cpp:13 | a server whose request ends just when the next one arrives takes that one too |
| BusiestServers.BusiestMeans | leetcode/hard/1606.cpp:31-43 | the busiest servers are those for which no server has more requests, counted over the whole run |
| BusiestServers.FreeServers | leetcode/hard/1606.cpp:13-17 | popping finished servers keeps idle set and heap a partition and makes the idle set exactly the free servers |
| BusiestServers.NextServer | leetcode/hard/1606.cpp:22-24 | the least idle server from i mod k on, or the least of all |
| BusiestServers.LowerBoundIsScan | leetcode/hard/1606.cpp:22-24 | that server is the first free one met round the ring |
| BusiestServers.PopServer | leetcode/hard/1606.cpp:14-16 | moving a finished server from heap to set keeps the partition |
| BusiestServers.PushServer | leetcode/hard/1606.cpp:27-28 | moving a chosen server from set to heap keeps the partition |
| BusiestServers.AllPopped | leetcode/hard/1606.cpp:13-20 | with nothing finished left on the heap, a server is idle if and only if it is free |
| BusiestServers.Serve | leetcode/hard/1606.cpp:26-28 | a served request keeps simulation, counts and naive log in step |
| BusiestServers.Refuse | leetcode/hard/1606.cpp:19-20 | a dropped request does so too |
| BusiestServers.MostCounted | leetcode/hard/1606.cpp:31-43 | draining the count heap while the count is equal lists exactly the keys with the largest count, each once |
| BusiestServers.CountsAreTaken | leetcode/hard/1606.cpp:26-43 | largest among the counted servers means largest among all k |
| MergeKLists.MergeKLists | leetcode/hard/23.cpp:23-54 | disjoint acyclic sorted lists become one sorted null-terminated list of exactly the original nodes, by relinking only |
| MergeKLists.LoadHeap | leetcode/hard/23.cpp:26-33 | one heap element per non-empty list, the list variables one node further, heap size plus finished lists the number of lists |
| MergeKLists.TakeNode | leetcode/hard/23.cpp:38-51 | one iteration links the least front node, refills from its list and keeps the merging invariant |
| MergeKLists.LinkNext | leetcode/hard/23.cpp:42-43 | linking the least front node keeps the merged prefix linked and sorted, the other chains intact and every node accounted for |
| MergeKLists.Refill | leetcode/hard/23.cpp:45-50 | the popped list hands its next node to the heap or counts as finished, and no link changes |
| MergeKLists.LinkBehind | leetcode/hard/23.cpp:42-43 | linking behind the current node leaves every chain still to come intact |
| MergeKLists.TakeFronts | leetcode/hard/23.cpp:45-50 | heap and list variables stay one ahead of each other, and the size equation holds |
| MergeKLists.TakeOrdered | leetcode/hard/23.cpp:38-43 | the node with the least value extends a sorted prefix that is not above anything to come |
| MergeKLists.TakeBag | leetcode/hard/23.cpp:39-43 | no node is lost or doubled |
| MergeKLists.Separate | leetcode/hard/23.cpp:42 | the node whose link is rewritten is in no chain still to come |
| MergeKLists.AllDone | leetcode/hard/23.cpp:38-53 | with every list finished the merged path is the result: null-terminated, sorted, all nodes |
| MaxEvents.MaxEvents | leetcode/medium/1353.cpp:4-32 | the greedy count is attained by a plan with distinct days and no plan on days from 0 on visits more events |
| MaxEvents.SingleDayExample | leetcode/medium/1353.cpp:18-30 | of two events on the same single day exactly one can be visited |
| MaxEvents.AttendFirstEnding | leetcode/medium/1353.cpp:26-29 | exchange: any plan can be turned into one that attends the first-ending open event today, losing at most that visit |
| MaxEvents.NothingLostAttending | leetcode/medium/1353.cpp:26-29 | attending it keeps every plan within reach |
| MaxEvents.NothingLostExpiring | leetcode/medium/1353.cpp:23-25 | so does dropping an event that is over |
| MaxEvents.NothingLostResting | leetcode/medium/1353.cpp:18-25 | and a day without any open event |
| MaxEvents.DayZeroSuffices | leetcode/medium/1353.cpp:18 | with no event starting before day 0, days from 0 on are all days a plan can use |
| MaxEvents.LoopEnds | leetcode/medium/1353.cpp:18-31 | past the last end the count is the maximum |
| MaximumGain.MaximumGain | leetcode/medium/1717.cpp:27-40 | for non-negative prices the best total over every sequence of "ab" and "ba" deletions; for all prices the greedy total |
| MaximumGain.PricesOfPairs | leetcode/medium/1717.cpp:31-39 | "ab" alone earns x and "ba" alone earns y, whatever the prices |
| MaximumGain.RemoveSubstring | leetcode/medium/1717.cpp:4-24 | the stack pass takes the greedy number of pairs, leaves none, and loses no other pair |
| MaximumGain.PlayBounds | leetcode/medium/1717.cpp:27-40 | every sequence of deletions is bounded in pairs altogether and in pairs of the favoured kind |
| MaximumGain.DeleteFavoured | leetcode/medium/1717.cpp:10-15 | deleting a favoured pair anywhere lowers both potentials by exactly one |
| MaximumGain.DeleteOther | leetcode/medium/1717.cpp:10-15 | deleting the other pair lowers the total by one and never raises the favoured count |
| MaximumGain.SecondPassTakesAll | leetcode/medium/1717.cpp:33-38 | once no favoured pair is left the second pass takes every pair that remains |
| MaximumGain.ExhaustPair | leetcode/medium/1717.cpp:9-21 | repeated deletion of a pair in place reaches the stack pass's count and leaves none |
| MaximumGain.NoPlayBeatsGreedy | leetcode/medium/1717.cpp:31-39 | for non-negative prices no sequence of deletions earns more |
| MaximumGain.GreedyIsBest | leetcode/medium/1717.cpp:31-39 | and some sequence earns just that |
| MaximumGain.BetterPlay | leetcode/medium/1717.cpp:31-39 | with a negative price and a second pass that does something, a sequence that earns more |
| MaximumGain.GreedyIsBestExactlyWhen | leetcode/medium/1717.cpp:31-39 | for all prices: best if and only if neither is negative, or the negative pass has nothing to take |
| MaximumGain.GreedyIsBestInLetters | leetcode/medium/1717.cpp:31-39 | the same read off the input: no price negative, or no pair anywhere, or one price not negative and no stretch of a's and b's with a prefix tilted against the favoured pair and a suffix tilted for it |
| MaximumGain.IdleMeans | leetcode/medium/1717.cpp:32-38 | after deleting favoured pairs in any order until none is left, the second pass is idle if and only if no other pair is left |
| MaximumGain.NothingToDelete | leetcode/medium/1717.cpp:10-15 | no pair can leave the string if and only if neither "ab" nor "ba" occurs in it |
| MaximumGain.NegativeExample | leetcode/medium/1717.cpp:31-39 | on "ab" at price -1 the code earns -1 and doing nothing earns more |
| MaximumGain.GainBounded | leetcode/medium/1717.cpp:27-40 | for non-negative prices twice the gain is at most the string's length times the larger price, which tells when it fits an int |
| MaxFreeTime.MaxFreeTime | leetcode/medium/3440.cpp:4-38 | the longest stretch that moving at most one meeting anywhere can free, if and only if there is a meeting or no time at all |
| MaxFreeTime.ExactFitExample | leetcode/medium/3440.cpp:9-20 | a meeting moves into a gap of exactly its length, which frees 7 of 10 |
| MaxFreeTime.MarkLeft | leetcode/medium/3440.cpp:5-14 | the first pass marks exactly the meetings that fit into a gap further left |
| MaxFreeTime.MarkRight | leetcode/medium/3440.cpp:16-24 | after the second pass exactly those are marked that fit into a gap they do not border |
| MaxFreeTime.Combine | leetcode/medium/3440.cpp:26-36 | the last pass returns the largest combined value |
| MaxFreeTime.NoMoveBeats | leetcode/medium/3440.cpp:26-36 | no legal move, order changes allowed, frees more than the best of the combined values |
| MaxFreeTime.AroundAttained | leetcode/medium/3440.cpp:31-34 | each combined value is attained by a legal move |
| MaxFreeTime.LocateGap | leetcode/medium/3440.cpp:28-31 | a stretch that avoids all meetings but one lies between neighbours of the others |
| MaxFreeTime.FitsEitherSide | leetcode/medium/3440.cpp:9-20 | fitting a gap not next to the meeting is fitting one left or one right of it |
| MaxFreeTime.BestExactlyWhen | leetcode/medium/3440.cpp:26-37 | the maximum of the combined values is the best if and only if there is a meeting or no time |
| MaxFreeTime.NoMeetingExample | leetcode/medium/3440.cpp:26-37 | one unit of time and no meeting: 0 is not the best |
| MeetingRooms.MinMeetingRooms | leetcode/medium/253.cpp:4-22 | for start <= end the heap size is attained by an assignment without double bookings; it is the least number if and only if sorting left no late start, surely if there is no tie at a peak; with start < end it is the least number and the largest overlap |
| MeetingRooms.TouchingExample | leetcode/medium/253.cpp:15-19 | meetings 0..5 and 5..10 need one room |
| MeetingRooms.OverlappingExample | leetcode/medium/253.cpp:15-19 | meetings 0..5 and 4..10 need two |
| MeetingRooms.DemandBounds | leetcode/medium/253.cpp:15-21 | any assignment has at least as many rooms as some instant needs, meetings of no length included |
| MeetingRooms.OwnRooms | leetcode/medium/253.cpp:15-21 | meetings of which no two can share a room are in distinct rooms |
| MeetingRooms.DemandPermuted | leetcode/medium/253.cpp:5-9 | sorting changes no instant's need |
| MeetingRooms.OpenRoom | leetcode/medium/253.cpp:13-19 | a new room is opened only when all others outlast the start, which makes a new peak |
| MeetingRooms.ReuseRoom | leetcode/medium/253.cpp:13-19 | a room free by the start is reused and the heap keeps each room's last end |
| MeetingRooms.StillRooms | leetcode/medium/253.cpp:13-19 | all earlier meetings that outlast a start, and the one starting, are in different rooms |
| MeetingRooms.BestPlan | leetcode/medium/253.cpp:4-22 | some assignment has no more rooms than some instant needs |
| MeetingRooms.AllAssigned | leetcode/medium/253.cpp:21 | a complete assignment is a least one if and only if no start is late |
| MeetingRooms.LateStartNeedsTie | leetcode/medium/253.cpp:5-9 | a sorted order with a late start has a meeting of no length starting with a longer one at a peak |
| MeetingRooms.TieMakesLateStart | leetcode/medium/253.cpp:5-9 | and with such a tie some sorted order has a late start |
| MeetingRooms.LateStartExample | leetcode/medium/253.cpp:15-19 | 5..7 before 5..5 is such an order |
| CountPalindromes.CountPalindromes | leetcode/hard/2484.cpp:4-53 | for a string of digits in which no two characters occur 2^31 times one behind the other, the number, mod 1000000007, of positions i < j < k < l < m with equal characters at i and m and at j and l, computed without leaving 32 or 64 bits |
| CountPalindromes.StringFits | leetcode/hard/2484.cpp:18-35 | a string keeps all cells in 32 bits if and only if no two characters occur 2^31 times one behind the other |
| CountPalindromes.TuplesOfString | leetcode/hard/2484.cpp:14-48 | tuples of equal characters are tuples of equal digit values |
| CountPalindromes.DigitValues | leetcode/hard/2484.cpp:14 | a character has digit value d if and only if it is that digit |
| CountPalindromes.ResidueMeans | leetcode/hard/2484.cpp:43-49 | the running sum is the remainder modulo 1000000007 |
| CountPalindromes.PrefixTable | leetcode/hard/2484.cpp:13-25 | cell i, j, k counts the pairs j, k of digits up to position i |
| CountPalindromes.SuffixTable | leetcode/hard/2484.cpp:27-40 | cell i, j, k counts the pairs k, j of digits from position i on |
| CountPalindromes.PrefixRow | leetcode/hard/2484.cpp:16-22 | one row from the row before, other rows untouched, no overflow |
| CountPalindromes.SuffixRow | leetcode/hard/2484.cpp:31-37 | one row from the row after, likewise |
| CountPalindromes.AddTerm | leetcode/hard/2484.cpp:48-49 | the 64-bit product reduced and added in 32 bits keeps the residue |
| CountPalindromes.AddMiddle | leetcode/hard/2484.cpp:46-50 | the hundred products around a middle add the tuples with that middle |
| CountPalindromes.SumsCountPalindromes | leetcode/hard/2484.cpp:44-51 | the exact double sum is the cardinality of the set of tuples |
| CountPalindromes.BeforeCounts | leetcode/hard/2484.cpp:13-25 | the prefix recurrence counts exactly the pairs of positions |
| CountPalindromes.FromCounts | leetcode/hard/2484.cpp:28-40 | so does the suffix recurrence |
| CountPalindromes.AtCounts | leetcode/hard/2484.cpp:46-50 | the products around one middle count its tuples |
| CountPalindromes.EndsAddNothing | leetcode/hard/2484.cpp:44 | the first and last position, which the loop skips, are the middle of no tuple |
| CountPalindromes.ShortStringsFit | leetcode/hard/2484.cpp:18-35 | up to 65536 digits every cell fits 32 bits |
| CountPalindromes.CellsFitByPairs | leetcode/hard/2484.cpp:18-35 | a string keeps all cells in 32 bits if and only if no pair of digits occurs 2^31 times or more |
| CountPalindromes.FromIsBefore | leetcode/hard/2484.cpp:13-40 | both tables count the same pairs of the whole string |
| CountPalindromes.CellsFitExactlyWhen | leetcode/hard/2484.cpp:18-35 | every string of length n keeps all cells in 32 bits if and only if n <= 65536 |

## Left out

- OrderBook.Orderbook.AddOrder: prices, quantities and ids are unbounded integers, so the 32-bit quantity, the 64-bit price and a wrap of the 64-bit arrival counter are not modelled; the ordered maps are sequences of levels with the best price first, not trees. References into a queue are values that are written back to its front.
- OrderBook.Orderbook.TradeFronts: the trade is stated for distinct arrival numbers, which every valid book has.
- SharedPointer.EveryInterleaving: the handles and blocks are values in a step system instead of objects with methods, since threads interleave inside the methods. No handle is written by one thread while another is inside a member function that uses it; the model takes this as the caller's duty, and each raw pointer is given to one block only. Overflow of the count, memory ordering below the mutex, failing allocation of a control block (lines 22-27), dereferencing, and objects whose destructors use shared pointers are not modelled.
- SharedPointer.EveryCallEnds: some schedule ends every call and none goes on for ever; that an unfair lock may let one thread wait while others keep beginning calls is not excluded.
- SegmentTree.SegmentTree.Query: the operation is a pure function, and the vector constructor with `build` (lines 24-27 and 93-101) is absent, because its body names a missing field and returns nothing.
- KacRing.Ring.Color: averages are exact real numbers in place of doubles; N below 2^30, so that 2N fits an int.
- KacRing.Ring.KStep: after a negative jump `steps` is some step count that leads to the same table entry.
- Vectors.Vector.Assign: the old buffer, which lines 156-158 swap out and never free, and the freeing of buffers in general are not modelled.
- Vectors.Vector.PushBack: element copies do not throw, the sizes do not overflow, and moving an element is copying it and destroying the original. Vectors that share elements have one static lifetime counter.
- BusiestServers.BusiestServers: at least one request, arrivals not decreasing, and times that do not overflow an int. The order of the output, which depends on ties in the heap and on hash order, is left open.
- MergeKLists.MergeKLists: node values are constants, which the source never assigns; which of two equal values comes first is left open, as the heap leaves it.
- MaxEvents.MaxEvents: day numbers do not overflow; plans use days from 0 on, since the loop starts there.
- MaximumGain.MaximumGain: totals are unbounded; `MaximumGain.GainBounded` says when they fit an int. The unused local stack of lines 28-29 is left out.
- MaxFreeTime.MaxFreeTime: the meetings are in order, disjoint and inside the event, as the problem promises.
- MeetingRooms.MinMeetingRooms: at least one meeting, none ending before it starts.
- CountPalindromes.CountPalindromes: at least one digit character, fewer than 2^31, and cells that fit; the empty string makes the source's unsigned `size() - 1` wrap.
- `leetcode/stl_datastructures/lbo.cpp`: matches without comparing prices and edits copies, so there is no specification to hold it to.
- The remaining LeetCode files are left out.
- Sockets, design patterns, language demonstrations, timing code and notes: no algorithm to prove, or only input and output.
- Hash tables, allocators, the internals of the mutex and of heaps and balanced trees: taken by their contracts.
