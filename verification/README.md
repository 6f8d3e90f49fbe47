# Verified model of the matching engine

A Dafny model of a limit order book with price-time priority, the lock-free rings around it, the engine and
gateway that drive it, and the wire format in front of it, with proofs of what they guarantee. The model
follows the code as it is written, branch by branch and word by word, including the places where the code
does something other than its tests or comments say.

**The order book** exists twice. `Matcher` and `BookSpec` are the reference: two flat lists sorted by price and
time, matched from the front, with the id table, the free-slot stack and the counters as plain values.
`Book.OrderBook` is the book as it runs: a slab of order records addressed by slot number, two arrays of
price levels each holding an intrusive doubly linked list, an id table and two cached best prices, all updated
in place. Every operation of the class is proved to take the book exactly to the state, and to make exactly
the reports, that the reference says (`Pool`, `Levels`, `Ladder`, `BookStore` and `Sweep` carry that proof).
`BookInvariant`, `BookLaws`, `BookIdentities`, `BookAccounting`, `BookIndex`, `BookZero`,
`BestAsk` and `BoardRuns` prove the laws of the reference over all
inputs and all runs, and so of the class.

**The ring buffer** exists twice as well. `Spsc.SpscQueue` is the object one thread sees while the other is at
rest. `SpscProtocol` is a step system in which every atomic load, slot access and atomic store of the two
threads is its own step, the steps interleave freely, and a load of the other thread's index may return any
value of that index's modification order not older than the last one seen. A slot read is only promised the
bytes of a write that the reader has acquired; otherwise it may return anything. `RingMath` proves that
masking is modulo and that machine wrap-around is harmless.

**What the constants mean** is stated apart from the definitions that use them, with the bytes and numbers
written out: the action and side bytes (`Engine.HandleCases`), the wire layout (`Protocol.DecodedLayout`,
`Protocol.FrameLayout`), buyer and seller of a report (`Book.OrderBook.AddOrder`, `Replay.ReportParties`), the
machine words (`Types.WrapsModulo`) and the figures of a level (`Book.OrderBook.LevelFigures`).

**The pipeline** (`Pipeline`) runs gateway, engine and downstream reader at once over two such rings, and
proves every interleaving to be a sequential replay (`Replay`) of the messages consumed so far. `Engine` and
`Gateway` are the objects, and `Protocol` the 48-byte frame, down to its bytes.

Capacities and the number of ticks are parameters; prices are signed and quantities and ids unsigned 64-bit
words, and every addition or subtraction that the code lets wrap is written to wrap.

## Where the code and its tests or comments disagree

The model follows the code. In each case one result is a run on which the expectation fails, on a book or ring
of any size, and another is the exact condition under which the code meets it.

- `tests/test_order_book.cpp:85` expects a level total of 4 after a buy of 7 trades 3 and rests 4. `push_back`
  adds the whole quantity, so the total is 7 (`BookRuns.PartialFillOverstatesLevel`). An add keeps a level
  total exact if and only if nothing opposite crosses it or what crosses covers it (`AddKeepsTotalIff`); over a
  run the excess is the sum of what orders had already filled when they came to rest (`RunTotals`).
- `tests/test_order_book.cpp:70` (and line 141) expects filled orders to be gone from `order_count`. A filled
  aggressor is never given back to the pool (`BookRuns.FullFillKeepsSlot`). An add keeps a slot that way if and
  only if the crossable depth covers its quantity (`AddLeaks`); over a run the count is the resting orders plus
  one for each such add (`RunCounts`).
- The id table is indexed by id modulo its size and overwritten on every add, so an order can keep resting
  while its id finds nothing (`BookRuns.SharedCellLosesOrder`). An add keeps every resting order reachable if
  and only if the new id's cell leads to no resting order, or to one that it consumes while being filled
  outright (`AddKeepsIndexIff`); nothing else ever loses an order, over whole runs (`BookIndex.RunIndexedIff`).
- `include/order_book.hpp:75` says that a modification preserves time priority. Of two orders at one price, the
  first goes behind the second when its quantity grows (`BookRuns.IncreaseLosesPlace`). An order keeps its
  place if and only if its quantity does not grow or nothing rests behind it at its price
  (`ModifyKeepsPlaceIff`).
- A side byte other than Buy and Sell, which the decoder lets through, is treated as a sell everywhere except
  in `cancel_order` (`src/order_book.cpp:77`), which then does not look for a new best ask: an empty book can be
  left with a best ask (`Book.StrandedAsk`). The cached best bid is always exact. The cached best ask is exact
  after every message of a run that uses the bytes Buy and Sell only (`BoardRuns.OrdinaryExact`); whatever the
  bytes, it is exact throughout if and only if no cancel of the run takes an order with another byte that is the
  only one at the best ask (`BoardRuns.ExactThroughoutIff`). `BestAsk` says what each operation does to it, and
  when it is exact again. In every state it is a bound that does not cross the best bid, and matching is right
  all the same: the branch of the matching loop for an empty best level is taken, once, exactly by a buy that
  reaches a best ask that is not exact (`Book.OrderBook.MatchIncoming`).
- `modify_order(id, 0)` leaves an order resting with nothing remaining, and an aggressor that consumes it makes a
  trade and a report of quantity zero (`BookZero.ZeroTrade`). The fills of a match are all positive if and only
  if it consumes no such order (`FillsPositiveIff`), and over runs such orders come from modifications of
  resting orders to zero and from nothing else (`RunPositiveIff`).
- `size()` is called approximate. A thread that observes tail count `t` and head count `h` reads `t - h` modulo
  the capacity, which is `t - h` if and only if that lies between zero and `capacity - 1` (`SizeReading`). So it
  never understates to the producer nor overstates to the consumer (`SizeFromWithin`), but a third thread can be
  told `capacity - 1`, at every capacity, by a queue that never held more than one item (`SizeFromOutside`).
  `empty()` and `full()` are treated the same way (`EmptyReading`, `FullReading`, `EmptyAndFullFromWithin`).

`fill` and `modify_order` read an order's slot after it went back to the pool. The destructor is trivial and
nothing reuses the slot in between, so the model keeps the bytes in place and reads them as the code does.

## Model

| member | source | states |
|---|---|---|
| Matcher.MatchIsPriceTime | src/order_book.cpp:125-192 | a match consumes orders whole from the front, then reduces at most one, and stops only when the aggressor is filled or nothing left crosses |
| Matcher.PriceTimeIsMatch | src/order_book.cpp:125-192 | that description has exactly one outcome: whatever is a price-time match is the one the book makes |
| Matcher.MatchTradesDepth | src/order_book.cpp:128-158 | the traded quantity is the lesser of the order's size and the whole crossable depth, and a remainder is left only when nothing crosses |
| Matcher.MatchPrices | src/order_book.cpp:128-165 | every trade is at the resting price, within the aggressor's limit, and prices never improve during a sweep |
| Matcher.MatchPriority | src/order_book.cpp:138-153 | at each fill, every opposite order not already consumed has a worse price, or the same price and a later stamp |
| Matcher.MatchTradeCount | src/order_book.cpp:206-216 | the number of trades is the number of retired resting orders plus at most one partial fill, which comes last |
| Matcher.MatchSplit | src/order_book.cpp:125-192 | one aggressor of a + b, or a and then b: same opposite side left, same remainder, same fill total for each resting order |
| BookInvariant.AddKeepsInv | src/order_book.cpp:18-52 | an add keeps both lists sorted and the book uncrossed, every slot in exactly one place, and the id table free of references to free slots |
| BookInvariant.AddKeepsUncrossed | src/order_book.cpp:44-49 | what rests after a match cannot cross the book |
| BookInvariant.CancelKeepsInv | src/order_book.cpp:57-83 | the same invariants are kept by a cancel, successful or not |
| BookInvariant.ModifyKeepsInv | src/order_book.cpp:88-120 | the same invariants are kept by a modification, down to quantity zero and up by cancel and add |
| BookInvariant.ModifyNeverTrades | src/order_book.cpp:105-117 | an increase makes no trade and cannot fail even when the pool is exhausted |
| BookInvariant.RunKeepsInv | src/order_book.cpp:18-120 | the invariants hold after every run of adds, cancels and modifications |
| BookInvariant.EmptyInv | include/order_book.hpp:50-58 | they hold of the empty book, with the free stack counting down |
| Pool.LiveAndFree | include/memory_pool.hpp:43-48 | live and free slots partition the pool |
| Pool.MemoryPool.constructor | include/memory_pool.hpp:43-48 | every slot is free and slot 0 is served first |
| Pool.MemoryPool.Acquire | include/memory_pool.hpp:62-68 | hands out a slot that is not live, and fails exactly when all slots are live |
| Pool.MemoryPool.Release | include/memory_pool.hpp:74-82 | a live slot becomes free and is next to be served; the stack cannot overflow |
| Pool.MemoryPool.Construct | include/memory_pool.hpp:87-93 | writes the new value into the acquired slot and no other |
| Pool.MemoryPool.Destroy | include/memory_pool.hpp:98-101 | gives the slot back |
| Pool.MemoryPool.Available | include/memory_pool.hpp:106 | the capacity less the live slots |
| Levels.LinkedOutList | include/types.hpp:102-109 | unlinking at any position turns a list of q into a list of q without that position |
| Types.WrapsModulo | include/types.hpp:80-88 | unsigned words of 64 and of 32 bits wrap: the result is in range and differs by whole words |
| Levels.PushBackKeeps | include/types.hpp:92-100 | a level stays well-linked, its count right, and its total off by what the newcomer had already filled |
| Levels.RemoveKeeps | include/types.hpp:102-114 | a level stays well-linked, and its count and total stay right, wherever the order was |
| Levels.PriceLevels.constructor | include/order_book.hpp:54-57 | every level gets its own tick and an empty list |
| Levels.PriceLevels.PushBack | include/types.hpp:92-100 | the order joins the back of its own queue; all queues of the side stay disjoint, linked and at their price |
| Levels.PriceLevels.Remove | include/types.hpp:102-114 | the order leaves its queue, from any position; all queues of the side stay coherent |
| Ladder.StoredAt | include/types.hpp:80-90 | every resting order of the reference is stored exactly at its price, and its removal from that queue removes it from the list |
| Ladder.QueuedAtBack | src/order_book.cpp:250-254 | joining the back of a level is insertion at the price-time place of the list |
| Ladder.BestIsFront | src/order_book.cpp:131-139 | an exact cached best is the best price of the list, and the head of that level is its front |
| BookStore.FillRefines | src/order_book.cpp:197-222 | one fill of the stored book, retiring or partial, is one step of the reference match |
| BookStore.CancelRefines | src/order_book.cpp:65-81 | the stored book after a cancel represents the reference after it |
| BookStore.DecreaseRefines | src/order_book.cpp:98-104 | the stored book after a decrease represents the reference after it |
| BookStore.RestedRepresents | src/order_book.cpp:250-254 | the stored book after a rest represents the reference with the order inserted |
| BookStore.AllocatedRepresents | src/order_book.cpp:25-41 | writing a fresh order and its table cell disturbs nothing that rests |
| BookStore.LocateStored | src/order_book.cpp:58-63 | the three checks on the stored slot find an order exactly when the reference locates it, even after slots were reused |
| Sweep.SofarStep | src/order_book.cpp:140-153 | the fills made so far, followed by a match of what is left, stay the whole match after each fill |
| Book.OrderBook.constructor | include/order_book.hpp:50-58 | a new book is the empty reference book |
| Book.OrderBook.Exchange | src/order_book.cpp:198-222 | both orders take the quantity, and the resting one retires exactly when nothing is left of it; each is marked filled or partially filled accordingly |
| Book.OrderBook.Fill | src/order_book.cpp:197-245 | the stored book after a trade, the counters, the marks of both orders, and a report in which the order of the Buy side is the buyer, that of the Sell side the seller, at the resting price and for the traded quantity |
| Book.OrderBook.TradeFront | src/order_book.cpp:143-152 | the loop body makes the reference fill of the front order, and its saved successor is what followed it |
| Book.OrderBook.WalkLevel | src/order_book.cpp:138-153 | the inner loop ends with the aggressor filled or the level empty, having made only reference fills, and lessens the work left |
| Book.OrderBook.MatchIncoming | src/order_book.cpp:125-192 | the nested loops terminate, on both sides, with exactly the reference match and reports; the best ask after it; and the branch for an empty best level is taken, once, exactly by a buy that reaches a best ask that is not exact |
| Book.OrderBook.ConsumeAsks | src/order_book.cpp:126-158 | the loop of a buy, from any best ask that is a bound: what it leaves, and how often the best level was empty |
| Book.OrderBook.ConsumeBids | src/order_book.cpp:159-191 | the loop of a sell, likewise; never empty when the best bid is exact |
| Book.OrderBook.UpdateBestBid | src/order_book.cpp:283-291 | the scan ends at the highest non-empty bid tick, or -1 |
| Book.OrderBook.UpdateBestAsk | src/order_book.cpp:293-302 | the scan ends at the lowest non-empty ask tick, or -1 |
| Book.OrderBook.RestOrder | src/order_book.cpp:250-263 | the order joins its level and the best price follows |
| Book.OrderBook.AllocateOrder | src/order_book.cpp:25-41 | the top free slot holds the new order and its id's cell points to it; NULL exactly when no slot is free |
| Book.OrderBook.AddOrder | src/order_book.cpp:18-52 | whatever the side byte, the book becomes the reference book after the add and its slot is returned; every trade is reported with buyer, seller, resting price and quantity as they were; the slot holds the message's fields and time of arrival, what it filled, and the status that says so; side bytes and cached best ask are what `AddBoard` says |
| Book.OrderBook.Lookup | src/order_book.cpp:58-63 | NULL exactly when the reference finds no resting order under the id |
| Book.OrderBook.CancelOrder | src/order_book.cpp:57-83 | the book becomes the reference book after the cancel; true exactly when an order was cancelled, and then it is marked so; nothing reported; side bytes and cached best ask are what `CancelBoard` says |
| Book.StrandedAsk | src/order_book.cpp:74-79 | on a book of any size, at any price: adding and cancelling one order with a side byte above Sell leaves an empty book whose best ask is that price |
| Book.OrderBook.ModifyOrder | src/order_book.cpp:88-120 | the book becomes the reference book after the modification, with its slot or NULL; nothing is ever reported; side bytes and cached best ask are what `ModifyBoard` says |
| Book.OrderBook.OrderCount | include/order_book.hpp:94-96 | resting orders plus filled aggressors |
| Book.OrderBook.TopOfBook | include/order_book.hpp:82-83 | in every valid book the cached best bid is the highest stored tick with an order, or -1; the cached best ask is a lower bound, exact if and only if its own level has an order; they never cross |
| Book.OrderBook.ValidBoard | include/order_book.hpp:82-83 | every valid book is one that `BestAsk` and `BoardRuns` are about, and its best ask is exact as they have it |
| Book.OrderBook.LevelFigures | include/order_book.hpp:85-92 | in every valid book a level's count is the number of entries at its price, modulo 2^32, its total what remains of them and the level's excess, modulo 2^64, and its ends are the first and the last of them, or null |
| BookLaws.BestPrices | src/order_book.cpp:283-302 | the first bid is the highest and the first ask the lowest, and they do not meet; `TopOfBook` and `OrdinaryExact` tie the cached prices to them |
| BestAsk.AddExactIff | src/order_book.cpp:126-157 | an add keeps the cached best ask a bound; it is exact afterwards if and only if it was, or a buy reached it, or a sell came to rest there or below |
| BestAsk.CancelExactIff | src/order_book.cpp:74-79 | a cancel keeps it a bound; it is exact afterwards if and only if it was and the order was not the only one there with a byte above Sell |
| BestAsk.ModifyExactIff | src/order_book.cpp:88-120 | a modification keeps it a bound, and exact if and only if it was |
| BestAsk.CancelRescans | src/order_book.cpp:74-79 | of the sells only those with side byte 1 make their cancel look for a new best ask |
| BestAsk.AskBackIff | src/order_book.cpp:18-83 | when adding an order that does not cross and cancelling it brings the cached best ask back, from any state |
| BoardRuns.ReplayedBoardBook | include/matching_engine.hpp:49-56 | the book with its side bytes and best ask, replayed, holds the replayed book |
| BoardRuns.ExactThroughoutIff | src/order_book.cpp:74-79 | whatever the side bytes, the cached best ask is exact after every message of a run if and only if no cancel of the run strands it |
| BoardRuns.OrdinaryExact | src/order_book.cpp:74-79 | with the bytes Buy and Sell only, it is exact after every message of every run |
| BookLaws.RunPriority | src/order_book.cpp:125-192 | at any point of any run, each fill takes the best-priced, oldest order still resting |
| BookLaws.StepConserves | src/order_book.cpp:197-245 | per side, one operation conserves quantity, and counts and sums its trades |
| BookLaws.StepFills | src/order_book.cpp:198-199 | what an operation's trades fill of the orders on either side is what it trades |
| BookLaws.RunConserves | src/order_book.cpp:18-245 | over every run, per side: accepted plus net modified is traded plus cancelled plus resting; the orders of either side were filled by what was traded; the counters agree modulo the word |
| BookLaws.AddSplit | src/order_book.cpp:18-52 | an order of a + b, or a and then b: same opposite side, same total fill per order, same total rested |
| BookIdentities.CancellableIffIndexed | src/order_book.cpp:58-63 | a resting order answers to its id exactly while the table's cell points to it |
| BookIdentities.ModifyDecreases | src/order_book.cpp:98-104 | a decrease sets one remaining quantity and keeps every queue position and stamp |
| BookIdentities.ModifyIncreases | src/order_book.cpp:105-117 | an increase sends the order, with the new remaining quantity, behind all others at its price and changes nothing else |
| BookIdentities.ModifyKeepsPlaceIff | include/order_book.hpp:75-77 | a modification keeps every place in the queue if and only if the quantity does not grow or nothing rests behind the order at its price |
| BookRuns.IncreaseLosesPlace | include/order_book.hpp:75-77 | on a book of any size, of two orders at one price the first goes behind the second when its quantity grows |
| BookIdentities.AddThenCancel | src/order_book.cpp:18-83 | cancelling an order that did not cross restores lists, free stack and excesses, and the whole reference book exactly when its id's cell was empty |
| Book.AddThenCancelOrder | src/order_book.cpp:18-83 | on the running book it restores every stored level of both sides and the best bid, and the best ask exactly when `BringsBack` says |
| BookIdentities.CancelsCommute | src/order_book.cpp:57-83 | cancels of two resting orders commute up to the order of the free stack |
| BookAccounting.RunTotals | include/types.hpp:98 | over any run a level total exceeds the quantity resting there by exactly what orders had filled when they came to rest |
| BookAccounting.AddKeepsTotalIff | tests/test_order_book.cpp:76-87 | an add keeps its level's total exact if and only if the crossable depth is zero or covers it |
| BookRuns.PartialFillOverstatesLevel | tests/test_order_book.cpp:76-87 | on a book of any size, at any price and for any two quantities, a sell and a larger buy leave their difference resting and the buy's whole quantity as the total |
| BookAccounting.AddLeaks | src/order_book.cpp:44-51 | an add keeps a slot for good if and only if the crossable depth covers its quantity |
| BookAccounting.RunCounts | include/order_book.hpp:94-96 | over any run the slots in use are the resting orders plus one per aggressor filled outright |
| BookRuns.FullFillKeepsSlot | tests/test_order_book.cpp:56-71 | on a book of any size, at any price and quantity, a sell and an equal buy leave no resting order and one slot in use |
| BookAccounting.AddKeepsIndexIff | src/order_book.cpp:40-41 | an add keeps every resting order reachable if and only if its cell leads to none, or to one it consumes while being filled |
| BookRuns.SharedCellLosesOrder | src/order_book.cpp:40-41 | on a book of any size, of two orders on one side whose ids share a cell, the first rests and its id finds nothing |
| BookZero.FillsPositiveIff | src/order_book.cpp:143-148 | the fills of a match are all positive if and only if it consumes no order with nothing remaining |
| BookZero.RunPositiveIff | src/order_book.cpp:98-104 | a run never has an empty order resting if and only if it never modifies a resting order to zero |
| BookZero.RunFillsPositive | src/order_book.cpp:143-148 | in such a run every trade has a positive quantity |
| BookZero.ZeroTrade | src/order_book.cpp:98-104 | on any book: the front order modified to zero, then an aggressor that crosses it, make a trade of quantity zero |
| BookIndex.StepIndexedIff | src/order_book.cpp:18-120 | cancels and modifications never make an order unreachable; an add does exactly when it takes over a live cell |
| BookIndex.RunIndexedIff | src/order_book.cpp:18-120 | a run keeps every resting order reachable throughout if and only if none of its adds takes over a live cell |
| BookIndex.RunReachable | src/order_book.cpp:57-63 | in such a run every resting order is found by its id at any time |
| RingMath.CapacityIsPower | include/spsc_queue.hpp:27-28 | the compile-time check on the capacity admits powers of two only |
| RingMath.PowerIsCapacity | include/spsc_queue.hpp:27-28 | and every power of two from 2 up that fits the word |
| RingMath.AndBit | include/spsc_queue.hpp:27-28 | a bit of the bitwise and is set exactly when it is set in both numbers |
| RingMath.MaskIsMod | include/spsc_queue.hpp:32 | for every admitted capacity, masking is modulo |
| RingMath.SizeIsModulo | include/spsc_queue.hpp:83-87 | the wrapped difference of the indices, masked, is the difference of what they count, modulo the capacity |
| RingMath.SizeIsDifference | include/spsc_queue.hpp:83-87 | which is the number of items when they are at most a ring apart |
| Spsc.SpscQueue.constructor | include/spsc_queue.hpp:34 | a new queue is empty |
| Spsc.SpscQueue.TryPush | include/spsc_queue.hpp:45-59 | appends the item, unless there are capacity - 1 items; then nothing changes |
| Spsc.SpscQueue.TryPop | include/spsc_queue.hpp:65-78 | takes the oldest item, or nothing exactly when there is none |
| Spsc.SpscQueue.Size | include/spsc_queue.hpp:83-87 | the number of items, at most capacity - 1, whatever wraps |
| Spsc.SpscQueue.IsEmpty | include/spsc_queue.hpp:89-92 | true exactly when there is no item |
| Spsc.SpscQueue.IsFull | include/spsc_queue.hpp:94-98 | true exactly at capacity - 1 items |
| SpscProtocol.NextKeepsInv | include/spsc_queue.hpp:45-78 | every step of either thread, with any coherent stale load, keeps the protocol's invariant |
| SpscProtocol.OldContentsReleased | include/spsc_queue.hpp:55 | the slot about to be written holds nothing the consumer has not released, as the producer has observed |
| SpscProtocol.ItemInPlace | include/spsc_queue.hpp:74 | after its check the consumer finds the next item whole and acquired in its slot, which the producer does not own |
| SpscProtocol.RunKeepsInv | include/spsc_queue.hpp:45-78 | the invariant holds over every interleaving |
| SpscProtocol.FifoTransfer | include/spsc_queue.hpp:45-78 | in every run what is popped is a prefix of what was accepted, in order; no unread item is overwritten; at most capacity - 1 wait; a refusal means that the accepted items less the pops observed filled the ring, and what refusals observe never goes back nor beyond the pops made |
| SpscProtocol.RefusalHappened | include/spsc_queue.hpp:50-53 | each refusal of a run is a step of it, at which the observed head lay between the last one seen and the pops completed by then, and the ring was full by it |
| SpscProtocol.NoRace | include/spsc_queue.hpp:45-78 | in every run the threads are never in the same slot, and each has acquired the other's last use of its slot |
| SpscProtocol.StaleRefusal | include/spsc_queue.hpp:50-53 | at every capacity there is a run in which a push is refused although the consumer has made room |
| SpscProtocol.StaleEmpty | include/spsc_queue.hpp:69-72 | at every capacity there is a run in which a pop finds nothing although an item is queued |
| SpscProtocol.UnacquiredRead | include/spsc_queue.hpp:74 | a slot under way, or whose write is not acquired, may read as anything |
| SpscProtocol.KeptInOrder | include/spsc_queue.hpp:45-59 | what was accepted is the subsequence of what was offered at exactly the accepted positions |
| SpscProtocol.WaitFree | include/spsc_queue.hpp:45-78 | a thread inside a call always has a step that brings it nearer to the end, whatever the other does |
| SpscProtocol.SoloPush | include/spsc_queue.hpp:45-59 | run on its own, the steps of a push do what the sequential queue does |
| SpscProtocol.SoloPop | include/spsc_queue.hpp:65-78 | run on its own, the steps of a pop do what the sequential queue does |
| SpscProtocol.SizeFromWithin | include/spsc_queue.hpp:80-87 | the size is never too small for the producer and never too large for the consumer |
| SpscProtocol.SizeReading | include/spsc_queue.hpp:83-87 | any thread reads the difference of the counts it observed modulo the capacity; that is the difference if and only if it is one that a ring can hold |
| SpscProtocol.SizeFromOutside | include/spsc_queue.hpp:80-87 | at every capacity a third thread can read capacity - 1 although the queue never held more than one item |
| SpscProtocol.EmptyReading | include/spsc_queue.hpp:89-92 | any thread reads empty exactly when the counts it observed agree modulo the capacity |
| SpscProtocol.FullReading | include/spsc_queue.hpp:94-98 | any thread reads full exactly when the tail it observed counts one less than a ring ahead, modulo the capacity |
| SpscProtocol.EmptyAndFullFromWithin | include/spsc_queue.hpp:80-98 | the producer can trust empty and not full, the consumer full and not empty |
| SpscProtocol.FullFromOutside | include/spsc_queue.hpp:94-98 | at every capacity a third thread can read full although the queue never held more than one item |
| Protocol.DecodeEncoded | include/protocol.hpp:67-112 | every message, negative prices and unknown enumeration bytes included, survives the wire, whatever follows the frame |
| Protocol.EncodeDecoded | include/protocol.hpp:67-112 | re-encoding an accepted frame with its own timestamp gives back every byte except the reserved one |
| Protocol.AcceptedBytes | include/protocol.hpp:67-77 | a frame is accepted exactly when it has 48 bytes or more and starts with those five |
| Protocol.DecodedLayout | include/protocol.hpp:37-89 | every accepted frame is decoded with action and side from bytes 5 and 6, and order id, original id, two's-complement price and quantity from bytes 8, 16, 24 and 32, least significant first |
| Protocol.FrameLayout | include/protocol.hpp:37-112 | every message is encoded there, after the five opening bytes and a zero in byte 7, with the timestamp from byte 40 |
| Protocol.Encode | include/protocol.hpp:95-112 | leaves in the buffer the 48 bytes of the frame, each field where the layout has it, and the rest of the buffer alone |
| Protocol.Decode | include/protocol.hpp:67-89 | true exactly on 48 bytes or more with the five opening bytes; then each field is the one the layout has there; otherwise the out parameter is untouched |
| Replay.HandleKeepsInv | include/matching_engine.hpp:82-102 | every message keeps the book's invariants and moves the counters by exactly its reports |
| Replay.ReplayKeepsInv | include/matching_engine.hpp:49-56 | so does every sequence of messages |
| Replay.ReplayIsRun | include/matching_engine.hpp:49-56 | replaying messages is a run of the book, so all laws over runs apply |
| Replay.ReportParties | include/matching_engine.hpp:49-56 | every report of a replay comes from an add, and names as buyer and seller its order and a resting order of the other side on the book as it was then, at that one's price, within both limits |
| Replay.WireIsTransparent | include/market_data_gateway.hpp:45-66 | a message that was encoded, decoded and stamped has the effect of the original |
| Engine.HandleCases | include/matching_engine.hpp:82-102 | bytes 0 and 3 add the order of the message, 1 cancels, 2 modifies, any other does nothing; side byte 0 buys and any other sells |
| Engine.ValidMessageIff | src/order_book.cpp:19-22 | every message is admitted but adds with a price that is no tick or a quantity of zero |
| Engine.ConsumedInBatches | include/matching_engine.hpp:49-56 | where one call of the event loop ends and the next begins makes no difference |
| Engine.MatchingEngine.constructor | include/matching_engine.hpp:33-39 | a new engine has an empty book and zero counters |
| Engine.MatchingEngine.OnTrade | include/matching_engine.hpp:107-112 | queues the report if and only if there is room, and counts it either way |
| Engine.MatchingEngine.Dispatch | include/matching_engine.hpp:82-102 | one message has the effect of its action byte on the book, and its reports on the outbound queue and the counters |
| Engine.MatchingEngine.RunOnce | include/matching_engine.hpp:49-56 | empties the inbound queue; book, reports, side bytes, best ask and counters end as the sequential replay of what was queued, and the outbound queue takes the first reports that fit; with the bytes Buy and Sell only, an exact best ask stays exact |
| Gateway.MarketDataGateway.ProcessFrame | include/market_data_gateway.hpp:45-66 | queues the message of the frame, by its layout and stamped with the time, exactly when the frame is well-formed and there is room, and moves exactly one counter; it is what the pipeline offers |
| Gateway.MarketDataGateway.InjectOrder | include/market_data_gateway.hpp:79-89 | queues the message, stamped if it was not, exactly when there is room, and moves exactly one counter; it is what the pipeline offers |
| Arrivals.StampedIs | include/market_data_gateway.hpp:45-89 | a frame is offered if and only if it is well-formed, with its fields by the layout and the time of arrival; a message always, stamped if it was not |
| Arrivals.EncodedIsOffered | include/market_data_gateway.hpp:45-66 | an encoded message, whatever follows it, is offered as it was, stamped on arrival |
| Arrivals.StreamIsOffered | include/market_data_gateway.hpp:45-66 | a stream of encoded messages is offered in order, and nothing of it is malformed |
| Gateway.MarketDataGateway.ResetCounters | include/market_data_gateway.hpp:96 | zeroes the counters and nothing else |
| Pipeline.PipelineReplays | include/matching_engine.hpp:49-112 | in every interleaving the book is the replay of the messages popped, a prefix of the accepted ones among those that arrived; reports arrive in order; what either ring refused met a ring that was full by what had been seen; all counters agree |
| Pipeline.GatewayCounts | include/market_data_gateway.hpp:45-89 | in every interleaving accepted frames count the messages pushed, and dropped frames the malformed arrivals and the refused pushes |
| Pipeline.FramesThrough | include/market_data_gateway.hpp:45-66 | in every interleaving fed by encoded messages the gateway has offered these, in order and stamped, and the book is the replay of a prefix of those accepted |
| Pipeline.FrameReachesBook | include/matching_engine.hpp:49-56 | there is a run in which an encoded message comes off the wire, is accepted, and has its effect on the book |
| Pipeline.NeverStuck | include/matching_engine.hpp:49-112 | in every reachable state each thread has a step to take, which brings it nearer to the end of its call |
| Pipeline.RingsRun | include/matching_engine.hpp:49-112 | each ring of the pipeline goes through a run of the protocol, so race freedom and all else proved of such runs holds of it |
| Pipeline.LossHappened | include/matching_engine.hpp:107-112 | each lost report was offered at a step where the outbound ring was full by the reads seen, none of them ahead of the reads completed by then |

## Left out

- Book.OrderBook.AddOrder: the entry time stamp and the latency field of reports are not modelled, as clocks are not; an arrival stamp is an opaque word.
- Book.OrderBook.ModifyOrder: the cycle counter it reads for the re-added order is a parameter.
- Book.OrderBook.Fill: the trade callback is taken to be set, and to append to a log; it cannot call back into the book, as the engine's does not. With no callback only the log would be missing.
- Book.OrderBook.MatchIncoming: the inner loop, which the code writes once for each side, is one method for both sides.
- Engine.MatchingEngine.Dispatch: the reports of one operation are forwarded after it, in order, rather than from inside it; no other part of the engine can see the difference, and the downstream reader only through timing.
- Replay.ValidMessage: adds with an out-of-range price or a zero quantity are excluded, as the assertions of `add_order` demand; every side byte, every action byte and all other messages are admitted.
- Engine.MatchingEngine.RunOnce: the count it returns is unbounded; the queue holds at most 65535 messages.
- SpscProtocol.NoRace: coherence of each index and release-acquire visibility of slots are built into the steps; the rest of the C++ memory model is not.
- Pipeline.NeverStuck: nothing is said about scheduling, nor that a thread that can step does.
- The methods `fill`, `cancel_order`, `modify_order` and `match` are split into several small methods each, and an order's fields are written as one record.
- The reference records the slots of filled aggressors as `leaked`; the code keeps no such list, only the slots themselves.
- `run` and `stop` of the engine: spinning on a flag.
- `retire_order`: never called. `IntrusiveList`: the book uses only its node; the level's own list is modelled.
- Slot address arithmetic in `owns`, alignment, padding, likelihood hints, and aliasing by pointer casts.
- Time stamp counters, benchmarks and their statistics.
