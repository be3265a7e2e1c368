# Nexus-HFT exchange core: a verified model

Nexus-HFT is a single-threaded limit order matching engine with the containers, queue and
allocators around it, and a small position keeper. This project models those components in Dafny
and proves what they are for. Classes of the program are classes here, with the same fields, the
same branches and the same order of effects; beside each stands a short reference definition over
plain values, and the methods are proved to compute it.

**Order book and matching engine.** `PriceTime.dfy` is the reference: a book is two queues of
orders, best price first and oldest first, and `Match`, `Insert`, `Without` and `Reduced` are a few
lines of recursion over one queue. `IntrusiveLists.dfy`, `OrderBooks.dfy` and `MatchingEngines.dfy`
are the program: nodes with `prev`/`next` links, levels with a cached volume, two maps from price
to level, sweeps that unlink nodes while they walk the list and erase levels that run empty.
`MatchingEngine.ProcessLimitOrder` is proved to leave exactly the reference book and to report
exactly the reference trades, whatever the book holds, zero-quantity orders included. The loops
terminate on the pair (orders still queued, taker quantity).
`MatchLaws.dfy`, `BookRuns.dfy`, `Arrivals.dfy`, `Accounts.dfy` and `Mirror.dfy` prove the laws of
the reference, `Sessions.dfy` carries them to the heap for every sequence of calls, and
`CommandLines.dfy` is the program's command loop on top.

**Lock-free queue.** `SpscProtocol.dfy` is a state machine with ten atomic steps for the two
threads, in any interleaving. An acquire load may return any index the other thread has published
since the last one seen, and a slot read is guaranteed its content only if the store that
published it has been seen. `SpscQueues.dfy` has `push` and `pop` as they are written; each of their
statements is one of those steps.

**Allocators.** `Freelists.dfy` is the reference pool. `MemoryPools.dfy` threads the list through
the slots of a slab, `PoolAllocators.dfy` through the words of a raw byte buffer; `ArenaGeometry.dfy`
and `Bits.dfy` justify the mask arithmetic.

**Portfolio, rolling statistics, small vector.** Incremental updates against the whole history,
over `real`, with the conversion of profits to whole units kept; and a vector with inline storage
against a sequence, with the cost of growing.

## Where the code and its documentation differ

- The project's own README promises market orders (`README.md:16`). `OrderType::Market` exists in
  `types.hpp`, but no code reads it: the engine knows limit orders only, and so does the model.
- The same file speaks of a rolling VWAP (`README.md:29`). `RollingStats` has no volume weights; it
  keeps the plain mean and variance of the window, which is what is proved here.

## Properties that hold only under a condition

- *Trades have positive quantity.* `reduce_order(node, 0)` leaves an order of quantity zero in its
  list, and the next sweep trades nothing against it (`BookRuns.ZeroReductionTrades`).
  `MatchLaws.ZeroTradeIff` says exactly when a sweep reports such a trade.
- *The book is not crossed.* True of every run of the engine (`BookRuns.NeverCrossed`). Resting an
  order through `insert_order` alone can cross it (`BookRuns.RawInsertCrosses`);
  `BookRuns.InsertUncrossedIff` says exactly when it does not.
- *Arena slots are aligned.* Not for objects of size zero aligned more widely than a pointer
  (`ArenaGeometry.EmptyObjectsMisalign`); `ArenaGeometry.SlotSizeAlignedIff` is the exact condition.
- *Profit equals cash.* A fill that closes part of a position drops the fraction of a unit from its
  gain (`Portfolios.TruncationLoses`). `Portfolios.StepExactIff` says exactly which fills are booked
  without loss: those that open or add, and those whose gain, computed from the account before the
  fill, is a whole number. `Portfolios.ProfitIsCashIff` says it of histories, and
  `Portfolios.WorthIsCashLessLost` gives the difference to the cash exactly.
- *Cancelling takes out one order.* A node that does not rest has null links, and so has the only
  order at its price (`order_book.hpp:35`): the links cannot tell whether a node rests. Cancelling
  a node that has left the book therefore wipes out every order at its price, if there are any
  (`PriceTimeFacts.SecondCancelLosesOrders` cancels twice). `OrderBooks.OrderBook.CancelOrder` states
  the result in both cases and `OrderBooks.OrderBook.CancelIff` says exactly when it is the
  cancellation asked for.
- *A fill moves the position by its quantity.* Only below 2^63: from there on the quantity is read as a
  negative number, and a purchase is booked as a sale (`Portfolios.SignedIff`).

## What callers must respect

The code relies on these without checking them, and the methods require them: a submitted node is
not in the book; a reduced node rests in it, or its price has no level, when nothing happens; a
cancelled node rests in it, or is unlinked, or its price has no level; price and side of a resting
node stay fixed; a pointer given back was handed out and is still live; the queue's capacity is a
power of two and each end has one thread; signed 64-bit results of the portfolio are defined
(`Portfolios.Defined`).

## Model

| member | source | states |
|---|---|---|
| IntrusiveLists.IntrusiveList.constructor | include/nexus/core/intrusive_list.hpp:13 | a new list is empty |
| IntrusiveLists.IntrusiveList.PushBack | include/nexus/core/order_book.hpp:45-55 | the chain grows by the node at its end and stays a chain: head and tail right, links mutually inverse, no node twice |
| IntrusiveLists.IntrusiveList.Remove | include/nexus/core/order_book.hpp:57-70 | the chain loses exactly the node, wherever it stands, the others keep their order, and the node's links are null; given an unlinked node that is in no list, the whole chain is lost instead |
| OrderBooks.PriceLevel.constructor | include/nexus/core/order_book.hpp:73-79 | a new level has its price, no orders and no volume |
| OrderBooks.PriceLevel.Append | src/engine/order_book.cpp:37-38 | the level's orders grow by the node at the end; the cached volume stays their sum in 64 bits |
| OrderBooks.PriceLevel.Drop | src/engine/order_book.cpp:55-56 | the level's orders lose exactly the node, the volume its quantity; the node's own data is kept and its links are null; a node that is in no list empties the level's |
| OrderBooks.PriceLevel.Lower | src/engine/matching_engine.cpp:45-46 | one order's quantity is lowered in place, the volume follows, and nothing else changes |
| OrderBooks.LevelMap.Begin | src/engine/order_book.cpp:92-100 | the first map entry is the level of the queue's first order; there is none exactly when nothing rests |
| OrderBooks.LevelMap.FindOrEmplace | src/engine/order_book.cpp:33-36 | the level at the price, existing or new and empty; what rests is unchanged |
| OrderBooks.LevelMap.Insert | src/engine/order_book.cpp:32-39 | appending to the list at the price is inserting into the queue behind every order at least as good |
| OrderBooks.LevelMap.CheckRemoveLevel | src/engine/order_book.cpp:104-112 | the level is erased exactly if its list is empty, after which the map is valid and no level is empty |
| OrderBooks.LevelMap.Cancel | src/engine/order_book.cpp:53-58 | the queue loses exactly the node, and its level with the last order; a node that does not rest takes all orders at its price along, so without a level there nothing changes |
| OrderBooks.LevelMap.Reduce | src/engine/order_book.cpp:74-81 | the node's quantity is lowered in the queue, at its place |
| OrderBooks.LevelMap.DepthAgrees | include/nexus/core/order_book.hpp:73-79 | in every valid map a level exists at a price exactly when an order rests there, lists exactly those orders oldest first, has their price, and caches the sum of their quantities |
| OrderBooks.OrderBook.constructor | src/engine/order_book.cpp:15-27 | a new book is empty on both sides |
| OrderBooks.OrderBook.InsertOrder | src/engine/order_book.cpp:31-47 | the node joins its side's queue in price-time position; the other side is untouched |
| OrderBooks.OrderBook.CancelOrder | src/engine/order_book.cpp:51-67 | the book without the node, which is unlinked, no longer owned by the book, and keeps its data; for an unlinked node that does not rest, the book without that price |
| OrderBooks.OrderBook.CancelIff | src/engine/order_book.cpp:51-67 | what `cancel_order` leaves is the book without the node, and nothing else missing, exactly if the node rests or its price has no level |
| OrderBooks.OrderBook.StaleCancelLeaves | src/engine/order_book.cpp:51-67 | cancelling a node that does not rest leaves nothing at its side and price, and every other price and the other side as they were |
| PriceTimeFacts.SecondCancelLosesOrders | include/nexus/core/order_book.hpp:57-70 | a concrete level on which cancelling one order twice loses another |
| OrderBooks.OrderBook.ReduceOrder | src/engine/order_book.cpp:71-88 | a lower quantity is taken over at the order's place; a quantity not lower is ignored |
| OrderBooks.OrderBook.GetBestBid | src/engine/order_book.cpp:92-95 | null exactly when no bid rests, else the level of the first bid in price-time order |
| OrderBooks.OrderBook.GetBestAsk | src/engine/order_book.cpp:97-100 | null exactly when no ask rests, else the level of the first ask in price-time order |
| OrderBooks.OrderBook.StateIsWellFormed | include/nexus/core/order_book.hpp:124-128 | both sides are sorted, no node rests twice or on both sides or on the wrong one, and the book owns every resting node |
| PriceTimeFacts.LevelsDetermineQueue | include/nexus/core/order_book.hpp:86-89 | two sorted queues with the same orders at every price are equal: the levels and the map's order fix the queue |
| PriceTimeFacts.SweptMatch | src/engine/matching_engine.cpp:27-63 | sweeping the best level and then the rest is the whole match; a level that leaves the taker unfilled has no order left |
| MatchingEngines.FillHead | src/engine/matching_engine.cpp:38-58 | one trade with the head of a level at the level's price; a filled maker is unlinked and out of the level, and the saved next node is the new head |
| MatchingEngines.SweepLevel | src/engine/matching_engine.cpp:35-59 | the inner loop computes the match of the taker against the level's orders; every maker that left is filled, unlinked and unowned |
| MatchingEngines.SweepBest | src/engine/matching_engine.cpp:28-62 | one round of the outer loop keeps the whole match's result and leaves fewer orders or a filled taker |
| MatchingEngines.MatchingEngine.constructor | include/nexus/engine/matching_engine.hpp:12 | a new engine has an empty book |
| MatchingEngines.MatchingEngine.MatchBuyOrder | src/engine/matching_engine.cpp:26-64 | trades, remaining asks and remaining quantity are those of the reference match against all asks; it terminates |
| MatchingEngines.MatchingEngine.MatchSellOrder | src/engine/matching_engine.cpp:66-101 | the same against all bids |
| MatchingEngines.MatchingEngine.ProcessLimitOrder | src/engine/matching_engine.cpp:5-20 | the book and the trades are those of the reference submission; the node rests exactly if quantity is left, and keeps its links if none is; every maker that left is filled, unlinked and unreachable from the engine |
| MatchingEngines.MatchingEngine.CancelOrder | src/engine/matching_engine.cpp:22-24 | the book without the node, which is unlinked and unowned; for an unlinked node that does not rest, the book without that price |
| MatchLaws.MatchClosedForm | src/engine/matching_engine.cpp:26-64 | a sweep trades once with each of the first n makers, at the maker's price, for its share of the cumulative volume; n, the remainder and the rest of the queue are given without recursion |
| MatchLaws.SweepIsExhaustive | src/engine/matching_engine.cpp:30-33 | every trade is within the limit, and a sweep with quantity left stops only where nothing crosses |
| MatchLaws.SweepIsMonotone | src/engine/matching_engine.cpp:27-41 | trade prices never improve for the taker during a sweep |
| MatchLaws.NothingTradesOutOfTurn | src/engine/matching_engine.cpp:35-59 | every maker ahead of the last one traded with has left the queue; the trades are as many as the departures, or one more |
| MatchLaws.ZeroTradeIff | src/engine/matching_engine.cpp:37-46 | a trade of quantity zero is reported exactly when a resting order of quantity zero is within the limit with less than the taker's quantity ahead of it |
| MatchLaws.SplitMatch | src/engine/matching_engine.cpp:26-64 | two orders at one limit, one after the other, leave the same makers, the same remainder and the same fill per maker as their sum |
| MatchLaws.SplitUnobservable | src/engine/matching_engine.cpp:5-64 | submitting a and then b leaves the same opposite side, the same fill per maker and the same volume at each own price as submitting a+b |
| BookRuns.SubmitShape | src/engine/matching_engine.cpp:5-20 | a submission in full: the sweep's trades and makers, and what is left of the order behind every order on its own side at its price or a better one and ahead of all others |
| BookRuns.StepKeepsWellFormed | src/engine/matching_engine.cpp:5-24 | submit, cancel and reduce keep both queues sorted, duplicate-free and disjoint |
| BookRuns.RunsAreWellFormed | src/engine/matching_engine.cpp:5-24 | so does every run from the empty engine |
| BookRuns.StepKeepsUncrossed | src/engine/matching_engine.cpp:15-33 | submit, cancel and reduce keep every bid below every ask |
| BookRuns.NeverCrossed | src/engine/matching_engine.cpp:15-33 | after every run from the empty engine every bid is strictly below every ask |
| BookRuns.InsertUncrossedIff | src/engine/order_book.cpp:31-47 | resting an order without matching leaves the book uncrossed exactly if it was and the order crosses nothing on the other side |
| BookRuns.RawInsertCrosses | src/engine/order_book.cpp:31-47 | a concrete crossed book reached by resting orders without matching |
| BookRuns.RunsStayPositive | src/engine/matching_engine.cpp:15-51 | if no reduction is to zero, every resting order and every trade of every run has positive quantity |
| BookRuns.ZeroReductionTrades | src/engine/order_book.cpp:71-75 | a concrete run in which a reduction to zero leads to a trade of quantity zero |
| Arrivals.StepInOrder | src/engine/matching_engine.cpp:35-59 | each operation keeps the orders of each price in order of arrival |
| Arrivals.AlwaysPriceTime | src/engine/matching_engine.cpp:35-59 | in every reachable book orders at one price stand in order of arrival, through fills, cancellations and reductions |
| Arrivals.TradesInTurn | src/engine/matching_engine.cpp:35-59 | after every run: a submission trades with the first makers in turn, and when it trades with one, every order at a better price, or at the same price and submitted earlier, rests no more once it is done |
| Accounts.StepAccount | src/engine/matching_engine.cpp:38-46 | for any set of order ids: resting + filled + withdrawn after one operation is resting before + entered |
| Accounts.RunAccount | src/engine/matching_engine.cpp:38-46 | over every run: resting + filled + withdrawn = entered, for any set of order ids |
| Accounts.RunTotals | src/engine/matching_engine.cpp:38-46 | over every run: submitted = resting + 2 x traded + cancelled and reduced |
| Accounts.OrderAccount | src/engine/matching_engine.cpp:38-46 | an order neither cancelled nor reduced: original = filled + remaining |
| Mirror.MirrorMatch | src/engine/matching_engine.cpp:26-101 | a sweep with prices reflected and sides swapped gives the reflected trades and queue, with the same ids and quantities |
| Mirror.MirrorStep | src/engine/matching_engine.cpp:5-101 | reflection commutes with submit, cancel and reduce |
| Mirror.MirrorRun | src/engine/matching_engine.cpp:5-101 | and with every run: the two hand-written sweeps are one algorithm |
| Mirror.MirrorRunIff | src/engine/matching_engine.cpp:5-101 | a run ends with a given book and tape exactly if the reflected run ends with the reflected ones |
| Mirror.MirrorLegalIff | src/engine/matching_engine.cpp:5-101 | what a client may do to one book it may do, reflected, to the other |
| Sessions.Perform | src/engine/matching_engine.cpp:5-24 | any permitted call on an engine whose heap stands at a reference run leaves it at that run extended by the call, with the same new trades: placing is a submission; withdrawing takes the one order out; lowering sets the lesser quantity, in the node and at its place in the queue; nothing else changes, and only placing trades. A node that stops resting is unlinked and unowned |
| Sessions.CommandDoes | src/engine/matching_engine.cpp:5-24 | the event a command stands for does to the reference book, order by order, what the command says |
| Sessions.LowerMeans | src/engine/order_book.cpp:71-88 | lowering an order that rests puts the lesser of its quantity and the new one at its place; nothing else in the book changes and nothing trades |
| Sessions.WithdrawMeans | src/engine/order_book.cpp:51-67 | withdrawing an order that rests takes it out of its queue; nothing else in the book changes and nothing trades |
| Sessions.FollowersKeepTheLaws | src/engine/matching_engine.cpp:5-33 | so at every moment of every session the book on the heap is well formed, in price-time order and not crossed |
| Sessions.Operate | src/engine/matching_engine.cpp:5-58 | after any sequence of place, withdraw and lower commands, nodes used again included: book and tape are what comes of the commands one by one from the empty book; of all nodes ever used the engine owns exactly those that rest, and every other one is unlinked and free to be reused |
| Sessions.RunsUnfold | src/engine/matching_engine.cpp:5-58 | the reference run of a sequence of commands starts from the empty book, and each command in turn does what it says to the book and adds its trades to the tape |
| CommandLines.ServeOrder | src/main.cpp:74-90 | one accepted order: a node with the next 64-bit id is submitted |
| CommandLines.Serve | src/main.cpp:44-107 | the command loop: the book and the trades are those of the reference run of the orders accepted; these are exactly the lines since the last `CLEAR` with a positive price and quantity, in order, as many as the pool has nodes for, each with its side, its quantity and its price in the nearest cents, and with ids 1, 2, 3, ... in 64 bits |
| CommandLines.RequestIs | src/main.cpp:66-68 | an order has its line's side and quantity, and the price is the whole number of cents nearest to the line's, the upper one of two |
| CommandLines.TakenIs | src/main.cpp:56-74 | orders are taken from the first lines since the last `CLEAR` with a positive price and quantity, in order, and none of those is passed over while the pool lasts |
| CommandLines.ServedIs | src/main.cpp:63-88 | each order served asks for what its line says |
| Bits.AndIsBitwise | include/nexus/concurrency/spsc_queue.hpp:34 | the AND of the model is the conjunction bit by bit |
| Bits.MaskIsMod | include/nexus/concurrency/spsc_queue.hpp:23-34 | masking with 2^k - 1 is the remainder modulo 2^k |
| Bits.MaskRoundsDown | include/nexus/core/pool_allocator.hpp:47 | masking with the complement of 2^k - 1 clears exactly the remainder |
| Bits.Pow2Test | include/nexus/concurrency/spsc_queue.hpp:27 | n & (n - 1) is zero exactly for powers of two |
| SpscProtocol.InitInv | include/nexus/concurrency/spsc_queue.hpp:21-28 | the new queue satisfies the invariant |
| SpscProtocol.MaskedIndex | include/nexus/concurrency/spsc_queue.hpp:34 | the masked next index is the next counter modulo the capacity, at every wrap |
| SpscProtocol.FullIndex | include/nexus/concurrency/spsc_queue.hpp:37-41 | the index test for full is exact: it fires just when capacity - 1 items lie between the counters |
| SpscProtocol.StepKeepsInv | include/nexus/concurrency/spsc_queue.hpp:32-68 | every atomic step of either thread keeps cachedTail <= tail <= cachedHead <= head <= cachedTail + N - 1, the slots' contents and what each thread may rely on |
| SpscProtocol.RunsKeepInv | include/nexus/concurrency/spsc_queue.hpp:32-68 | so does every interleaving |
| SpscProtocol.Fifo | include/nexus/concurrency/spsc_queue.hpp:32-68 | what was popped is a prefix of what was pushed; the rest sits in its slots and is at most capacity - 1 items: nothing lost, duplicated or overwritten |
| SpscProtocol.SlotsExclusive | include/nexus/concurrency/spsc_queue.hpp:44-66 | the slot being written is never the slot being read |
| SpscProtocol.PushRefusesIffFull | include/nexus/concurrency/spsc_queue.hpp:37-42 | push gives up exactly when the ring was full for the published tail it loaded, and always when it is full now |
| SpscProtocol.PopRefusesIffEmpty | include/nexus/concurrency/spsc_queue.hpp:56-61 | pop gives up exactly when the published head it loaded is its own tail, and always when the ring is empty now |
| SpscQueues.SpscQueue.constructor | include/nexus/concurrency/spsc_queue.hpp:21-28 | a new queue holds nothing |
| SpscQueues.SpscQueue.HasRoom | include/nexus/concurrency/spsc_queue.hpp:33-42 | the two-stage test with the cached and the reloaded tail finds room exactly when fewer than capacity - 1 items are held |
| SpscQueues.SpscQueue.Store | include/nexus/concurrency/spsc_queue.hpp:44-48 | filling the slot and publishing the index appends the item |
| SpscQueues.SpscQueue.Push | include/nexus/concurrency/spsc_queue.hpp:32-49 | wherever the consumer stands, the item is appended exactly when fewer than capacity - 1 are held, and otherwise nothing changes |
| SpscQueues.SpscQueue.HasItem | include/nexus/concurrency/spsc_queue.hpp:53-61 | the two-stage test with the cached and the reloaded head finds an item exactly when one is held |
| SpscQueues.SpscQueue.Fetch | include/nexus/concurrency/spsc_queue.hpp:63-67 | reading the slot and publishing the index takes the next item |
| SpscQueues.SpscQueue.Pop | include/nexus/concurrency/spsc_queue.hpp:52-68 | wherever the producer stands, the oldest item comes out exactly when one is held, and otherwise nothing changes |
| Freelists.TakeKeepsPartition | include/nexus/core/memory_pool.hpp:69-77 | a slot handed out was not live; free and live slots still partition the slab |
| Freelists.GiveKeepsPartition | include/nexus/core/memory_pool.hpp:85-91 | giving a live slot back keeps the partition |
| Freelists.NoneIffAllLive | include/nexus/core/memory_pool.hpp:70-72 | nothing is handed out exactly when every slot is live |
| Freelists.GiveThenTake | include/nexus/core/memory_pool.hpp:110-120 | the slot given back last is handed out next, and the pool is then as it was |
| Freelists.RunsKeepPartition | include/nexus/core/memory_pool.hpp:36-120 | every legal sequence of calls keeps the partition |
| Freelists.FreshInOrder | include/nexus/core/memory_pool.hpp:42-47 | a new pool hands out slots 0, 1, 2, ... and after the last one nothing |
| MemoryPools.MemoryPool.constructor | include/nexus/core/memory_pool.hpp:36-48 | the links written into the raw slots chain up all of them in ascending order |
| MemoryPools.MemoryPool.PushFree | include/nexus/core/memory_pool.hpp:110-114 | the in-slot chain gets the slot at its head; no other slot is written |
| MemoryPools.MemoryPool.PopFree | include/nexus/core/memory_pool.hpp:116-120 | the head of the chain comes off, the rest stays chained |
| MemoryPools.MemoryPool.Allocate | include/nexus/core/memory_pool.hpp:69-77 | the next free slot holding the new object, or null exactly when all are live; live objects are not touched and the count is the number of live slots |
| MemoryPools.MemoryPool.Deallocate | include/nexus/core/memory_pool.hpp:85-91 | a live slot goes to the front of the chain, null is ignored, the objects still live are not touched |
| ArenaGeometry.MaskRoundsUp | include/nexus/core/pool_allocator.hpp:47-48 | the complement mask rounds the object size up to the alignment |
| ArenaGeometry.SlotSizeIsLeast | include/nexus/core/pool_allocator.hpp:47-48 | a slot holds the object and a pointer, and no smaller multiple of the alignment does |
| ArenaGeometry.SlotSizeAlignedIff | include/nexus/core/pool_allocator.hpp:47-48 | the slot size is a multiple of the alignment exactly if the object is not empty or the alignment is at most a pointer's; slots for empty objects have a pointer's size |
| ArenaGeometry.EmptyObjectsMisalign | include/nexus/core/pool_allocator.hpp:47-48 | a concrete size and alignment for which slots are misaligned |
| ArenaGeometry.SlotsFit | include/nexus/core/pool_allocator.hpp:49-54 | each slot lies inside the buffer, and one more slot would not |
| ArenaGeometry.SlotsLaidOut | include/nexus/core/pool_allocator.hpp:44-57 | any two slots of an arena lie inside the buffer and apart from each other and, in an aligned buffer under that same condition, aligned |
| PoolAllocators.ArenaState.constructor | include/nexus/core/pool_allocator.hpp:39-42 | before set-up the arena owns nothing |
| PoolAllocators.ArenaState.Init | include/nexus/core/pool_allocator.hpp:44-58 | slot size and capacity as laid out, and all slots free in ascending order |
| PoolAllocators.ArenaState.BuildFreelist | include/nexus/core/pool_allocator.hpp:51-57 | the words written into the buffer chain up all slots in ascending order |
| PoolAllocators.ArenaState.Allocate | include/nexus/core/pool_allocator.hpp:60-65 | the address of the next free slot, or null exactly when all are live |
| PoolAllocators.ArenaState.Deallocate | include/nexus/core/pool_allocator.hpp:67-71 | a live slot goes to the front of the chain |
| PoolAllocators.ArenaState.ClientStore | include/nexus/core/pool_allocator.hpp:21 | whoever holds a live slot may write any bytes inside it: every word that shares no byte with them is kept, and so is the chain through the free slots |
| PoolAllocators.PoolAllocator.constructor | include/nexus/core/pool_allocator.hpp:99-100 | a new allocator shares its arena and holds no heap block |
| PoolAllocators.PoolAllocator.InitArena | src/engine/order_book.cpp:18-26 | the arena may be set up after the allocator, and after blocks have come from the heap |
| PoolAllocators.PoolAllocator.Allocate | include/nexus/core/pool_allocator.hpp:112-121 | one object comes from the arena exactly while a slot is free; everything else from the heap |
| PoolAllocators.PoolAllocator.Deallocate | include/nexus/core/pool_allocator.hpp:123-129 | every block goes back to the source it came from |
| PoolAllocators.PoolAllocator.OwnsIffSlot | include/nexus/core/pool_allocator.hpp:73-76 | among the blocks held, the address range test recognises exactly the arena's slots |
| Portfolios.Portfolio.constructor | include/nexus/oms/portfolio.hpp:10 | a new portfolio is flat: every field is zero |
| Portfolios.Portfolio.ProcessFill | src/oms/portfolio.cpp:6-45 | the fields after a fill are those of the account after booking it, for every fill on which the signed 64-bit operations are defined |
| Portfolios.OpeningRealizes | src/oms/portfolio.cpp:14-20 | the position moves by the fill; a fill that opens or adds realizes nothing |
| Portfolios.SellingRealizes | src/oms/portfolio.cpp:23-30 | a fill that closes part or all of a long realizes the integer part of (price - average) x quantity given up, which is the lesser of position and fill |
| Portfolios.CoveringRealizes | src/oms/portfolio.cpp:31-34 | a fill that closes part or all of a short realizes the integer part of (average - price) x quantity given up |
| Portfolios.BookAverages | src/oms/portfolio.cpp:14-41 | the average is the fill's price after opening or flipping, the weighted mean after adding, zero when flat, and otherwise unchanged |
| Portfolios.TruncateIs | src/oms/portfolio.cpp:30 | profits become integers toward zero, by less than a unit |
| Portfolios.Portfolio.UpdateMarketPrice | src/oms/portfolio.cpp:47-59 | unrealized profit is the open position's gain at the price, in whole units |
| Portfolios.UnrealizedIs | src/oms/portfolio.cpp:47-59 | unrealized profit never exceeds the open gain in absolute value, never has the other sign, and is less than a unit from it |
| Portfolios.StepWorth | src/oms/portfolio.cpp:14-44 | a fill changes realized profit less the position's cost by exactly the cash that moved, less the dropped fraction if it closes |
| Portfolios.StepExactIff | src/oms/portfolio.cpp:14-44 | a fill is booked without loss exactly if it opens or adds, or if its gain is a whole number |
| Portfolios.WorthIsCashLessLost | src/oms/portfolio.cpp:6-45 | over every history, realized profit less the position's cost is the cash flow less exactly the fractions dropped |
| Portfolios.ProfitIsCashIff | src/oms/portfolio.cpp:22-44 | it is the cash flow at every moment of a history exactly if every closing fill has a gain in whole units |
| Portfolios.PnlIdentity | src/oms/portfolio.cpp:6-45 | over every history, realized profit less the position's cost is the cash flow, within one unit per closing fill |
| Portfolios.TotalPnl | src/oms/portfolio.cpp:47-59 | right after a price update, total profit is cash plus the position at market, within one unit more |
| Portfolios.SumsOfFills | src/oms/portfolio.cpp:10-44 | position and notional are the plain sums of the fills, the notional in 64 bits |
| Portfolios.SignedIff | src/oms/portfolio.cpp:7 | the position moves by the quantity bought or sold exactly if that is below 2^63; above, by the signed number with the same 64 bits, so that a purchase counts as a sale |
| Portfolios.FlatMeansCash | src/oms/portfolio.cpp:22-44 | a flat account has realized its cash flow, within one unit per closing fill; exactly, if every closing fill has a gain in whole units, or if the fractions dropped sum to nothing, and only then |
| Portfolios.TruncationLoses | src/oms/portfolio.cpp:29 | a concrete history in which one unit of cash never shows as profit |
| RollingStats.Grow | include/nexus/quant/rolling_stats.hpp:21-26 | the filling update gives the exact mean and sum of squared deviations of one more value |
| RollingStats.Slide | include/nexus/quant/rolling_stats.hpp:27-33 | the sliding update gives those of the window with the oldest value replaced |
| RollingStats.SlideStats | include/nexus/quant/rolling_stats.hpp:33-34 | and never a negative sum: the clamp does not fire |
| RollingStats.SpreadIs | include/nexus/quant/rolling_stats.hpp:63 | the squared deviations from any centre c sum to: sum of squares - 2 c x sum + n c^2 |
| RollingStats.SpreadZeroIff | include/nexus/quant/rolling_stats.hpp:63 | they sum to zero exactly if every value is the centre |
| RollingStats.Rolling.constructor | include/nexus/quant/rolling_stats.hpp:13-14 | an empty history, with mean and spread zero |
| RollingStats.Rolling.Store | include/nexus/quant/rolling_stats.hpp:17-22 | the circular store keeps exactly the last values of the history, and returns the one that leaves |
| RollingStats.Rolling.Add | include/nexus/quant/rolling_stats.hpp:16-36 | after any history, mean and spread are those of the last min(count, window) values |
| RollingStats.Rolling.Mean | include/nexus/quant/rolling_stats.hpp:38-40 | the mean of the window, zero before the first value |
| RollingStats.Rolling.Variance | include/nexus/quant/rolling_stats.hpp:42-45 | the squared deviations of the window from its mean over one less than its length, zero below two values; from two values on it is zero exactly if they are all equal |
| RollingStats.VarianceOfTwo | include/nexus/quant/rolling_stats.hpp:42-45 | of two values the variance is half the square of their difference |
| RollingStats.Rolling.IsReady | include/nexus/quant/rolling_stats.hpp:51-53 | ready exactly when a full window has been seen |
| SmallVectors.SmallVector.constructor | include/nexus/core/small_vector.hpp:43 | a new vector is empty and inline |
| SmallVectors.SmallVector.Move | include/nexus/core/small_vector.hpp:56-72 | the new vector has the other's elements, capacity, heap block and history of appends and moves; the other is an empty, usable, inline vector |
| SmallVectors.SmallVector.EmplaceBack | include/nexus/core/small_vector.hpp:103-111 | the element is appended; the capacity doubles, and every element moves, exactly when it was full |
| SmallVectors.SmallVector.Grow | include/nexus/core/small_vector.hpp:151-167 | the elements are the same in a heap block of twice the capacity |
| SmallVectors.SmallVector.Clear | include/nexus/core/small_vector.hpp:116-119 | no elements, the same capacity and storage |
| SmallVectors.SmallVector.Amortised | include/nexus/core/small_vector.hpp:151-167 | the heap is used exactly beyond the inline capacity, and growing has moved fewer than two elements per append |

## Left out

- `src/main.cpp` parsing and printing: `Serve` starts from lines already split into words and numbers; its prices are exact, and must fit the 64-bit conversion.
- The engine's node memory: nodes are fresh objects here; that the pool hands out distinct live slots, and null exactly when all are live, is proved separately for `MemoryPool`, and `Serve` counts the nodes in use.
- The engine's `trades` vector is a sequence in `MatchingEngines`; that `SmallVector` acts as one is proved separately.
- `std::map` internals: a level map is a finite map whose least key in comparator order comes first, and levels do not move.
- The two textually equal inner loops of the buy and sell sweeps are one method, `SweepLevel`, and the two halves of each `OrderBook` method share `LevelMap`; the two outer loops are separate, as in the source.
- ReduceOrder: reducing a node that does not rest while its price has a level leaves that level's cached volume wrong in the source, so the method requires otherwise; of a non-resting node at a price without a level it also asks that the book does not own it.
- CancelOrder: a node that does not rest here but is linked into some other list would damage that list; the method requires otherwise.
- Operate: withdraws and lowers resting nodes only; `Perform` also covers the calls that do nothing.
- Portfolio: floating-point rounding is not modelled, arithmetic is exact; fills on which signed 64-bit arithmetic overflows are outside the contract, being undefined in the source.
- `RollingStats::std_dev`: the square root. Rounding is not modelled, so the clamp at zero, which exists for it, is dead here.
- SpscQueue: `Push` and `Pop` run to their end while the other thread stands still, at any point of its own call; interleaving is the business of `SpscProtocol`.
- SPSC: the C++ memory model is represented by which published index an acquire load may return and which slot contents a reader may rely on, not in full; the item is a value that is copied.
- Allocators: object lifetimes, destructors and alignment of the slab from `operator new`; the block that the general heap supplies is a parameter; address arithmetic does not wrap.
- SmallVector: destructors and moved-from elements; appending an element of the vector itself while it grows.
- Cached depth is exact only below 2^64 in total; beyond that it is the sum modulo 2^64, as `DepthAgrees` states.
- Changing nodes or levels through `get_book()` behind the engine's back.
- Network, write-ahead log, risk checks, micro price, market maker, order tracker, cycle counter and thread affinity: straight-line code, operating-system calls or floating-point formulas.
- Latency and cache-line claims.
