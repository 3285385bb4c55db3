# Verification of the order book, its queue and the paper-trading engine

This project models the matching core of the repository and the components around it, and proves
what they are meant to do. `dafny verify dfyconfig.toml` checks everything.

| file | subject |
|---|---|
| `Types.dfy`, `Words.dfy` | the vocabulary of `types.hpp`; unsigned words, powers of two, masks |
| `PriceTime.dfy` | the reference book: two sequences in price-time order, filled greedily; the invariant of every reachable book |
| `Priority.dfy`, `Conservation.dfy` | price-time priority and fill-or-kill stated independently, and when the check over 64-bit totals is exact; where every unit of quantity goes |
| `SubmitRules.dfy` | submit and cancel stated on the orders, trade by trade, without the sweep |
| `Pool.dfy`, `Chains.dfy`, `BookState.dfy` | pool slots, free list, intrusive queues, level vectors and id index as values, and which edits keep them consistent |
| `PriceLevels.dfy`, `SideBook.dfy`, `OrderBook.dfy` | the engine itself, as classes that update pool, levels and index in place |
| `Fok.dfy` | the fill-or-kill walk over cached 64-bit totals, on the reference book |
| `Refinement.dfy` | whole runs of the engine against the reference book; a wrapped total; the submit/cancel round trip |
| `Spsc.dfy` | the lock-free ring: every interleaving of its atomic actions, and the class |
| `Risk.dfy`, `EngineSpec.dfy`, `Engine.dfy` | the risk gate; the trading engine from outside; the engine over the real order book |
| `EngineRules.dfy` | when a tick fills and for how much, what it does to the ledger and the quotes, when trading halts |
| `MeanReversion.dfy`, `LatencyHist.dfy`, `Telemetry.dfy` | the strategy's rolling window and cool-down, the histogram's percentiles, the publisher's batch protocol |

## How the model is built

**Pool and pointers.** A pointer to an order is the number of its pool slot, `NIL` is the null
pointer. A slot is the union of the source: either a link of the free list or a live order.
Writing through a pointer is `ObjectPool.Put`. Levels are values in a sequence, as in
`std::vector<PriceLevel>`; `ghost` fields record which slots each level's links visit.
`OrderBook.Ok` ties together free list, chains, cached totals, both sorted vectors and the index.

**Reports.** A trade callback is replaced by the list of trades the call returns. It cannot
re-enter the book or throw.

**Words.** Order ids, quantities and timestamps are 64-bit; the clock, the cached level totals, the
ring's counters and the histogram's sum wrap modulo 2^64. Prices are only compared by the book.

**What callers owe.** A Limit order carries an id that is not resting (`emplace` at
`src/order_book.cpp:63` would keep the old entry); orders that never rest may carry any id. The
pool has at least one slot. The strategy's window is at least 1. The ring is asked for at most
2^63 slots, beyond which its doubling loop does not end.

**Preemption.** The ring and the publisher are state machines whose steps are single atomic actions
or critical sections. A load of the other thread's ring index may return any value from the last
one seen up to the current one.

**Proof style.** `hide` statements keep large definitions out of proofs that do not need them.

## Where the code differs from what is said about it

- Cached level totals wrap. Once 2^64 or more rests at one admitted price the fill-or-kill check can
  refuse an order that could be filled (`Refinement.WrappedTotalRefusesFillable`); it never accepts
  one that cannot. `Priority.CheckIsExactIff` says for which books the check is right whatever the
  quantity. The reference book uses the wrapped totals, so all results about runs cover this.
- The comment at `include/order_book/risk.hpp:48-49` promises the largest quantity within both limits.
  `Risk.GateIsLargestIff` says for all inputs exactly when the gate grants it. It fails in three ways:
  - The notional limit is converted to a quantity by a division that rounds down, while the notional
    it bounds is itself rounded down, so the gate can grant less
    (`Risk.NotionalClampIsNotAlwaysLargest`).
  - From a position outside a limit on the other side it grants the whole of an order that does not
    bring the position back, although it ends outside; the position still shrinks
    (`Risk.GateMayGrantOutsideOrNothing`, `Risk.GateKeepsPosition`, `Risk.GateKeepsNotional`).
  - A quantity of 2^63 or more turns negative in the cast to a signed word and is rejected, even if
    part of it would fit (`Risk.GateMayGrantOutsideOrNothing`).
- A percentile query at 0 returns the exact minimum, one above 0 the lower edge of a bucket, so the
  result at 0 can exceed the median (`LatencyHist.PercentileZeroMayExceedMedian`). On (0, 1] results
  grow with p; on all of [0, 1] they do exactly when the minimum is 0 or a power of two from 2 on
  (`LatencyHist.ReportsGrowIff`).
- The comment at `include/order_book/latency_hist.hpp:96` speaks of a ceiling; the code rounds to the
  nearest rank (`LatencyHist.RankMayMissCeiling`). `LatencyHist.RankIsCeilingIff` says when the two
  agree.
- The comment at `include/order_book/telemetry.hpp:150` calls publish a no-op while the publisher is
  stopped. The record is queued and delivered after the next start
  (`Telemetry.PublishedWhileStoppedWaits`).

## Model

| member | source | states |
|---|---|---|
| OrderBooks.OrderBook.Submit | src/order_book.cpp:66-108 | the whole call on pool, links, levels and index is the reference book's Submit, wrapped totals included; refused exactly when resting orders fill the pool; a refused, empty or killed order changes nothing but the clock; an order that meets nothing goes to the back of its level in the first free slot |
| OrderBooks.OrderBook.Process | src/order_book.cpp:81-106 | a rejected fill-or-kill order gives its slot back and touches nothing else; any other order is swept against the opposite side and its leftover rests or is dropped, as on the reference book |
| OrderBooks.OrderBook.Cancel | src/order_book.cpp:110-124 | the call is the reference book's Cancel; succeeds exactly for an indexed id; takes out only that slot, which becomes the first free one |
| OrderBooks.OrderBook.CutOut | src/order_book.cpp:114-120 | the level found again from the order's own price is the one it is queued in; unlinking and erasing an emptied level leave a whole book |
| OrderBooks.OrderBook.Match | src/order_book.cpp:15-57 | the nested loops compute the greedy sweep of the opposite side, keep every structure consistent, and do nothing when the best price is not admitted |
| OrderBooks.OrderBook.MatchLevel | src/order_book.cpp:29-52 | the inner loop's trades are a prefix of the sweep and leave either no taker quantity or an empty level |
| OrderBooks.OrderBook.FillHead | src/order_book.cpp:30-51 | one iteration is one step of the greedy sweep, the taker strictly shrinking |
| OrderBooks.OrderBook.TakeFromBest | src/order_book.cpp:42-51 | an exhausted maker leaves queue, index and pool; a partly filled one keeps its place; totals follow |
| OrderBooks.OrderBook.FillMaker | src/order_book.cpp:41-51 | the writes of one fill: an exhausted head is deindexed, unlinked from its successor and released, a partly filled one only reduced; head, tail and total follow |
| OrderBooks.OrderBook.Execute | src/order_book.cpp:95-106 | after the sweep a Limit leftover rests in price-time order and anything else gives its slot back |
| OrderBooks.OrderBook.Rest | src/order_book.cpp:59-64 | queueing at the found or added level is insertion behind every order that is not strictly worse |
| OrderBooks.OrderBook.FokPasses | src/order_book.cpp:81-93 | the walk with its early exits passes exactly when the 64-bit totals of the admitted prices of the reference side reach the quantity |
| OrderBooks.OrderBook.Take | src/order_book.cpp:71-79 | fails exactly when the pool is exhausted; otherwise stamps the order and stores it in the first free slot |
| OrderBooks.OrderBook.constructor | include/order_book/order_book.hpp:75-78 | a new book is consistent and stands for the empty reference book |
| OrderBooks.OrderBook.Accessors | include/order_book/order_book.hpp:85-93 | best bid, best ask and the resting count report the reference book; resting orders never exceed capacity |
| OrderBooks.OrderBook.SlotsAreAccountedFor | include/order_book/order_book.hpp:101-104 | free list and queues partition the pool, no list visits a slot twice, the index is a bijection onto queued slots |
| Refinement.Replay | src/order_book.cpp:66-124 | any sequence of submits and cancels gives the replies, trades and final state of the reference run |
| Refinement.SubmitThenCancel | src/order_book.cpp:59-124 | submitting an order that meets nothing and cancelling it restores every slot, link, total, level, index entry and the free list in order |
| Refinement.Canonical | include/order_book/price_level.hpp:8-33 | levels, cached totals, heads, tails and links are determined by the queues and the orders in them |
| Refinement.CutUndoesPut | src/order_book.cpp:59-120 | taking a slot out of its level undoes queueing it, whether or not the level was new |
| PriceTime.EveryReachableBookIsGood | src/order_book.cpp:15-124 | over every legal run, with the fill-or-kill verdicts of the 64-bit totals: both sides sorted by price then arrival, positive quantities, no id twice, every bid strictly below every ask |
| PriceTime.SubmitKeepsGood | src/order_book.cpp:66-108 | one submit keeps that invariant, whatever the fill-or-kill verdict |
| PriceTime.CancelKeepsGood | src/order_book.cpp:110-124 | one cancel keeps it |
| PriceTime.MatchExhausts | src/order_book.cpp:19-27 | quantity is left over only if no remaining order is within the limit |
| PriceTime.MatchLeavesSuffix | src/order_book.cpp:29-52 | what a sweep leaves is a suffix of the queue with only its first order reduced |
| PriceTime.InsertShape | src/order_book.cpp:59-62 | a resting order goes behind all orders at better or equal prices and before all strictly worse ones |
| PriceTime.CancelTakesOneOut | src/order_book.cpp:110-124 | cancelling takes out exactly one order and keeps the relative order of the others |
| SubmitRules.SubmitFollowsTheRules | src/order_book.cpp:15-108 | one submit of any type, on the orders themselves: ids, maker price, timestamp and quantity of every trade, the limit (none for Market), what is left of the opposite side, leftover only if nothing admitted remains, where and under which timestamp a Limit leftover comes to rest, the clock; empty, refused and killed orders |
| SubmitRules.CancelFollowsTheRules | src/order_book.cpp:110-124 | a cancel succeeds exactly for a resting id, takes out exactly that order, and leaves the other side and the clock alone |
| Priority.PriorityDeterminesMatch | src/order_book.cpp:15-57 | any allocation that respects price-time priority has the trades, rest and leftover of the sweep |
| Priority.MatchRespectsPriority | src/order_book.cpp:15-57 | the sweep respects priority: a maker trades only once every order with priority over it is exhausted, inside the limit, leaving quantity only when nothing admissible remains |
| Priority.TradesFollowTheQueue | src/order_book.cpp:29-52 | trade i has the maker id and the price of order i of the queue and the taker's id and timestamp; all but the last order traded with are exhausted |
| Priority.TradePricesWorsen | src/order_book.cpp:19-37 | prices never improve for the taker and all are within its limit |
| Priority.SweepTotals | src/order_book.cpp:19-56 | a sweep trades the smaller of what is asked and what the limit admits |
| Priority.FokIsAllOrNothing | src/order_book.cpp:81-97 | a fill-or-kill order that passes the check could be filled and trades its whole quantity, one that does not trades nothing and changes no order; unless a total has wrapped the check passes exactly the orders that can be filled |
| Conservation.RunConserves | src/order_book.cpp:29-124 | over every legal run accepted quantity is twice the traded plus resting, cancelled and discarded quantity |
| Conservation.SubmitConserves | src/order_book.cpp:66-108 | the same balance for one submit, whatever the fill-or-kill verdict |
| Conservation.CancelConserves | src/order_book.cpp:110-124 | the same balance for one cancel |
| Fok.WalkIsAdmittedTotals | src/order_book.cpp:81-88 | the walk over the levels adds up, for every admitted price of the reference side, the quantity there as a 64-bit word |
| Priority.TotalsAgainstOrders | src/order_book.cpp:81-88 | those words never count more than the orders hold, and exactly that if and only if no total has wrapped |
| Priority.CheckIsExactIff | src/order_book.cpp:81-93 | the check is right for every quantity exactly when no admitted price carries 2^64 or even the wrapped totals reach every 64-bit quantity |
| Refinement.WrappedTotalRefusesFillable | src/order_book.cpp:84-92 | a new book, two sell orders of 2^63 at one price: a fill-or-kill order for one unit is refused although both could fill it |
| Pool.ObjectPool.constructor | include/order_book/pool_allocator.hpp:13-19 | the threaded free list visits all slots in order |
| Pool.ObjectPool.Acquire | include/order_book/pool_allocator.hpp:25-30 | hands out the head of the free list, or fails on an empty one |
| Pool.ObjectPool.Release | include/order_book/pool_allocator.hpp:32-38 | puts the slot at the head of the free list |
| Pool.AcquireThenRelease | include/order_book/pool_allocator.hpp:25-38 | giving back what was just acquired restores the pool link for link |
| Pool.AcquireKeepsFreeList | include/order_book/pool_allocator.hpp:25-30 | the free list stays acyclic and misses no free slot when its head is taken |
| Pool.ReleaseKeepsFreeList | include/order_book/pool_allocator.hpp:32-38 | and when a slot is returned |
| PriceLevels.PushBack | include/order_book/price_level.hpp:16-23 | the linked order is last in the queue, links, head, tail and total are right, other levels are untouched |
| PriceLevels.Unlink | include/order_book/price_level.hpp:25-32 | exactly that order leaves the queue and the total, wherever it stood |
| Chains.PushKeepsLevel | include/order_book/price_level.hpp:16-23 | links, ends and wrapped total describe the queue with the order appended |
| Chains.UnlinkKeepsLevel | include/order_book/price_level.hpp:25-32 | links, ends and wrapped total describe the queue without the order |
| Chains.ReduceKeepsLevel | src/order_book.cpp:41-43 | filling part of the head keeps the level consistent |
| Chains.ViewSorted | include/order_book/order_book.hpp:55-65 | sorted levels with their queues read as one sequence in price-time order |
| Chains.FlatDistinct | include/order_book/order_book.hpp:101-104 | no slot is queued twice on a side |
| BookState.RemovalKeepsBook | src/order_book.cpp:45-50 | taking a slot out of its queue, index and pool keeps the whole-book invariant |
| BookState.RemovalViews | src/order_book.cpp:114-122 | and removes exactly the order of that id from the view |
| BookState.QueueingKeepsBook | src/order_book.cpp:59-64 | queueing and indexing a slot keeps the whole-book invariant |
| BookState.QueueingView | src/order_book.cpp:59-62 | and is insertion in price-time order |
| SideBooks.SideBook.FindLevel | include/order_book/order_book.hpp:59-65 | the binary search returns the first level not before the price |
| SideBooks.SideBook.GetOrInsert | include/order_book/order_book.hpp:22-27 | finds the level at the price or inserts an empty one where it keeps the vector sorted |
| SideBooks.SideBook.Find | include/order_book/order_book.hpp:29-33 | finds the level at the price exactly if there is one |
| SideBooks.SideBook.EraseIfEmpty | include/order_book/order_book.hpp:35-41 | erases exactly that level, and only when it is empty |
| Spsc.FirstInFirstOut | include/order_book/spsc_queue.hpp:30-55 | in every interleaving, with stale loads and wrapping counters, popped values are a prefix of pushed ones and at most a capacity is inside |
| Spsc.PushedAreTheCalls | include/order_book/spsc_queue.hpp:32-43 | over every interleaving the pushed history is that of the values try_push was called with and published, taken from the schedule; popped values are a prefix of them |
| Spsc.StaleLoadsRefuse | include/order_book/spsc_queue.hpp:35-52 | a call that looks at an old index may be refused however much the other thread has moved on |
| Spsc.StepKeepsInv | include/order_book/spsc_queue.hpp:30-55 | every atomic action of either thread keeps the protocol's invariant |
| Spsc.NoOverwrite | include/order_book/spsc_queue.hpp:39-40 | a slot is never written while it holds a value still to be read |
| Spsc.PushFailsOnlyWhenFull | include/order_book/spsc_queue.hpp:34-37 | a push fails exactly when the ring was full at the index it loaded |
| Spsc.PopFailsOnlyWhenEmpty | include/order_book/spsc_queue.hpp:47-50 | a pop fails exactly when nothing was published at the index it loaded |
| Spsc.NeverStuck | include/order_book/spsc_queue.hpp:30-55 | a thread inside a call always has its next step, with the value it was called with |
| Spsc.TestsAreExact | include/order_book/spsc_queue.hpp:34-49 | the unsigned comparisons read the true counters in spite of wrap-around |
| Spsc.SlotIndex | include/order_book/spsc_queue.hpp:39-52 | masking a wrapped counter gives the slot of the unwrapped one |
| Spsc.PushRun | include/order_book/spsc_queue.hpp:30-42 | an uninterrupted push succeeds exactly with room and appends its value |
| Spsc.PopRun | include/order_book/spsc_queue.hpp:44-55 | an uninterrupted pop succeeds exactly on a non-empty ring and yields the oldest value |
| Spsc.SPSCQueue.constructor | include/order_book/spsc_queue.hpp:19-24 | the capacity is the least power of two that suffices |
| Spsc.SPSCQueue.TryPush | include/order_book/spsc_queue.hpp:30-42 | the call is that run of protocol steps; it appends, or fails on a full ring |
| Spsc.SPSCQueue.TryPop | include/order_book/spsc_queue.hpp:44-55 | the call is that run of protocol steps; it removes the oldest value, or leaves the caller's |
| Words.MaskIsRemainder | include/order_book/spsc_queue.hpp:20-22 | and-ing with a power of two minus one is the remainder |
| Words.WrapKeepsSlot | include/order_book/spsc_queue.hpp:39-52 | wrapping modulo 2^64 does not change the slot |
| Risk.GateKeepsPosition | include/order_book/risk.hpp:65-80 | any part of the granted quantity leaves the position within the limit, or no larger than it was |
| Risk.GateKeepsNotional | include/order_book/risk.hpp:82-100 | the same for the floored notional |
| Risk.GateShrinks | include/order_book/risk.hpp:51-107 | the gate keeps the side, never enlarges, never passes an empty order, passes nothing once halted, and passes everything without limits |
| Risk.PositionClampIsLargest | include/order_book/risk.hpp:66-80 | from within the limit the position clamp grants the largest quantity that stays within it |
| Risk.NotionalClampIsTight | include/order_book/risk.hpp:83-100 | a binding notional clamp keeps the unrounded notional within the limit and falls short of the largest floored-feasible quantity by at most ceil(10^6/px) |
| Risk.GateIsLargestIff | include/order_book/risk.hpp:43-107 | for every configuration, position, price and order: exactly when the gate grants the largest quantity within both limits, as its comment promises |
| Risk.NotionalClampIsNotAlwaysLargest | include/order_book/risk.hpp:48-49 | an order of which more than was granted would have fitted |
| Risk.GateMayGrantOutsideOrNothing | include/order_book/risk.hpp:48-49 | orders granted although they end outside a limit, and a quantity of 2^63 rejected although part of it fits |
| Risk.RiskManager.ObserveEquity | include/order_book/risk.hpp:28-38 | halted exactly when some observation was further below the peak so far than the limit; a halt is permanent |
| Risk.BreachedByOneMore | include/order_book/risk.hpp:28-38 | what one more observation does to peak and breach over the whole history |
| EngineSpec.PositionNeverExceedsLimit | src/trading_engine.cpp:100-171 | over every run the position stays within the limit it started within |
| EngineSpec.HaltedExactlyOnBreach | src/trading_engine.cpp:206-207 | over every run the engine is halted exactly when the equities it observed breach the drawdown limit |
| EngineSpec.HaltedMeansFrozen | src/trading_engine.cpp:206-215 | from the halting tick on, that tick included, the ledger never changes |
| EngineSpec.LedgerMatchesFills | src/trading_engine.cpp:144-173 | position, volume and count are exact sums of the fills; cash is off the exact flow by less than one price unit a fill |
| EngineSpec.EquityRounding | src/trading_engine.cpp:56-60 | equity is off its exact value by less than one price unit a fill and one more |
| EngineSpec.TakerIdsCountFills | src/trading_engine.cpp:154-156 | over every run taker ids count the fills modulo 2^64 |
| EngineSpec.TakerIdIsQuoteIdIff | src/trading_engine.cpp:154-156 | the next taker id is a quote's id exactly after 2^64 - 2 or 2^64 - 1 fills, modulo 2^64 |
| Engine.TradingEngine.LiveFlagsAgree | src/trading_engine.cpp:62-98 | each live flag is true exactly when its quote's id rests in the order book, and nothing else rests |
| Engine.TradingEngine.TakerIdIsFresh | src/trading_engine.cpp:154-156 | in every state a fresh engine reaches within 2^64 - 2 fills the next taker id does not rest |
| EngineSpec.FillsAreDisplayed | src/trading_engine.cpp:113-182 | a fill happens at the displayed price of its own tick for no more than was displayed or asked |
| EngineRules.FillIff | src/trading_engine.cpp:62-182 | a tick fills exactly if the market is quotable (a locked one counts), the strategy asks for something, the crossed side shows something and the gate at that side's price lets some through; the fill is then the smaller of the two, at that price and event time |
| EngineRules.LedgerMovesByFills | src/trading_engine.cpp:144-171 | position, cash, volume, count and taker id after a tick, from its fill alone; notionals round toward zero |
| EngineRules.QuotesFollowTheMarket | src/trading_engine.cpp:62-165 | cached quotes and live flags after a tick, from the market and the fill alone |
| EngineRules.MidAndEquityRoundTowardZero | src/trading_engine.cpp:56-60 | the mid (a signed halving) and equity are rounded toward zero |
| EngineRules.HaltedIff | include/order_book/risk.hpp:28-38 | over every run from the start: halted exactly if some observed equity lies further than the limit below zero or below an earlier one |
| EngineRules.EquitiesAreThose | src/trading_engine.cpp:204-207 | the equities observed are, at each ticker event and before it trades, the ledger valued at that event's mid |
| Engine.TradingEngine.RefreshQuotes | src/trading_engine.cpp:62-98 | afterwards the book holds exactly the displayed quotes, whole, both or neither, under the cached prices |
| Engine.TradingEngine.ApplyAction | src/trading_engine.cpp:100-185 | gate, on-demand quote, IOC order and booking compute the closed-form fill, and flags and book still agree |
| Engine.TradingEngine.CrossQuote | src/trading_engine.cpp:140-165 | the IOC order trades once, at the crossed quote, for the smaller quantity; the live flag falls exactly if the quote is used up |
| Engine.TradingEngine.EnsureQuote | src/trading_engine.cpp:115-135 | a quote deferred on a locked market is placed without matching anything; fails exactly when there is no quote |
| Engine.TradingEngine.OnEvent | src/trading_engine.cpp:187-216 | one popped event is one step of the closed-form engine |
| Engine.TradingEngine.RunLoop | src/trading_engine.cpp:187-217 | so is any sequence of them, fill for fill, and flags and book agree throughout |
| Engine.TradingEngine.Collect | src/trading_engine.cpp:140-152 | the callback aggregates quantity, truncated cash flow and last price of the trades |
| Engine.TakeQuote | src/trading_engine.cpp:154-156 | a marketable IOC order against the one opposite quote yields exactly one trade with it |
| Engine.RestQuote | src/trading_engine.cpp:86-96 | a quote submitted on its own side meets nothing, carries a fresh id and rests whole |
| Engine.CancelQuote | src/trading_engine.cpp:67-68 | a live quote can be cancelled and nothing else changes |
| MeanReversion.MeanReversionStrategy.OnTick | src/trading_engine.cpp:10-35 | with deque, rolling sum and counter the decision is the one the whole history of non-zero mids gives |
| MeanReversion.MeanReversionStrategy.Slide | src/trading_engine.cpp:14-19 | the deque holds the last mids and the rolling sum is theirs |
| MeanReversion.DecisionRule | src/trading_engine.cpp:10-35 | after every history: nothing before window and cool-down have passed; then a purchase of the configured quantity exactly if the mid is far enough below the mean of the window, a sale exactly if it is far enough above and not below; negative and zero means included |
| MeanReversion.ActionsAreSpaced | src/trading_engine.cpp:20-33 | no action before window plus cool-down accepted ticks, and at least a cool-down of ticks between two |
| MeanReversion.WindowSlides | src/trading_engine.cpp:14-19 | pushing and dropping the front keeps window and sum |
| MeanReversion.DecisionFromCounter | src/trading_engine.cpp:20-33 | the counter decides exactly as the history does |
| LatencyHist.LatencyHistogram.PercentileNs | include/order_book/latency_hist.hpp:88-114 | the query reports the lower bucket edge of the true order statistic at the code's rank, and the exact extremes at 0 and 1 |
| LatencyHist.LatencyHistogram.FindRank | include/order_book/latency_hist.hpp:103-113 | the accumulation stops at the bucket of the r-th smallest sample, always before the end |
| LatencyHist.LatencyHistogram.Add | include/order_book/latency_hist.hpp:55-64 | buckets, count, wrapped sum, minimum and maximum follow the samples |
| LatencyHist.LatencyHistogram.Reset | include/order_book/latency_hist.hpp:43-49 | back to no samples |
| LatencyHist.LatencyHistogram.CountsAddUp | include/order_book/latency_hist.hpp:67-77 | buckets sum to the count; minimum and maximum are exact |
| LatencyHist.PercentileIsAccurate | include/order_book/latency_hist.hpp:85-110 | with r the rank nearest to p times the count and x the r-th smallest sample, the report is 0 for an x up to 1, else a power of two at most x and more than half of it |
| LatencyHist.PercentileEnds | include/order_book/latency_hist.hpp:88-93 | 0 without samples, the smallest sample at 0 and below, the largest at 1 and above |
| LatencyHist.RankIsNearest | include/order_book/latency_hist.hpp:95-101 | the rounded and clamped rank is the nearest to p times the count, halves upward, at least 1 |
| LatencyHist.RankIsCeilingIff | include/order_book/latency_hist.hpp:95-98 | exactly when that rank is the ceiling the comment speaks of |
| LatencyHist.RankMayMissCeiling | include/order_book/latency_hist.hpp:95-98 | a case where it is not |
| LatencyHist.PercentilesGrow | include/order_book/latency_hist.hpp:88-114 | reports grow with p on (0, 1] |
| LatencyHist.ReportsGrowIff | include/order_book/latency_hist.hpp:88-114 | reports grow with p everywhere, 0 included, exactly when the minimum is 0 or a power of two from 2 on |
| LatencyHist.PercentileZeroGrowsIff | include/order_book/latency_hist.hpp:92-110 | for one later report, exactly when the report at 0 is no larger |
| LatencyHist.PercentileZeroMayExceedMedian | include/order_book/latency_hist.hpp:92-110 | a sample for which it is larger |
| LatencyHist.BucketHolds | include/order_book/latency_hist.hpp:56-59 | the highest-set-bit bucket holds 0 and 1, or a power of two up to its double |
| LatencyHist.Landed | include/order_book/latency_hist.hpp:103-111 | the bucket that brings the running count to a rank is that of the order statistic |
| Telemetry.DeliveredOnceInOrder | include/order_book/telemetry.hpp:151-249 | in every interleaving what a sink has received, what is in hand for it and the queue make up exactly the records handed to publish, in the order of the calls |
| Telemetry.PublishedAreTheRecords | include/order_book/telemetry.hpp:151-157 | over every schedule what is published is what the publish calls were given |
| Telemetry.PublishedWhileStoppedWaits | include/order_book/telemetry.hpp:150-157 | records published before a start are queued, none is dropped |
| Telemetry.StopFlushesEverythingBefore | include/order_book/telemetry.hpp:159-171 | from attaching the sinks to the return of a stop that ended a running publisher, every sink gets exactly the records handed to publish before the final drain, which covers all from before the call; later ones wait in the queue |
| Telemetry.FinalDrainDelivers | include/order_book/telemetry.hpp:234-249 | however the final drain interleaves with producers, when stop returns every sink holds exactly what had been published at the drain and the queue what came later |
| Telemetry.StopDeliversUpToDrain | include/order_book/telemetry.hpp:164-171 | every schedule from the flag of such a stop to its return contains a final drain, and a sink then holds exactly the records published up to it |
| Telemetry.StopCanFinish | include/order_book/telemetry.hpp:164-249 | no deadlock: from wherever the threads stand after the flag of a stop there is a way on to its return without any producer |
| Telemetry.WorkerLeavesNothing | include/order_book/telemetry.hpp:222-227 | the worker leaves only when stopped, with the queue empty and everything delivered |
| Telemetry.InitiallyInv | include/order_book/telemetry.hpp:251-257 | a publisher that has not been started satisfies the protocol's invariant, with any number of sinks |
| Telemetry.StepKeepsInv | include/order_book/telemetry.hpp:151-249 | every step of producers, worker and controlling thread keeps the protocol's invariant |
| Telemetry.WriteAccounts | include/order_book/telemetry.hpp:244-249 | writing a line moves one record from what is owed to a sink to what it has |

## Left out

- Submitting a Limit order under an id that is already resting: the source keeps the old index entry and the new order can no longer be cancelled.
- Throwing or re-entrant trade callbacks, and resource exhaustion of the standard containers.
- Overflow of signed 64-bit positions, cash and notionals: ledger and gate use unbounded integers, except for the cast of a requested quantity to a signed word in the gate.
- Floating point: percentile ranks, means and deviations in basis points are exact reals; `mean_ns`, `to_price` and `from_price` are not modelled.
- More than 2^64 samples, ticks between actions, or fills: those counters are natural numbers.
- C++ memory ordering beyond bounded staleness of index loads: slots are read and written in step order.
- Liveness: that a blocked worker wakes, that `stop` returns (only that it can), that a spinning feed gets its event in.
- The engine's taker ids return to the quotes' ids after 2^64 - 2 fills (`EngineSpec.TakerIdIsQuoteIdIff`); those orders never rest, so the book accepts them.
- Reads of the position by the status loop while the engine runs, and the engine's start and stop flags.
- Sinks attached while the publisher runs, line formatting, file and WebSocket sinks, condition-variable details.
- Network feeds, JSON parsing, the random-walk feed, the demo, the benchmark, the dashboard and command-line handling.
- Cache-line layout, prefetching and branch hints.
- TryPop: the moved-from slot keeps its value in the class; the protocol lets it hold anything.
