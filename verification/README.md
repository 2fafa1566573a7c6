# A model of the exchange, its feed and its trading client

The repository is a limit order exchange with a lossy multicast feed, a trading client that mirrors the
exchange's books, and a backtester that drives the same client from recorded tapes. This project models
its hard core in Dafny and proves what it is for:

- the matching engine keeps price-time priority, trades at resting prices, conserves quantity and cash
  and is never crossed, on the intrusive linked structure with its two flat indices and not only on values;
- the public feed rebuilds the book, a snapshot restores it with every queue in order, and a consumer
  that lost any messages is right whenever it is outside recovery and is brought back by a whole snapshot;
- the client's position stays within its risk limits with orders, fills and cancels in flight;
- profit is what the cash says; the queue between threads is FIFO; the backtester's replays and its fill
  simulation do what they promise.

Several of these hold only under a condition the code does not check. Each such case has a concrete
counterexample and a theorem that says exactly when the code is right: see "Findings".

## Layout

| modules | source |
|---|---|
| Types, PriceTime, Matching, Feed, Runs, TradePrices | one book as two sequences in price-time order, its updates, its runs, its trades |
| Rings, Flatten, PriceLevels, BookIndex, LinkedBook | the circular lists and flat indices shared by both books |
| MEOrderBook; BestPrice, MarketOrderBook; TwoBooks | the exchange's book; the client's mirror with its cached best bid and offer; one after the other |
| MarketLog, Snapshot, SnapshotSynthesizer | the published log, the snapshot, the synthesizer |
| GapRecovery, MarketDataConsumer, Recovery, Progress, MatchedCycles, SplicedCycles | the consumer's state machine, its class, its safety, what it is sure to get done, and its failure |
| OrderSlots, Exposure, Quotes, OrderManager, ClientView, LiveExposure | order slots, risk check, the whole loop between client and exchange, first as a protocol and then with the matcher itself |
| PnL, PositionKeeper | profit and loss |
| RingQueue, MemPool, Vpin, VpinBuckets, LatencyHistogram | the queue between threads, the pool, the volume clock, the histogram |
| Lobster, LobsterBook, TopOfBook, Backtest, TouchFills, BacktestEngine | the two replays and the fill simulator |

Code that changes objects in place is modelled by classes whose methods are tied to functions on values;
theorems over runs are lemmas about those functions.

## Model

| member | source | states |
|---|---|---|
| `Matching.SweepIsPriceTime` | exchange/matcher/me_order_book.cpp:77-105 | The greedy walk fills a prefix of the opposite side in price-time order: whole orders, then at most one in part, stopping exactly where the aggressor is exhausted or prices no longer cross; every response and update of the prefix in order, each fill at the price of the order it takes, nothing else. |
| `Runs.FeedRebuildsBook` | exchange/matcher/matching_engine.h:33-52 | Over every run of admissible requests the public feed is legal update by update and folding it from nothing gives the exchange's own book, public fields only. |
| `Runs.MirrorAlwaysOK` | trading/strategy/market_order_book.cpp:27-109 | At every prefix of a legal feed the folded book is sorted, unambiguous and uncrossed, and the next update is legal there. |
| `Runs.NeverCrossed` | exchange/matcher/me_order_book.cpp:110-139 | Neither the exchange's book nor the mirror, at any point in the middle of a request's updates, is crossed. |
| `Runs.QuantityConserved` | exchange/matcher/me_order_book.cpp:29-72 | Per order and over every run: quantity accepted equals quantity filled, plus cancelled, plus still resting. |
| `Runs.BoughtIsSold` | exchange/matcher/me_order_book.cpp:39-56 | Over every run the quantity executed for buyers, for sellers and printed in TRADE updates is the same. |
| `TradePrices.RunTrades` | exchange/matcher/me_order_book.cpp:29-105 | Every new order of every run is accepted and then trades with the orders in line on the other side, one after the other: taker, maker and print of each fill agree on the maker's price and on one quantity, name those two orders on opposite sides, and the price is no worse than the taker's limit; the feed shows the maker first in line at that moment. |
| `TradePrices.PrintsAtTheTouch` | exchange/matcher/me_order_book.cpp:51-71 | Every TRADE of every run is at the best opposite price of the book that the feed itself shows just before it, for at most the first order there, and the next update takes exactly that quantity from that order. |
| `TradePrices.PaidIsReceived` | exchange/matcher/me_order_book.cpp:39-54 | Over every run, price times quantity told to buyers, told to sellers and printed add up to the same cash. |
| `TradePrices.CancelAnswers` | exchange/matcher/me_order_book.cpp:144-172 | A cancel of an order that rests removes that one and no other, and the response and the update say which it was, at what price and what was left of it. |
| `TradePrices.CancelRejects` | exchange/matcher/me_order_book.cpp:155-158 | A cancel of anything else, or from a client outside the table, is rejected and changes nothing. |
| `PriceTime.NextPriorityIs` | exchange/matcher/me_order_book.h:167-171 | A newcomer's priority is one if nothing rests at its price, or one more than that of the last order there. |
| `LinkedBook.LinkedBook.AddOrder` | exchange/matcher/me_order_book.h:206-223 | On the intrusive rings with both flat indices: the order joins behind its level, or on a new sorted level; structure and indices stay exact. |
| `LinkedBook.LinkedBook.RemoveOrder` | exchange/matcher/me_order_book.h:182-202 | Exactly this order leaves rings and indices, its level with it if it was alone. |
| `LinkedBook.LinkedBook.SetOrderQty` | exchange/matcher/me_order_book.cpp:36-36 | A resting order's quantity changes and it keeps its place in its queue. |
| `LinkedBook.LinkedBook.Lookup` | exchange/matcher/me_order_book.cpp:149-151 | The index by (client, order id) finds exactly the orders that a search of the book finds. |
| `PriceLevels.SideLevels.AddOrdersAtPrice` | exchange/matcher/me_order_book.h:88-141 | A new level takes its sorted place in the circular list of levels, best price first, and the flattened side gains one order behind its betters. |
| `PriceLevels.SideLevels.FindTarget` | exchange/matcher/me_order_book.h:98-118 | The walk round the levels finds the sorted place: every level before it is better than the newcomer, the one at it is worse, and it says whether the place is behind the last one. |
| `PriceLevels.SideLevels.RemoveOrdersAtPrice` | exchange/matcher/me_order_book.h:144-164 | The level leaves the circular list; the head moves on if it was the head. |
| `MEOrderBook.MEOrderBook.Match` | exchange/matcher/me_order_book.cpp:29-72 | One fill on the linked structure: the front order shrinks, or leaves when nothing is left of it, with exactly the two responses and two updates of that fill, all at the resting order's price. |
| `MEOrderBook.MEOrderBook.CheckForMatch` | exchange/matcher/me_order_book.cpp:77-105 | The loop on the linked structure computes the price-time sweep: same leftover, same book, same messages in the same order. |
| `MEOrderBook.MEOrderBook.GetNextPriority` | exchange/matcher/me_order_book.h:167-171 | One more than the priority of the last order at that price, or one if there is no level. |
| `MEOrderBook.MEOrderBook.Add` | exchange/matcher/me_order_book.cpp:110-139 | A new order is accepted, matched and, if something is left, rests, exactly as the value-level outcome says; the book stays well formed, uncrossed and unambiguous. |
| `MEOrderBook.MEOrderBook.Cancel` | exchange/matcher/me_order_book.cpp:144-172 | The client's live order is removed and announced; anything else is rejected and changes nothing. |
| `MEOrderBook.MEOrderBook.ProcessClientRequest` | exchange/matcher/matching_engine.h:33-52 | The exchange's linked book refines the value-level exchange, request by request: state, responses and updates all agree with Matching.Process, and whatever joins the structure is newly allocated, so the next request can follow. |
| `MEOrderBook.MEOrderBook.ProcessAll` | exchange/matcher/matching_engine.h:33-52 | A whole sequence of requests on the linked structure: the states, responses and updates of the run, in order. |
| `MEOrderBook.ServiceableRun` | exchange/matcher/matching_engine.h:33-52 | Such sequences are the admissible runs of the theorems over runs. |
| `BestPrice.UntouchedBest` | trading/strategy/market_order_book.cpp:36-41 | Whenever the decision leaves a side's cached quote alone, the best price and total of that side have not changed: for every update whose id, side and price are right. |
| `BestPrice.BestIs` | trading/strategy/market_order_book.h:39-69 | The quote of a side is the best price of all its orders with all the quantity at that price, or the invalid quote for an empty side. |
| `MarketOrderBook.LegalIsApplicable` | trading/strategy/market_order_book.h:181-221 | An update of the exchange's feed can be applied to the mirror's structure if and only if a newcomer's price shares its slot with no other live price and its id is within the array of orders. |
| `MarketOrderBook.FeedApplicable` | trading/strategy/market_order_book.h:181-221 | The same, if and only if, for a whole feed, update by update. |
| `MarketOrderBook.ApplicableKeepsMirror` | trading/strategy/market_order_book.cpp:44-62 | Applying an applicable update keeps ids unambiguous and within the array of orders, for any feed, not only the exchange's. |
| `MarketOrderBook.QuoteOf` | trading/strategy/market_order_book.h:41-52 | The best price of a side with the total of its level, modulo the width of a quantity. |
| `MarketOrderBook.LevelTotal` | trading/strategy/market_order_book.h:45-51 | The walk round a level's ring sums every order of it once, with unsigned 32-bit wrap-around. |
| `MarketOrderBook.MarketOrderBook.UpdateBBO` | trading/strategy/market_order_book.h:39-69 | The sides asked for are recomputed, the others keep their cached quote. |
| `MarketOrderBook.MarketOrderBook.OnMarketUpdate` | trading/strategy/market_order_book.cpp:27-109 | For every applicable update the linked mirror becomes the folded book; afterwards structure, ids and the cached best bid and offer are right if and only if the update was not a CLEAR of a used book. |
| `MarketOrderBook.MarketOrderBook.FollowAll` | trading/strategy/market_order_book.cpp:27-109 | A whole applicable feed on the linked structure: the mirror is the fold of it and its cache is right. |
| `TwoBooks.ServeAndWatch` | trading/strategy/market_order_book.cpp:27-109 | Both linked structures end to end: requests into the exchange's, what it announces into the mirror's, and the mirror holds the exchange's book, public fields only. |
| `MarketOrderBook.MarketOrderBook.ClearAll` | trading/strategy/market_order_book.cpp:72-96 | CLEAR empties the orders and leaves the price index; the structure is still well formed if and only if the book was empty before. |
| `MarketLog.LogRebuildsBooks` | exchange/market_data/market_data_publisher.cpp:31-57 | Over every run routed to all books the published log replays to the public view of each exchange book. |
| `MarketLog.LogBooksOK` | exchange/market_data/market_data_publisher.cpp:31-57 | Every prefix of a legal log replays to well-formed books. |
| `Snapshot.ListingRebuilds` | exchange/market_data/snapshot_synthesizer.cpp:102-118 | Announcing a book's orders by ascending id rebuilds every queue in its order: a snapshot preserves time priority. |
| `Snapshot.ListingAscends` | exchange/market_data/snapshot_synthesizer.cpp:108-116 | The orders of a ticker are announced by ascending id, whatever their prices. |
| `Snapshot.SnapshotRestores` | exchange/market_data/snapshot_synthesizer.cpp:83-134 | Whatever the reader held before, replaying the CLEAR and ADD frames of a cycle gives exactly the snapshotted books. |
| `SnapshotSynthesizer.TableFollows` | exchange/market_data/snapshot_synthesizer.cpp:38-81 | The synthesizer's table of orders by id follows the book under every legal update, and its assertions hold. |
| `SnapshotSynthesizer.SnapshotSynthesizer.AddToSnapshot` | exchange/market_data/snapshot_synthesizer.cpp:38-81 | The assertions pass exactly if the update fits the ticker's table and is the next one; the table of that ticker then changes as the update says, no other. |
| `SnapshotSynthesizer.SnapshotSynthesizer.Follow` | exchange/market_data/snapshot_synthesizer.cpp:38-81 | Fed the log in order, no assertion ever fails and the tables show the books as of the last update. |
| `SnapshotSynthesizer.SnapshotSynthesizer.PublishSnapshot` | exchange/market_data/snapshot_synthesizer.cpp:83-134 | The frames sent are START, the restart of every ticker in turn, END, numbered from zero, START and END both carrying the last sequence number. |
| `MarketDataConsumer.ReadSnapshot` | trading/market_data/market_data_consumer.cpp:182-203 | The loop over the ordered queue finds out whether its keys are 0, 1, 2, ... and collects the events between the markers. |
| `MarketDataConsumer.ReadIncrementals` | trading/market_data/market_data_consumer.cpp:219-235 | The loop skips what the snapshot covers, collects consecutive messages and reports the first gap, or that something lies beyond it. |
| `MarketDataConsumer.MarketDataConsumer.QueueMessage` | trading/market_data/market_data_consumer.cpp:141-157 | The queues and the attempt to resynchronise do what the state machine says, a repeated snapshot number starting the queue anew. |
| `MarketDataConsumer.MarketDataConsumer.CheckSnapshotSync` | trading/market_data/market_data_consumer.cpp:169-258 | All five ways out of the resynchronisation, with what is forwarded and what stays queued in each. |
| `MarketDataConsumer.MarketDataConsumer.OnMessage` | trading/market_data/market_data_consumer.cpp:82-107 | One received message: forwarded, ignored or queued as the state machine says; which one when is in the rows of Progress. |
| `Recovery.RecoverySafety` | trading/market_data/market_data_consumer.cpp:82-258 | Over every run with incrementals lost, repeated and reordered at will: outside recovery, what has been forwarded folds to exactly the exchange's books as of the last sequence number. |
| `Recovery.EndToEnd` | trading/market_data/market_data_consumer.cpp:82-258 | From client requests to the trade engine: a consumer outside recovery that has heard the whole log holds the public view of every exchange book. |
| `Recovery.WholeCycleRecovers` | trading/market_data/market_data_consumer.cpp:169-258 | From every reachable recovery, one complete snapshot cycle ends it if and only if no hole in the queued incrementals follows the snapshot; the consumer has then caught up, and either way expects the number after the longest gapless run of queued ones. |
| `Progress.NextIsForwarded` | trading/market_data/market_data_consumer.cpp:99-106 | Outside recovery, in every reachable state, the expected incremental is forwarded, counted, and nothing else changes. |
| `Progress.OrderedFeed` | trading/market_data/market_data_consumer.cpp:82-107 | Over every run in which incrementals 1 to n arrive in order, with publications and discarded frames in between: no recovery, the first n updates of the log forwarded as published, n + 1 expected. |
| `Progress.GapOpensRecovery` | trading/market_data/market_data_consumer.cpp:85-98 | Any other incremental opens recovery, is the first to be queued, and forwards nothing. |
| `Progress.FrameOpensRecovery` | trading/market_data/market_data_consumer.cpp:85-98 | A snapshot frame in the middle of a read opens recovery unless its number is the expected one, and stays queued only if it is a START. |
| `Progress.NothingHeardIsLost` | trading/market_data/market_data_consumer.cpp:141-157 | In every reachable recovery an incremental that arrives is queued under its number; it forwards nothing and ends nothing. |
| `Progress.LossThenCycle` | trading/market_data/market_data_consumer.cpp:82-258 | From every reachable state outside recovery: after a gap, updates i to m - 1 and one whole cycle as of `last`, the consumer is back if and only if the snapshot reaches up to i, caught up and expecting the update after the last one it knows of; otherwise it still holds all it heard. |
| `MatchedCycles.MatchedRecoverySafe` | trading/market_data/market_data_consumer.cpp:180-258 | Snapshot cycles in order but with any frames lost, STARTs included: if every recovery ends on a START and an END that carry the same number, the consumer is always right outside recovery. |
| `SplicedCycles.SpliceIff` | trading/market_data/market_data_consumer.cpp:205-216 | A queue spliced from two cycles always ends recovery at the END's number, and the consumer has caught up if and only if the tickers that the second cycle did not get to say are already as it would have said them. |
| `SplicedCycles.SplicedCyclesMislead` | trading/market_data/market_data_consumer.cpp:205-216 | A concrete run in which the END of one cycle completes the beginning of another and the consumer leaves recovery with an order the exchange has removed. |
| `OrderSlots.CheckSoundIff` | trading/strategy/risk_manager.h:43-56 | The 32-bit pre-trade check implies the real bound on position for every position and order size if and only if the limits leave room below 2^31, or the position limit is itself at least 2^31. |
| `OrderSlots.CheckIs` | trading/strategy/risk_manager.h:43-56 | With limits that fit: which of the four answers the check gives, exactly, by order size, resulting position and loss. |
| `OrderSlots.LossStops` | trading/strategy/risk_manager.h:52-53 | With any limits and position, a loss beyond the limit allows nothing. |
| `Exposure.ExposureBounded` | trading/strategy/order_manager.h:28-131 | Over every run of quotes, requests, fills, cancels and responses in flight: position and executed quantity stay within the limit, at most one order per side is live, and the client's slots are current. |
| `Exposure.ExposureBoundedIff` | trading/strategy/risk_manager.h:43-56 | The exposure bound holds over all runs if and only if the limits leave room below 2^31, or the position limit is at least 2^31. |
| `Exposure.ExposureEscapes` | trading/strategy/risk_manager.h:46-49 | For every other choice of limits there is a run that executes 2^31, beyond the limit, in orders of full size; where orders of 4096 are allowed it stays within the exchange's order ids. |
| `LiveExposure.MatcherIsProtocol` | exchange/matcher/me_order_book.cpp:29-172 | Every run of the client's order manager against the real matcher, among any requests of others, is a run of the protocol: same client, same messages in flight, and the live orders are those in the exchange's book. |
| `LiveExposure.LiveExposureBounded` | trading/strategy/risk_manager.h:43-56 | Against the real matcher: position and executed quantity stay within the limit, and the client never has two orders on one side of the book. |
| `OrderManager.OrderManager.OnOrderUpdate` | trading/strategy/order_manager.h:28-59 | Each response moves exactly the slot of its ticker and side as the state machine says. |
| `OrderManager.OrderManager.MoveOrder` | trading/strategy/order_manager.h:70-114 | Stay, withdraw or place, by slot state, price tolerance and the risk check (Quotes.QuoteDecides says when); the request sent and the slot afterwards. |
| `OrderManager.OrderManager.MoveOrders` | trading/strategy/order_manager.h:116-131 | Both sides in turn, bid first, the second move using the next free id; other tickers untouched. |
| `OrderManager.OrderManager.CancelOrders` | trading/strategy/order_manager.h:136-145 | Both sides of a ticker are withdrawn if they can be, other tickers untouched. |
| `OrderManager.QuoteIsMove` | trading/strategy/order_manager.h:70-114 | The quote step of the exposure model is the order manager's move: same slot, same request, same next id. |
| `Quotes.QuoteDecides` | trading/strategy/order_manager.h:70-114 | For every state and quote: a live order is withdrawn exactly if the quote is further from it than the tolerance, or has no price and the tolerance is below the invalid price; an empty or dead slot takes an order of that price and quantity exactly if a price was given and the check allows it; in every other case nothing is sent and nothing changes. |
| `Quotes.AnswerDecides` | trading/strategy/order_manager.h:40-58 | What each response does to its slot, and that it never changes which order is in it. |
| `Quotes.QuoteIsMet` | trading/strategy/order_manager.h:70-114 | Over every run and for any limits: after a quote made while the slot waits for nothing, and until the next one, whatever is live at the exchange on that side and not being cancelled is within tolerance of the quote; a quote without a price leaves none. |
| `Quotes.SlotsAreCurrent` | trading/strategy/order_manager.h:28-114 | Over every run and for any limits: no two live orders on a side, every live order at its slot's price, every response in flight meant for the order in its slot. |
| `ClientView.ResponsesTellLive` | exchange/matcher/me_order_book.cpp:39-172 | Over every run, a client that folds the responses addressed to it knows exactly its live orders, with side, price and quantity left, and each response fits what it then knew. |
| `ClientView.HearIsStep` | trading/strategy/trade_engine.cpp:204-215 | The exchange steps of the exposure model change live orders just as the exchange's own responses say. |
| `PnL.ProfitIdentity` | trading/strategy/position_keeper.h:43-123 | Over every run of fills and quotes: total profit is cash, plus rebates, plus the position at the price of the last fill or halfway between the last bid and ask; realised and unrealised add up to it, and the position is the net quantity. |
| `PnL.MarkIsHalfway` | trading/strategy/position_keeper.h:110-123 | A two-sided quote makes twice the total twice the cash and rebates plus the position at bid and ask. |
| `PnL.MarkIsBetween` | trading/strategy/position_keeper.h:110-123 | The total is between the value at the bid and the value at the ask. |
| `PnL.MarkMoves` | trading/strategy/position_keeper.h:110-123 | When both prices move by d the total moves by the position times d, and bid and ask may be exchanged. |
| `PnL.OpenCost` | trading/strategy/position_keeper.h:54-69 | A fill that adds is carried at its price, one that reduces leaves the average cost as it was, one that goes through zero opens the rest at its price. |
| `PnL.VolumeIsTraded` | trading/strategy/position_keeper.h:52-52 | The volume is what the fills add up to, modulo 2^32. |
| `PnL.BookedBalancedIff` | trading/strategy/position_keeper.h:53-71 | One fill keeps the books balanced if and only if it adds to the position, or the 32-bit product of positions has the sign of the real one, or price and average cancel. |
| `PnL.SmallPositionsKeepSign` | trading/strategy/position_keeper.h:66-66 | Positions within the stated bound never lose the sign. |
| `PnL.LargeFlipUnbalances` | trading/strategy/position_keeper.h:66-66 | Two fills, sell 65536 and buy 131072, after which the books do not balance. |
| `PositionKeeper.PositionInfo.AddFill` | trading/strategy/position_keeper.h:43-98 | The fields after a fill are those of the value-level accounting, for opening, reducing, closing and flipping. |
| `PositionKeeper.PositionInfo.UpdateBBO` | trading/strategy/position_keeper.h:106-123 | An open position is marked at the mid of a two-sided quote; otherwise nothing changes. |
| `RingQueue.Fifo` | common/lf_queue.h:22-43 | Producer and consumer interleaved step by step: as long as the producer stays within the ring, what the consumer reads is what was sent, in order, each once. |
| `RingQueue.LateFifo` | exchange/market_data/market_data_publisher.cpp:42-56 | With one slot to spare, even a value read after its slot has been released is the one sent. |
| `RingQueue.RoomIff` | common/lf_queue.h:22-43 | Reads are right in all interleavings if and only if the producer's room is at most the size; reads after release if and only if it is less. |
| `RingQueue.TooMuchRoom` | common/lf_queue.h:22-30 | For any larger room, an interleaving in which the consumer reads an overwritten value. |
| `RingQueue.NoSlack` | exchange/market_data/market_data_publisher.cpp:42-56 | With no slot to spare, an interleaving in which the value read after release is not the one sent. |
| `RingQueue.LFQueue.Write` | common/lf_queue.h:22-29 | The contents gain the value at the back; indices wrap; nothing else moves. |
| `RingQueue.LFQueue.Front` | common/lf_queue.h:31-33 | The slot of the oldest value, if there is one. |
| `RingQueue.LFQueue.Release` | common/lf_queue.h:35-41 | The front leaves the contents. |
| `MemPool.Capacity` | common/mem_pool.h:23-61 | Over every sequence of operations: a further object can be had exactly while fewer than size - 1 are out, so the last block is never handed out. |
| `MemPool.MemPool.Allocate` | common/mem_pool.h:23-32 | A block that was free is taken and written; success exactly if another free block remains. |
| `MemPool.MemPool.UpdateNextFreeIndex` | common/mem_pool.h:50-61 | The walk once round the pool finds a free block exactly if there is one. |
| `MemPool.MemPool.Deallocate` | common/mem_pool.h:34-41 | Succeeds exactly for a block in use, which becomes free. |
| `Vpin.VolumeConserved` | trading/strategy/vpin.h:29-44 | No trade volume is lost or counted twice: closed buckets times their size, plus the open one, grows by the trade. |
| `VpinBuckets.BucketsTell` | trading/strategy/vpin.h:29-65 | Over every tape: bucket i's imbalance times its size is the difference between what was bought and what was sold on the stretch of volume from i to i + 1 sizes, however trades straddle it; the open bucket holds the rest. |
| `Vpin.SplitTrade` | trading/strategy/vpin.h:29-44 | One trade or its two parts in turn: the same buckets. |
| `Vpin.RingSum` | trading/strategy/vpin.h:57-65 | The array, in whatever rotation, sums to the last closed buckets of the window. |
| `Vpin.MeanWithin` | trading/strategy/vpin.h:47-52 | The indicator times the number of buckets is the sum of the last ones, and lies between zero and one. |
| `Vpin.Vpin.OnTrade` | trading/strategy/vpin.h:29-44 | The loop that pours a trade into buckets is the value-level clock; what was closed stays closed. |
| `Vpin.Vpin.CloseBucket` | trading/strategy/vpin.h:57-65 | The imbalance of the full bucket replaces the oldest in the ring, and the next bucket starts empty. |
| `Vpin.Vpin.Current` | trading/strategy/vpin.h:47-52 | Nothing until the window is full; then the mean imbalance of the last buckets, between zero and one. |
| `LatencyHistogram.PercentileBound` | common/latency_histogram.h:45-65 | For every multiset of latencies and every rank: the estimate lies in the bucket of the true order statistic, hence within a factor of two of it; zero for latencies of at most one. |
| `LatencyHistogram.PercentileExact` | common/latency_histogram.h:45-65 | The estimate is the bucket's lower end plus the whole part of its width times the share of the bucket's values up to the rank. |
| `LatencyHistogram.RankIs` | common/latency_histogram.h:46-49 | The rank is the whole part of the clamped share of the count. |
| `LatencyHistogram.PercentileMonotone` | common/latency_histogram.h:45-65 | Percentiles grow with p. |
| `LatencyHistogram.CountsSum` | common/latency_histogram.h:23-33 | The buckets account for every recorded value once. |
| `LatencyHistogram.LatencyHistogram.Record` | common/latency_histogram.h:23-33 | A value lands in the bucket of its leading bit; count, sum, minimum and maximum follow; negative values count as zero. |
| `LatencyHistogram.LatencyHistogram.Percentile` | common/latency_histogram.h:45-65 | The scan computes the estimate at the rank of p clamped to the unit interval. |
| `Lobster.OidInjective` | backtest/lobster_tape_reader.cpp:22-24 | Level ids, 64-bit, are injective across sides for prices in the range the offset is meant for, and one past it they are not. |
| `Lobster.OwnOids` | backtest/lobster_tape_reader.cpp:22-24 | Within a side they are injective for all prices, negative ones included. |
| `Lobster.DiffFolds` | backtest/lobster_tape_reader.cpp:127-148 | For all rows and all iteration orders of the hash maps: the differences are legal by id in turn if and only if no new level has the id of a level of the other side, and then take a reader by id from one row to the next. |
| `Lobster.SameRowIsSilent` | backtest/lobster_tape_reader.cpp:127-148 | A row that repeats the one before sends nothing. |
| `Lobster.FitsApart` | backtest/lobster_tape_reader.cpp:22-24 | Non-negative prices, bids below 600000, keep the ids of two rows apart. |
| `Lobster.LobsterReader.DiffSide` | backtest/lobster_tape_reader.cpp:127-145 | The two loops emit exactly the differences of a side, in the orders the loops took. |
| `Lobster.LobsterReader.FillStep` | backtest/lobster_tape_reader.cpp:94-152 | A row queues its print and then its differences, bids first; a tape that has folded to the previous row folds to this one if and only if the ids are apart. |
| `Lobster.LobsterReader.Next` | backtest/lobster_tape_reader.cpp:48-56 | Updates leave in the order they were queued, none lost. |
| `LobsterBook.DiffIff` | backtest/lobster_tape_reader.cpp:127-148 | From a MarketOrderBook that shows one row, for every next row and every iteration order: all differences are applicable to its structure if and only if no new level shares a slot with its own side or the other (for bids, with the asks of the previous row) and every new level has an id that the array of orders has room for and the other side does not use; the book then shows the next row. |
| `LobsterBook.TapeIff` | backtest/backtest_engine.cpp:113-118 | The same over every tape of rows. |
| `LobsterBook.ReplayIff` | backtest/lobster_tape_reader.cpp:146-148 | Between uncrossed rows of one price window, prices in the ids' range, the replay keeps the real book intact if and only if no bid of the new row has the slot of an ask of the old one and no ask is at or above 448576 cents. |
| `LobsterBook.TickUpBreaksReplay` | backtest/lobster_tape_reader.h:26-31 | 100 bid and 101 asked, then 101 bid and 102 asked: for every iteration order some update is not applicable. |
| `LobsterBook.TickUpHappens` | backtest/lobster_tape_reader.cpp:127-148 | Iteration orders for that tape exist, so the failing replay is a real one. |
| `LobsterBook.HighAskBreaksReplay` | trading/strategy/market_order_book.h:220-220 | A row with one ask at 500000 cents: for every iteration order its id is beyond the array of orders. |
| `TopOfBook.EventIff` | backtest/backtest_engine.cpp:153-201 | Whatever the event, cancels go first, and all that is sent is applicable to the mirror if and only if the new bid and ask use different price slots and different ids. |
| `TopOfBook.RunIff` | backtest/backtest_engine.cpp:153-201 | Over every tape: everything is applicable if and only if the two are apart after each event, and the mirror then holds just them. |
| `TopOfBook.TapeIsShown` | backtest/backtest_engine.cpp:153-201 | Over every applicable tape the mirror holds the last event's bid and ask, prices and quantities, and nothing else; the same event again sends nothing. |
| `TopOfBook.SlotsDecide` | backtest/backtest_engine.h:70-76 | Until the ids have gone round once, price slots alone decide. |
| `TopOfBook.WrappedIdClashes` | backtest/backtest_engine.h:70-76 | A bid left alone while the ask changes 400000 times: the ask is given the bid's id, and the add is not applicable. |
| `TopOfBook.TopReplay.ApplyBookEvent` | backtest/backtest_engine.cpp:153-201 | Fields and sent updates after an event are those of the value-level step. |
| `Backtest.QueueLaw` | backtest/backtest_engine.cpp:387-439 | For any sequence of prints of either side at any prices: an order is filled by what reaches its price beyond the queue that was ahead of it, up to its size. |
| `Backtest.QueueLawOverRuns` | backtest/backtest_engine.cpp:387-439 | The same over whole runs of the engine, other events in between, as long as the other side's best price does not come to the order's and no request replaces it. |
| `TouchFills.EventExecutes` | backtest/backtest_engine.cpp:296-439 | For every state, event and side: a touch at or through an order that is first in its queue executes the smaller of what is left and what it shows, at the touch; through one with a queue ahead it cancels it and executes nothing; short of it, nothing; a print executes what the queue ahead leaves, at the order's price; requests execute nothing. |
| `TouchFills.RunExecutes` | backtest/backtest_engine.cpp:296-439 | Over every run, all that is ever executed on a side is that. |
| `TouchFills.SurvivorsInside` | backtest/backtest_engine.cpp:373-383 | Over every run, an order that survives a book event is strictly inside the new touch and unchanged, or was first in its queue and has taken all that the touch showed. |
| `TouchFills.PlacedOrderLaw` | backtest/backtest_engine.cpp:253-268 | From its placement on, an order is filled by the prints that reach it beyond the depth displayed where it joined: its own side's touch if it joins it, nothing otherwise. |
| `TouchFills.EventNumbers` | trading/strategy/order_manager.cpp:6-25 | Every event hands out fresh, consecutive order ids, one for each new order. |
| `TouchFills.TapeExecution` | backtest/lobster_tape_reader.cpp:101-106 | An execution of a recorded tape takes from simulated orders of the side that was hit, and of no other. |
| `Backtest.EventStepIff` | backtest/backtest_engine.cpp:113-131 | Per event and side: the order manager's slot and the simulator's order stay in step if and only if no order of size zero was asked for. |
| `Backtest.LockstepAlways` | backtest/backtest_engine.cpp:113-131 | Over every run: in step throughout if and only if no event asks for an order of size zero. |
| `Backtest.PositiveClipsStayInStep` | backtest/backtest_engine.cpp:113-131 | With positive clips they stay in step for ever. |
| `Backtest.ZeroClipBreaksStep` | backtest/backtest_engine.cpp:235-279 | One quote of size zero from the opening state and they are out of step. |
| `BacktestEngine.BacktestEngine.OnEvent` | backtest/backtest_engine.cpp:113-131 | The engine's phases in their order, on queues and slots changed in place, compute the value-level event. |
| `BacktestEngine.BacktestEngine.MatchAgainstBBO` | backtest/backtest_engine.cpp:296-385 | Both resting orders against the touch: an order at the back of a queue is cancelled, one at the front is filled. |
| `BacktestEngine.BacktestEngine.MatchAgainstTrade` | backtest/backtest_engine.cpp:387-439 | A print eats the queue ahead, then the order of the other side. |
| `BacktestEngine.BacktestEngine.PumpClientRequests` | backtest/backtest_engine.cpp:235-279 | All queued requests are taken in order and answered. |
| `BacktestEngine.BacktestEngine.PumpClientResponses` | backtest/backtest_engine.cpp:281-287 | All queued responses reach the slots in order. |

## Findings

Properties that the documentation or the shape of the code suggests and that fail on some input. The code
is modelled as it is; the last column names the theorem that says exactly when it is right.

| property | fails at | exactly when it holds |
|---|---|---|
| Leaving recovery means being caught up (trading/market_data/market_data_consumer.cpp:205-216). | `SplicedCycles.SplicedCyclesMislead`: the END of a cycle whose START was lost completes the beginning of the one before. | `SplicedCycles.SpliceIff`; always when START and END agree, `MatchedCycles.MatchedRecoverySafe`, or when frames stay within their cycle, `Recovery.RecoverySafety`. |
| CLEAR leaves an empty, usable book (trading/strategy/market_order_book.cpp:72-96). | Any book that was not empty: the price index keeps pointing at released levels. | `MarketOrderBook.MarketOrderBook.ClearAll`: well formed afterwards if and only if it was empty before. |
| The pre-trade check bounds the position (trading/strategy/risk_manager.h:46-49). | `Exposure.ExposureEscapes`: limits whose sum reaches 2^31 let the 32-bit sum wrap. | `OrderSlots.CheckSoundIff`, `Exposure.ExposureBoundedIff`. |
| A fill keeps the books balanced (trading/strategy/position_keeper.h:66). | `PnL.LargeFlipUnbalances`: the 32-bit product of old and new position wraps and the flip is missed. | `PnL.BookedBalancedIff`. |
| The publisher forwards to the synthesizer what it sent (exchange/market_data/market_data_publisher.cpp:42-56 reads the slot after releasing it). | `RingQueue.NoSlack`: a producer that uses the whole ring overwrites the slot first. | `RingQueue.RoomIff`, second clause: room less than the size. |
| Order manager and simulator stay in step (backtest/backtest_engine.cpp:235-287). | `Backtest.ZeroClipBreaksStep`: a quote of size zero. | `Backtest.EventStepIff`, `Backtest.LockstepAlways`. |
| The LOBSTER replay reproduces the exact, non-crossing book inside the real MarketOrderBook (backtest/lobster_tape_reader.h:26-31). | `LobsterBook.TickUpBreaksReplay`: the new bid is added while the old ask still holds its price slot; the book's index ignores sides, as the comment at backtest/backtest_engine.cpp:143-151 says of the other replay. `LobsterBook.HighAskBreaksReplay`: an ask at 448576 cents or above has an id beyond the array of orders, and the access that is checked ends the program. | `LobsterBook.DiffIff`, `LobsterBook.TapeIff`, `LobsterBook.ReplayIff`. |
| The mirror follows the exchange's feed (trading/strategy/market_order_book.h:98-100, 220). | Two live prices 131072 apart, or a ticker's order id from 1048576 on. | `MarketOrderBook.LegalIsApplicable`, `MarketOrderBook.FeedApplicable`. |
| Recycled synthetic ids never collide, since only two are live (backtest/backtest_engine.h:66-76). | `TopOfBook.WrappedIdClashes`: a side left alone while the other goes once round the circle. | `TopOfBook.EventIff`, `TopOfBook.RunIff`. |
| A pool of n objects hands out n (common/mem_pool.h:23-61). | The n-th request fails: taking the last free block leaves none to point at. | `MemPool.Capacity`. |

## Left out

- Sockets, threads and logging: what they deliver appears as steps that may be interleaved, lost, repeated or reordered.
- The memory model of the queue between threads: steps are interleaved, loads and stores are not reordered.
- Pool capacity inside the books: nodes are allocated without limit there, the pool is modelled on its own.
- The FIFO sequencer and the order gateway: requests arrive one at a time, in some order, from any client.
- MarketMaker, LiquidityTaker and FeatureEngine formulas: the strategies appear as arbitrary quotes.
- Parsing of tapes and configuration; LOBSTER rows and top-of-book events arrive parsed.
- Floating point is modelled over the reals; rounding is not captured.
- Signed 32-bit overflow, undefined in C++, is modelled as wrap-around.
- The client id and timestamps in the fill simulator's responses and its counters of fills and requotes.
- 64-bit counters (sequence numbers, order ids, indices) do not wrap.
- MEOrderBook.MEOrderBook.Add: requires that the new price shares its slot of the price index with no other live price, and ids within the index arrays; the source indexes without checking either.
- MEOrderBook.MEOrderBook.ProcessClientRequest: the same, through the request's range; so ProcessAll, for each request at its turn.
- MarketLog.LogRebuildsBooks: for runs that hand out ids below 2^20 per ticker, which is what the synthesizer's table holds; so Recovery.EndToEnd.
- MarketOrderBook.MarketOrderBook.OnMarketUpdate: an update that is not applicable, by slot or by id, corrupts the structure or ends the program in the source and has no contract here; when feeds are applicable is proved in FeedApplicable, LobsterBook and TopOfBook.
- Runs.QuantityConserved: for runs that hand out fewer than 2^32 ids, because the aggressor's fill report carries its id truncated to 32 bits (exchange/matcher/me_order_book.cpp:77-80).
- ClientView.ResponsesTellLive: for clients within the exchange's table; others are only ever rejected.
- RingQueue.LFQueue.Write: requires room; the source does not check, and RingQueue.TooMuchRoom shows what then happens.
- LatencyHistogram.LatencyHistogram.Percentile: values up to 2^63 - 1; the final cast of an estimate at 2^63 is not modelled.
- Vpin.Vpin.OnTrade: bucket size is fixed before trading starts.
- MatchedCycles.MatchedRecoverySafe: one way only; START and END that differ can still agree by content, and SplicedCycles.SpliceIff says when for cuts between tickers and no incrementals behind the END.
