# Verified core of the exchange

A Dafny model of the parts of the exchange that move orders and money, with proofs about whole runs of them:

- the **matching engine**: price levels kept in a heap, a first-in-first-out queue per level, an id index, and the loop
  that matches an incoming order (`Orders`, `Matching`, `MatchingLaws`, `PriceQueues`, `LevelWalk`, `BookSides`,
  `OrderBooks`, `BookRuns`, `Outcomes`, `Tally`, `EngineRuns`, `PublishRuns`, `MatchingEngines`);
- the **ledger**: reservations, releases and double-entry settlement over balances, reservations, journal and
  processed events (`MapSums`, `Entries`, `LedgerSteps`, `LedgerLaws`, `LedgerRuns`, `LedgerExact`, `LedgerProgress`,
  `LedgerAnswers`, `LedgerExamples`, `LedgerStore`), and settlement transactions that run at the same time (`Settlements`,
  `SettlementProgress`);
- the **order intake**: the orders table (`OrderTable`, `OrderRuns`) and concurrent submissions (`Submissions`);
- the services **together**: fills and reservations across the engine, the orders table and the ledger (`Compose`,
  `Clearing`, `Refunds`);
- the **order consumer** with its event deduper (`Dedupers`, `Consumers`, `PublishExamples`), the **fee-tier cache**
  (`TierCaches`) and the fixed-window **limiter** (`Limiters`).

Each mutable object of the program is a class (`BookSide`, `OrderBook`, `MatchingEngine`, `Store`, `OrderStore`,
`EventDeduper`, `OrderConsumer`, `TierCache`, `MemoryLimiter`). Its methods are proved equal to pure step functions on
the object's abstract value, and the theorems are about all runs of those steps.

Reading guide to the main results:

1. `OrderBook.MatchOrder` computes exactly `Match`; `Match` walks the book greedily; the walk equals the declarative
   waterfall, in which each maker's share depends only on what is available ahead of it. `MatchIs` says of every order
   what comes of it; the other operations have such a law too (`ReserveAnswers`, `SettleAnswers`, `CancelAnswers`,
   `TradeAnswers`, `AloneIs`, `OutcomeIs`).
2. In every run from empty books, crossed resting orders belong to one account, and it is stated exactly which
   submissions cross the book. The trades of every order add up to its fill and never exceed its quantity, as long as
   the engine is given each order once; with failed publishes the published trades are a part of them.
3. Everything an order's trades use up fits in what was reserved for it, so an unreleased reservation always covers the
   order's leg of a trade that is still to be settled. The consumer gives the engine each order once, as items 2 and 3
   ask, if and only if no order reaches it again after a failed publish; a concrete run shows an order overfilled when
   one does.
4. Every ledger run conserves each asset, keeps balances non-negative, keeps locked funds within the active
   reservations, and is explained row by row by the journal. Equality of locked funds and reservations is false in
   general: a repeated release, a partial cover, a fee and an order without id each break it in a concrete run, and
   `TightRunIff` states for all runs exactly when it holds.
5. Under every interleaving of settlement transactions the ledger is what a serial run makes of it, and a trade settles
   at most once. Under every interleaving of submissions there is one order per client id, and a reservation is
   orphaned exactly when the error of a reserve hides that it was granted, or a compensating release does not take
   effect.
6. With every order reserved and no fees, all trades of an engine run settle, in any order and with any repetition, and
   releasing an order afterwards returns exactly what it did not pay: the price improvement of a filled limit buy,
   nothing for a filled sell.
7. Trades delivered to the orders table in any order and with any repetition never hit the clamp.

Decimals are exact `real` numbers; the program only adds, multiplies and compares them here. Ids, accounts, symbols and
asset names are opaque values, `NONE` standing for a blank one. A trade id is the pair of taker id and index from which
the program derives it. Where the documents ask for idempotent handling of events, the code is followed: settlement and
trade application are idempotent (`SettledAtMostOnce`, `ReplayIsNoOp`), a release is not (`ReleaseTwice`),
nor is an order whose trades could not all be published (`SkippedIffPublished`). A random id, the clock, the risk
decision and the fee quote are inputs.

## Model

| member | source | states |
|---|---|---|
| `MatchingLaws.WalkIsWaterfall` | services/matching/internal/engine/matcher.go:62-130 | the greedy loop gives each crossing maker that is not the taker's own the part of the quantity left by everything available ahead of it, at the maker's price; it keeps exactly the unfilled makers and drops own orders exactly on levels that hold nothing else |
| `MatchingLaws.CanFillIffWalkFills` | services/matching/internal/engine/matcher.go:146-193 | the dry run says yes exactly when the matching loop would leave nothing remaining |
| `MatchingLaws.FillOrKill` | services/matching/internal/engine/matcher.go:36-40 | a fill-or-kill order is filled completely, when the book has that much for it, and otherwise changes neither the book nor the order and makes no trade |
| `MatchingLaws.RestOrigin` | services/matching/internal/engine/matcher.go:95-128 | every order left on the opposite side is one of before, changed at most by a larger fill, and still wants to trade |
| `MatchingLaws.HungryLeavesOnlyOwn` | services/matching/internal/engine/matcher.go:62-130 | a taker that still wants more has left nothing at a crossing price but its own orders |
| `BookRuns.MatchKeepsWellFormed` | services/matching/internal/engine/matcher.go:12-144 | matching keeps both sides in price-time order with distinct ids, each order on its side and still wanting to trade |
| `BookRuns.MatchKeepsUncrossed` | services/matching/internal/engine/matcher.go:62-141 | matching never leaves a crossed pair of two accounts |
| `BookRuns.OnlyOwnOrdersCross` | services/matching/internal/engine/matcher.go:62-141 | in every run of submissions and withdrawals from an empty book, a resting bid and ask whose prices cross belong to the same named account |
| `BookRuns.OwnOrdersCanCross` | services/matching/internal/engine/matcher.go:103-106 | for any two accounts, three orders after which an account's own bid and ask rest at crossing prices |
| `BookRuns.HungryLeavesExactly` | services/matching/internal/engine/matcher.go:62-130 | a taker that still wants more has left, unchanged, exactly the orders it does not reach and its own orders on levels shared with others |
| `BookRuns.MatchKeepsStrictIff` | services/matching/internal/engine/matcher.go:83-141 | a submission leaves some bid at or above some ask if and only if it wants more than all it can take, may rest under its id, and its price reaches an own order that shares its level with others; for every order and every book with all bids below all asks |
| `BookRuns.StrictRunIff` | services/matching/internal/engine/matcher.go:83-141 | along a run every bid stays below every ask if and only if no submission meets that condition |
| `PriceQueues.QueuesDetermineSide` | services/matching/internal/engine/orderbook.go:190-211 | a side in priority order is determined by its queues, price by price |
| `PriceQueues.PlaceInQueue` | services/matching/internal/engine/orderbook.go:190-211 | an order's place in its level's queue is the number of orders at that price ahead of it on the side |
| `BookSides.RootIsBest` | services/matching/internal/engine/orderbook.go:213-233 | the root of the price heap is the best price of the side |
| `BookSides.BookSide.Swap` | services/matching/internal/engine/orderbook.go:235-239 | swapping two heap positions keeps every level's stored index right and all queues unchanged |
| `BookSides.BookSide.Up` | services/matching/internal/engine/orderbook.go:190-200 | sifting up restores the heap after a push |
| `BookSides.BookSide.Down` | services/matching/internal/engine/orderbook.go:202-211 | sifting down restores the heap below a displaced level, or reports that it did not move |
| `BookSides.BookSide.RemoveLevel` | services/matching/internal/engine/orderbook.go:202-211 | removing a level at its own heap position leaves the other levels a heap with right indices and unchanged queues |
| `BookSides.BookSide.Best` | services/matching/internal/engine/orderbook.go:213-218 | the best level is that of the first order of the side, with its whole queue, and no level has a better price |
| `BookSides.BookSide.SortedPrices` | services/matching/internal/engine/matcher.go:47-58 | the levels' prices, all of them, best first |
| `BookSides.BookSide.Add` | services/matching/internal/engine/orderbook.go:190-200 | an added order queues behind all orders of a better or equal price; levels, heap, indices and queues still agree |
| `BookSides.BookSide.Remove` | services/matching/internal/engine/orderbook.go:202-211 | removing an order removes just it, and its level with it when it was the last; levels, heap, indices and queues still agree |
| `OrderBooks.OrderBook.constructor` | services/matching/internal/engine/orderbook.go:63-70 | a new book is empty and its views agree |
| `OrderBooks.OrderBook.AddOrder` | services/matching/internal/engine/orderbook.go:103-139 | adding keeps index, queues, levels and heaps in agreement; a known id, a market order and an exhausted order are silently ignored; a blank id or an unknown side is an error and changes nothing |
| `OrderBooks.OrderBook.RemoveOrder` | services/matching/internal/engine/orderbook.go:141-169 | removing keeps the views in agreement, removes exactly the named order, and reports whether it was indexed |
| `OrderBooks.DrainQueue` | services/matching/internal/engine/matcher.go:165-190 | one level of the dry run subtracts what the level offers the taker, stopping once it is covered |
| `OrderBooks.Owners` | services/matching/internal/engine/matcher.go:69-84 | the ownership scan finds another's live order if and only if there is one, and the taker's own live orders when there is no other |
| `OrderBooks.OrderBook.CanFillOrder` | services/matching/internal/engine/matcher.go:146-193 | the dry run over the sorted levels computes whether the side has enough for the order |
| `OrderBooks.OrderBook.MatchSide` | services/matching/internal/engine/matcher.go:42-130 | the loop over levels and queues makes exactly the trades of the walk and leaves exactly its side; the taker's own side is untouched |
| `OrderBooks.OrderBook.MatchOrder` | services/matching/internal/engine/matcher.go:12-144 | book, taker, trades and error are exactly those of the specification, and all views of the book agree again |
| `Outcomes.AcceptedIff` | services/matching/internal/engine/matcher.go:19-34 | an order can be matched exactly when its side and type are known, its quantity is positive, and so is its price if it is a limit order; the first of these to fail names the error |
| `Outcomes.CrossesIff` | services/matching/internal/engine/matcher.go:195-208 | a market order accepts every price, a limit buy those at most its own, a limit sell those at least its own |
| `Outcomes.MatchIs` | services/matching/internal/engine/matcher.go:12-144 | every match, whatever the order: a refused or killed one leaves no trace; any other trades with each crossing maker for its share, takes all it can, leaves exactly the survivors opposite, and what is left of a limit order that is neither IOC nor FOK joins the end of one queue of its side, an error if its id is blank |
| `Outcomes.RestIs` | services/matching/internal/engine/orderbook.go:110-139 | an order with a new id and something left that is not a market order joins the end of the queue at its price; every other queue stays |
| `Outcomes.CancelIs` | services/matching/internal/engine/orderbook.go:148-169 | a cancellation takes exactly the named order out of its queue |
| `MatchingEngines.MatchingEngine.GetOrderBook` | services/matching/internal/engine/engine.go:144-165 | the book of the symbol, made empty on demand; other books are unchanged; a blank symbol has the book named UNKNOWN |
| `MatchingEngines.MatchingEngine.Publish` | services/matching/internal/engine/engine.go:65-72 | the trades are published in order, numbered from zero, up to the first publish that fails |
| `MatchingEngines.MatchingEngine.ProcessOrder` | services/matching/internal/engine/engine.go:53-76 | one book matched with the order as it comes, all other books unchanged, the numbered trades published; an unacceptable order is an error without effect, a failing publish an error that leaves the match done and the earlier trades out |
| `EngineRuns.AttemptIsProcess` | services/matching/internal/engine/engine.go:53-76 | with every publish succeeding, an order without fills takes the engine's step of the run theorems |
| `Outcomes.AttemptIs` | services/matching/internal/engine/engine.go:53-76 | an order without id, symbol or matchable fields is an error without effect; any other is matched on its symbol's book alone, and its trades are published in order, numbered from zero, until one fails |
| `Outcomes.RecallIs` | services/matching/internal/engine/engine.go:78-81 | a cancellation goes to its symbol's book, or without a symbol to the one named UNKNOWN, and to no other |
| `MatchingEngines.MatchingEngine.CancelOrder` | services/matching/internal/engine/engine.go:78-81 | the order leaves the book of that symbol, other books are unchanged, and the answer says whether it was there |
| `EngineRuns.TakerTally` | services/matching/internal/engine/matcher.go:108-127 | a taker's trades add up to what it was filled by |
| `EngineRuns.MakerTally` | services/matching/internal/engine/matcher.go:108-127 | a maker's trades in one match stay within what it had left, and its fill grows by exactly their sum |
| `EngineRuns.FillsAddUp` | services/matching/internal/engine/engine.go:53-76 | in every run with each order id once: every order's trades sum to at most its quantity and to exactly the fill of a resting order; every trade joins two opposite orders that are not of one named account, at a price both accept; trade ids are distinct |
| `EngineRuns.ReservationsSuffice` | services/order-ingest/internal/service/order_service.go:563-582 | the notional of all trades of a limit buy, and the quantity of all trades of a sell, never exceed the amount reserved at submission |
| `PublishRuns.RunFollows` | services/matching/internal/engine/engine.go:53-76 | whatever fails to be published, in every run of any commands: the books and orders are those of the run in which nothing fails, and the published trades are part of the trades made, in their order |
| `PublishRuns.PublishedFillsBounded` | services/matching/internal/engine/engine.go:53-76 | with each order id once and any failed publishes: every order's published trades sum to at most its quantity and to at most the fill of a resting order, each is sound, and their ids are distinct |
| `PublishRuns.PublishedWithinReserved` | services/order-ingest/internal/service/order_service.go:563-582 | and use up at most what was reserved for a limit order or sell |
| `Entries.NettingPreserves` | services/ledger/internal/storage/postgres.go:1243-1285 | netting keeps the signed sum over every selection of rows and yields at most one entry per row, of positive amount |
| `Entries.NettedAt` | services/ledger/internal/storage/postgres.go:1243-1285 | a row has no netted entry exactly when its net is zero; otherwise its entry is that net, a debit exactly when negative |
| `Entries.AggregateEntries` | services/ledger/internal/storage/postgres.go:1243-1285 | the index-and-slice loop computes the netting |
| `Entries.ApplyEntryMoves` | services/ledger/internal/storage/postgres.go:1204-1241 | an applied entry changes available plus locked by its signed amount, leaves both non-negative, and takes from locked only what a debit may draw |
| `Entries.ApplyAllPointwise` | services/ledger/internal/storage/postgres.go:475-494 | with distinct rows, applying succeeds if and only if every entry succeeds on its own row as it was, and then changes just those rows |
| `Entries.AnyOrder` | services/ledger/internal/storage/postgres.go:475-494 | netted entries may be applied in any order: same balances, same success or failure |
| `Entries.ApplyAllConserves` | services/ledger/internal/storage/postgres.go:475-524 | applying entries adds to each asset exactly their net in it and keeps every row non-negative |
| `LedgerLaws.DoubleEntry` | services/ledger/internal/storage/postgres.go:1168-1202 | a settlement's entries sum to zero in every asset, whatever the sides, accounts and fees |
| `LedgerLaws.BookMoves` | services/ledger/internal/storage/postgres.go:393-524 | a booked trade changes each row by its net, and takes a net debit from locked funds first where the row may draw on them |
| `LedgerLaws.BookActiveSum` | services/ledger/internal/storage/postgres.go:990-1063 | a booked trade takes out of each row's active reservations exactly what it used of the two orders' reservations |
| `LedgerLaws.CoverInUse` | services/ledger/internal/storage/postgres.go:990-1015 | a positive cover comes from an active reservation of that very row and is within what it has left |
| `LedgerLaws.ReserveKeeps` | services/ledger/internal/storage/postgres.go:102-201 | reserving moves money from available to locked and adds as much to the active reservations |
| `LedgerLaws.ReleaseKeeps` | services/ledger/internal/storage/postgres.go:203-280 | releasing, repeated or not, creates no money and keeps locked funds within the active reservations |
| `LedgerLaws.BookKeepsBound` | services/ledger/internal/storage/postgres.go:393-511 | a booked trade keeps locked funds within the active reservations of every row |
| `LedgerRuns.RefusalsChangeNothing` | services/ledger/internal/storage/postgres.go:294-380 | a refused reservation, an empty release and a failed settlement change nothing; a duplicate settlement only records its event |
| `LedgerRuns.MoneyIsConserved` | services/ledger/internal/storage/postgres.go:154-164 | every run conserves each asset over all accounts, the fee account included, keeps both balances of every row non-negative and every reservation within 0 and its amount |
| `LedgerRuns.LockedWithinReservations` | services/ledger/internal/storage/postgres.go:102-280 | in every run whose settlements are on the reserving accounts, every row's locked funds stay at most the sum its active reservations still hold |
| `LedgerRuns.JournalExplainsBalances` | services/ledger/internal/storage/postgres.go:526-566 | in every run, what a row holds beyond its opening balance is the signed sum of its journal entries |
| `LedgerExact.LockedEqualsReservations` | services/ledger/internal/storage/postgres.go:393-511 | with no fees, full covers and releases only of active or used-up reservations, locked funds equal the active reservations all along |
| `LedgerExact.BookKeepsTightIff` | services/ledger/internal/storage/postgres.go:402-511 | any booked settlement on the reserving accounts keeps locked funds equal to the active reservations if and only if, on both paying rows, what it pays is within the order's cover, or the cover is all that is locked there, or, without a cover, it has an order id or nothing is locked |
| `LedgerExact.FeeKeepsTightIff` | services/ledger/internal/storage/postgres.go:1204-1241 | with full covers and fees in the quote asset that comes down to: the buyer pays no fee or had nothing beyond the price locked |
| `LedgerExact.TightRunIff` | services/ledger/internal/storage/postgres.go:102-580 | over every run on the reserving accounts, locked funds equal the active reservations all along if and only if every settlement meets that condition and every release is of an active or used-up reservation or of a row with nothing locked |
| `LedgerExamples.TradeBreaksTight` | services/ledger/internal/storage/postgres.go:402-511 | from concrete reservations, every trade that pays more than the order's own reservation holds, by its price or by a fee, or that has no order id, books and breaks the equality |
| `LedgerExamples.ThreeBrokenRuns` | services/ledger/internal/storage/postgres.go:415-442 | one concrete run each: a partial cover, a fee, and a blank order id |
| `LedgerExact.ReleaseKeepsTightIff` | services/ledger/internal/storage/postgres.go:227-268 | releasing keeps locked funds exact if and only if the reservation is active, is used up, or nothing is locked on its row |
| `LedgerExact.ReleaseTwice` | services/ledger/internal/storage/postgres.go:227-268 | a second release pays out again as much as the first did, as far as other orders have funds locked there, while their reservations stay as they are |
| `LedgerExact.SecondReleaseBreaks` | services/ledger/internal/storage/postgres.go:227-268 | a concrete run of two reservations and one release that is exact, and no longer is after releasing the same order again |
| `LedgerExact.ConsumedIsPaid` | services/ledger/internal/storage/postgres.go:1017-1063 | in an exact run an unreleased reservation has been used for exactly the sum of the order's legs |
| `LedgerExact.ReleaseReturnsRest` | services/ledger/internal/storage/postgres.go:203-280 | releasing an unreleased order of an exact ledger moves exactly what it did not use from locked to available |
| `LedgerExact.BuyerSaves` | services/ledger/internal/storage/postgres.go:1168-1202 | (limit - price) * quantity is what a buy would have paid at its limit less what it pays, as maker and as taker |
| `LedgerExact.BuyRefund` | services/ledger/internal/storage/postgres.go:203-280 | an order whose trades are buys and fill it gets back exactly the sum of (limit - price) * quantity over its settled trades, and nothing of its reservation stays locked |
| `LedgerExact.SellRefund` | services/ledger/internal/storage/postgres.go:203-280 | an order whose trades are sells and fill it gets nothing back |
| `LedgerProgress.ReserveGrantedIff` | services/ledger/internal/storage/postgres.go:129-201 | a new order's reservation is granted exactly when the row has that much available, and asking again returns it unchanged |
| `LedgerProgress.ReleaseUndoesReserve` | services/ledger/internal/storage/postgres.go:203-280 | releasing a reservation at once returns the whole amount and leaves every row as it was |
| `LedgerProgress.EntryAppliesIff` | services/ledger/internal/storage/postgres.go:1204-1241 | an entry applies to a row exactly when the row can spend that much, locked funds counting where they may be used |
| `LedgerProgress.BookSucceedsIff` | services/ledger/internal/storage/postgres.go:382-511 | a settlement can be booked if and only if it has entries, its reservations are in the right assets, and every row can pay its net |
| `LedgerProgress.CoveredSettlesIff` | services/ledger/internal/storage/postgres.go:294-580 | on an exact ledger a fully covered settlement that is not a duplicate goes through if and only if buyer and seller can afford their fees, and fails otherwise |
| `LedgerProgress.FreeOfFeesSettles` | services/ledger/internal/storage/postgres.go:294-580 | without fees it always goes through |
| `LedgerAnswers.ReserveAnswers` | services/ledger/internal/storage/postgres.go:102-153 | the four answers to a reserve, each exactly when: insufficient, closed, rejected, reserved |
| `LedgerAnswers.ReserveEffect` | services/ledger/internal/storage/postgres.go:129-201 | a repeated reserve returns the stored reservation and changes nothing; a new one moves the amount from available to locked on its row, opens the reservation, and touches nothing else |
| `LedgerAnswers.ReleaseIs` | services/ledger/internal/storage/postgres.go:203-280 | a release answers not found exactly for an order without reservation, and otherwise moves what is left of it, as far as it is locked, back to available and leaves it used up or released |
| `LedgerAnswers.CoverIs` | services/ledger/internal/storage/postgres.go:990-1015 | a cover is refused exactly for an active reservation in another asset, and is otherwise as much of the wanted amount as an active reservation still holds |
| `LedgerAnswers.ConsumeIs` | services/ledger/internal/storage/postgres.go:1017-1063 | using an active reservation adds to its consumed amount as far as it goes and closes it when nothing is left; others stay |
| `LedgerAnswers.UsedIs` | services/ledger/internal/storage/postgres.go:402-460 | a settlement uses of each order's reservation as much of what the row pays as is covered; where both orders pay from one row, both use what the taker's cover gives |
| `LedgerAnswers.SettleAnswers` | services/ledger/internal/storage/postgres.go:294-511 | the answers to a settlement, each exactly when: processed if its event was handled or its trade is in the journal, settled if it is good, new, covered in the right assets and payable, failed otherwise |
| `LedgerAnswers.SettleRemembers` | services/ledger/internal/storage/postgres.go:348-380 | a settlement that settles or finds itself settled has its event on record, and no other event more than before; a settled one has its trade in the journal |
| `LedgerAnswers.EventReplayIsNoOp` | services/ledger/internal/storage/postgres.go:348-363 | after any further run, a request with the event of a settlement that went through, whatever trade it names, is answered as processed and changes nothing |
| `LedgerAnswers.TradeReplayIsNoOp` | services/ledger/internal/storage/postgres.go:365-380 | after any further run, a request for a settled trade, whatever event carries it, is answered as processed and moves nothing |
| `LedgerStore.Store.ReserveBalance` | services/ledger/internal/storage/postgres.go:102-201 | the tables and the answer after a reserve: idempotent on an active reservation, closed, mismatching and insufficient ones refused without effect |
| `LedgerStore.Store.ReleaseReservation` | services/ledger/internal/storage/postgres.go:203-280 | the tables and the answer after a release, whatever the reservation's status |
| `LedgerStore.UseCovers` | services/ledger/internal/storage/postgres.go:402-460 | which debits draw on locked funds, and how much of each cover the net debits use |
| `LedgerStore.ApplyEntries` | services/ledger/internal/storage/postgres.go:461-494 | reading rows on demand and applying the entries to them succeeds and ends as applying them to all balances does |
| `LedgerStore.Store.InsertRows` | services/ledger/internal/storage/postgres.go:526-557 | the journal gains one row per netted entry, and no two rows of a trade share an account row |
| `LedgerStore.Store.ApplySettlement` | services/ledger/internal/storage/postgres.go:294-580 | the whole transaction, for every request: invalid and failing requests change nothing, duplicates record the event, and any other books balances, reservations, journal and event together; two orders paying from one row share the taker's cover |
| `Settlements.AnchorSurvives` | services/ledger/internal/storage/postgres.go:1168-1202 | netting never cancels the maker's base leg of a trade between two accounts with fees in the quote asset |
| `Settlements.BookedCollides` | services/ledger/internal/storage/postgres.go:526-541 | so a second insert for a booked trade always violates the unique index, whatever its fees |
| `Settlements.InsertIsSettle` | services/ledger/internal/storage/postgres.go:475-560 | a commit of buffered rows is the atomic settlement taken at the moment of the commit |
| `Settlements.ScheduleIsSerial` | services/ledger/internal/storage/postgres.go:335-566 | under every interleaving of checks, locks, reads, inserts, crashes, reserves and releases, the ledger equals a serial run of atomic operations |
| `Settlements.SettledAtMostOnce` | services/ledger/internal/storage/postgres.go:348-566 | under every interleaving at most one settlement of a trade commits, and money is conserved |
| `Settlements.UnsettledHasNoEffect` | services/ledger/internal/storage/postgres.go:348-380 | a transaction that ends otherwise changes nothing but, when the trade is booked already, the record of its event |
| `SettlementProgress.AloneIsSettle` | services/ledger/internal/storage/postgres.go:335-566 | a transaction let through without interruption does what the atomic settlement does, ends with its answer, and gives up the lock |
| `OrderTable.OrderStore.CreateOrder` | services/order-ingest/internal/storage/postgres.go:51-89 | the row is stored unless the account has used the client id, in which case that order is returned |
| `OrderTable.OrderStore.CancelOrder` | services/order-ingest/internal/storage/postgres.go:254-282 | only a pending or open order of the account is cancelled; the two errors are told apart and change nothing |
| `OrderTable.OrderStore.ApplyTradeExecution` | services/order-ingest/internal/storage/postgres.go:300-374 | all fills of an event are applied, or none; a seen event changes nothing; orders that become filled are reported |
| `OrderRuns.OrdersOnlyGrow` | services/order-ingest/internal/storage/postgres.go:254-369 | over every run cancelled and rejected orders stay as they are, fills only grow and stay within the quantity, an order is filled exactly when its fill is its quantity, and it is reported once if it becomes filled and never otherwise |
| `OrderRuns.ReplayIsNoOp` | services/order-ingest/internal/storage/postgres.go:309-325 | applying an event again, after anything else happened, changes nothing |
| `OrderRuns.CancelIsFinal` | services/order-ingest/internal/storage/postgres.go:254-282 | a granted cancellation is final: whatever follows, the row changes no more, cannot be cancelled again, and no trade with it is applied |
| `OrderRuns.CreateIs` | services/order-ingest/internal/storage/postgres.go:51-89 | a row is stored exactly when the account has not used its client id, the id is new and the row is acceptable; then only that row is added |
| `OrderRuns.CancelAnswers` | services/order-ingest/internal/storage/postgres.go:254-282 | the answers to a cancellation, each exactly when: done for the account's own pending or open order, whose status alone changes; not found for any other account or id; invalid status otherwise, without effect |
| `OrderRuns.FillsApplied` | services/order-ingest/internal/storage/postgres.go:319-352 | each order ends with all that the fills hand it, at most its quantity, and is filled when it reaches that and open when it does not; an order no fill names stays as it is |
| `OrderRuns.TradeAnswers` | services/order-ingest/internal/storage/postgres.go:300-369 | the answers to an executed trade, each exactly when: processed for a seen event, applied when every fill names a stored order that is not closed; only an applied one changes the table, and it records its event |
| `Submissions.PhaseStays` | services/order-ingest/internal/service/order_service.go:140-331 | a submission's hold on its own order and reservation is not disturbed by anything that leaves these alone |
| `Submissions.OneOrderPerClient` | services/order-ingest/internal/service/order_service.go:140-331 | however submissions interleave and fail, there is at most one stored order per account and client id; once a submission has ended, it was accepted exactly when its order is stored as pending, and its order holds an active reservation exactly when it was accepted with one to make or a ledger error stranded it; and unless it ended in an error its client id has a stored order |
| `Submissions.LedgerFailureKeepsPhase` | services/order-ingest/internal/service/order_service.go:254-308 | a ledger call that reports an error leaves an active reservation behind exactly when it was a reserve that took effect with enough available, or a release that did not take effect |
| `Submissions.StrandedIff` | services/order-ingest/internal/service/order_service.go:254-308 | over every schedule, a submission ends up stranded if and only if one of its ledger errors met that condition when it occurred |
| `Submissions.OrphanedIff` | services/order-ingest/internal/service/order_service.go:254-308 | an ended submission's reservation is active without a pending order stored for it if and only if one of its ledger errors met that condition |
| `Submissions.NoOrphans` | services/order-ingest/internal/service/order_service.go:254-331 | while the ledger answers a submission, its order holds an active reservation exactly when it is the stored one, is pending and had something to reserve |
| `Submissions.LostAnswerStrands` | services/order-ingest/internal/service/order_service.go:254-262 | a granted reservation whose answer is lost stays active with no order stored for it, in every such state |
| `Submissions.FailedReleaseStrands` | services/order-ingest/internal/service/order_service.go:288-297 | so does a granted reservation when storing the order fails and the compensating release fails too |
| `Submissions.RefusedByRisk` | services/order-ingest/internal/service/order_service.go:228-252 | over every schedule, a submission the risk check refuses is never accepted, never stored as pending and never reserves, and if it ends as declined its client id has a stored order |
| `Submissions.AnswerIs` | services/order-ingest/internal/service/order_service.go:254-289 | a submission goes on exactly when the reservation stands, is to be rejected exactly when funds do not suffice or the reservation is closed, and ends with an error otherwise |
| `Submissions.AloneIs` | services/order-ingest/internal/service/order_service.go:127-332 | a submission let through without interruption ends with its verdict: the order of before for a used client id, its own order stored as rejected when the risk check or the ledger refuses, stored as pending with its reservation when neither does, and an error with nothing stored and nothing reserved for a bad amount or quantity |
| `Submissions.LoserIs` | services/order-ingest/internal/service/order_service.go:288-322 | a submission that finds another one has been faster stores nothing: it gives its reservation back and ends with the order of the other, or ends as declined if it was to be rejected |
| `Compose.FillsCompose` | services/order-ingest/internal/storage/postgres.go:300-369 | the trades of any engine run, delivered in any order and any number of times, never fail and never hit the clamp: the table remembers exactly the delivered events, every order ends with the sum of its delivered trades, and with all of them once all are delivered |
| `Compose.CoverIsFull` | services/ledger/internal/storage/postgres.go:990-1015 | before a trade of the run is booked, an unreleased reservation of one of its orders is active and covers the order's leg in full |
| `Compose.ReservationsNeverRunShort` | services/ledger/internal/storage/postgres.go:990-1063 | in every engine run and every ledger run around it, fees allowed, a limit order or sell that has reserved and was not released since still has an active reservation, which covers the order's leg of every trade still to be settled, in full |
| `Compose.ActiveNeverReleased` | services/ledger/internal/storage/postgres.go:203-280 | a reservation that is active at the end of a run was never released in it |
| `Compose.LegalRunIsProper` | services/ledger/internal/storage/postgres.go:294-334 | every ledger run around an engine run, market buys included, settles on the accounts that reserved |
| `Compose.LockedWithinAroundEngine` | services/ledger/internal/storage/postgres.go:102-580 | so around every engine run locked funds stay within the active reservations of their row |
| `Clearing.SettlesOnce` | services/ledger/internal/storage/postgres.go:348-566 | with reservations used for exactly the booked trades, the first settlement of a trade without fees settles it, any later one is a duplicate, and the books stay exact |
| `Clearing.EveryTradeSettles` | services/ledger/internal/storage/postgres.go:294-580 | for every engine run whose orders have all reserved: all its trades settle, in any order and with any repetition, none fails, locked funds stay exact, and when all are settled each order has paid exactly for its trades and a release returns exactly the rest |
| `Clearing.ReservesMakeReady` | services/order-ingest/internal/service/order_service.go:548-619 | reserving, in any order, for all orders of a run leaves an exact ledger ready for its trades |
| `Refunds.FilledOrdersGetImprovement` | services/ledger/internal/storage/postgres.go:203-280 | for every engine run, from reservations through settlements to the release: a completely filled limit buy gets back exactly the sum of (limit - price) * quantity over its trades, a filled sell nothing |
| `Dedupers.MarkedKeepsApart` | services/matching/internal/consumer/order_consumer.go:246-262 | an id returns to the list of first-time marks only after more than a window of others |
| `Dedupers.WindowAfterMark` | services/matching/internal/consumer/order_consumer.go:246-262 | a new id enters the window at its end, and the oldest leaves if the window is full |
| `Dedupers.EventDeduper.constructor` | services/matching/internal/consumer/order_consumer.go:226-234 | a new deduper remembers nothing; a size that is not positive becomes 10000 |
| `Dedupers.EventDeduper.Seen` | services/matching/internal/consumer/order_consumer.go:236-244 | an id is seen exactly when it is not blank and among the last first-time marks |
| `Dedupers.EventDeduper.Mark` | services/matching/internal/consumer/order_consumer.go:246-262 | the deduper stays an exact sliding window: its list is the last first-time marks, without duplicates, and its set holds just those |
| `Consumers.OrderConsumer.HandleMessage` | services/matching/internal/consumer/order_consumer.go:97-176 | for every message what is marked, what the engine object does with the order or cancellation, and the outcome; an engine error, after a failed publish too, marks nothing |
| `Consumers.NoOrderTwiceInWindow` | services/matching/internal/consumer/order_consumer.go:97-159 | in every run of deliveries and redeliveries, between two times the engine processes one order with success at least 200000 different others are processed |
| `Consumers.RedeliveryIsSkipped` | services/matching/internal/consumer/order_consumer.go:105-114 | a processed order delivered again within the window, under whatever event id, changes nothing |
| `Consumers.OutcomeIs` | services/matching/internal/consumer/order_consumer.go:97-176 | the four outcomes of a message, each exactly when: dead-lettered, skipped, failed in the engine, handled |
| `Consumers.EffectIs` | services/matching/internal/consumer/order_consumer.go:152-176 | a handled message marks its event, an order its id too; a failed order changes the engine only; any other message changes nothing |
| `Consumers.EventRedeliveryIsSkipped` | services/matching/internal/consumer/order_consumer.go:105-107 | whatever was handled, order or cancellation, a message with the same event delivered next is skipped |
| `Consumers.EngineSeesEachOrderOnce` | services/matching/internal/consumer/order_consumer.go:97-159 | with every trade published and within the window, the engine behind the consumer is in the state of a run of the handled messages in which no order id is accepted twice, which is what the run theorems ask for |
| `Consumers.EngineRunsTries` | services/matching/internal/consumer/order_consumer.go:97-176 | in every run, failed publishes or not, the engine behind the consumer has run exactly the messages that reached it |
| `Consumers.SkippedIffPublished` | services/matching/internal/consumer/order_consumer.go:105-158 | an order that reaches the engine is skipped when it is delivered again if and only if all its trades were published the first time |
| `Consumers.OnceIffNeverRetried` | services/matching/internal/consumer/order_consumer.go:97-159 | within the window, the engine is given no order id twice if and only if no order reaches it again after some of its trades could not be published |
| `Consumers.ConsumerFillsBounded` | services/matching/internal/consumer/order_consumer.go:97-159 | then, failed publishes or not, every order's published trades stay within its quantity and within what was reserved for it |
| `PublishExamples.FailedPublishOverfills` | services/matching/internal/engine/engine.go:65-72 | a concrete run of five messages: a bid of two whose second trade cannot be published is redelivered, and ends up with published trades of three |
| `TierCaches.LoadedIsLastRow` | services/fee/internal/cache/tier_cache.go:47-58 | the loaded cache has exactly the readable volumes, each with the last row of that volume |
| `TierCaches.Search` | services/fee/internal/cache/tier_cache.go:117-119 | bisection finds the first threshold that is not above the volume |
| `TierCaches.SortPermutes` | services/fee/internal/cache/tier_cache.go:59-63 | sorting keeps every threshold, equal ones too |
| `TierCaches.TierCache.Load` | services/fee/internal/cache/tier_cache.go:38-67 | the cache holds the loaded rows, its thresholds sorted and in step with its map |
| `TierCaches.TierCache.SetTierByVolume` | services/fee/internal/cache/tier_cache.go:73-102 | one tier is set, an unreadable volume is ignored, and thresholds and map stay in step |
| `TierCaches.TierCache.GetTierByVolume` | services/fee/internal/cache/tier_cache.go:104-132 | the tier of the greatest cached threshold not above the volume, and a miss exactly when there is none; the map lookup never fails |
| `TierCaches.CacheAnswersQuery` | services/fee/internal/storage/postgres.go:45-62 | after a load the cache's answer is an answer of the linear query |
| `TierCaches.QueryAnswersAgree` | services/fee/internal/storage/postgres.go:45-62 | all answers of the query have the same minimum volume, and coincide where volumes differ |
| `Limiters.PurgingNeverShows` | services/auth/internal/rate/memory.go:37-44 | for a clock that does not run backwards the purge never changes an answer |
| `Limiters.DecideIs` | services/auth/internal/rate/memory.go:46-61 | a call passes exactly when its key has no running window or one with calls to spare; it opens a window or uses a call up; a refused call and other keys leave no trace |
| `Limiters.CleanedIs` | services/auth/internal/rate/memory.go:37-44 | the purge comes with the first call a window's length after the last one and keeps exactly the entries that have not expired; before that nothing changes |
| `Limiters.BurstBound` | services/auth/internal/rate/memory.go:33-62 | of the purging limiter: in any closed interval of the window's length at most 2 * max(limit, 1) - 1 calls of a key get through, max(limit, 1) if the window is an instant, none if it is negative |
| `Limiters.BurstIsReached` | services/auth/internal/rate/memory.go:33-62 | for every limit and window, positive or not, the purging limiter does let that many calls through |
| `Limiters.MemoryLimiter.Purge` | services/auth/internal/rate/memory.go:38-42 | exactly the expired entries go |
| `Limiters.MemoryLimiter.Allow` | services/auth/internal/rate/memory.go:33-62 | the new entries, the answer, and a retry delay that is zero for an allowed call and never negative |

## Left out

- References and linked lists in the engine: a level's linked list is a `seq`, levels are found by price instead of by reference, and a resting order is a value in its queue, so aliasing of an order held elsewhere is not captured.
- The engine's branches for exhausted makers and for foreign orders on a level of own orders: unreachable in a consistent book, so they do not appear in the methods.
- The mismatch error in consumeReservation: unreachable, because the cover was computed from the same reservation in the same transaction.
- Text: trimming, case folding, decimal and UUID parsing, splitting of symbols, and event-key prefixes; ids are opaque and derived ids injective.
- Snapshots (`LoadSnapshot`) and `UpdateOrderStatus`: they add or change orders without matching, so the runs here start from empty books and exclude them.
- Consumers.EngineSeesEachOrderOnce: with every trade published; OnceIffNeverRetried is the statement for failed publishes.
- Market buys: their reservation uses a reference price, which bounds nothing about the trades, so the reservation theorems exclude them.
- The fee service call with its retries and cached rates: a fee quote is an input of a settlement.
- Settlements.SettledAtMostOnce: takes reserve and release as single steps that wait for rows held by a settlement, treats a unique violation as an abort, and is stated for trades between two accounts with fees in the quote asset.
- Submissions.OneOrderPerClient: cancels and settlements of the submitted orders come later and are not part of the schedules.
- LedgerRuns.LockedWithinReservations: settlements of an order on another account than the reserving one are excluded; the request carries both and the program does not compare them.
- Limiters.MemoryLimiter.Allow: the wall clock read for the retry delay is a parameter.
- Risk checks, market cache, circuit breakers, request validation, authentication, pagination and audit logs: single-branch facts or cryptographic libraries.
- Kafka delivery and dead-letter handling: a handler error that is not dead-lettered is skipped by later marks, so no delivery guarantee is stated.
