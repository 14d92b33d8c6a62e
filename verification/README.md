# Virtual stock-trading ledger — a Dafny model

This project models the core of a simulated stock-trading web application. Users hold virtual cash, buy and sell simulated stocks at a client-supplied price, and are ranked on a leaderboard by net worth. A periodic simulator moves every stock's price by a bounded random factor.

The model covers these parts:

- **Schema** (`schema.dfy`): the record shapes and enums, the column defaults, the key constraints and the trade-order validator. Key uniqueness is the ledger invariant `Schema.Valid`. It also requires positive quantities and cost bases for stored holdings, non-negative balances and positive prices.
- **Storage** (`storage.dfy`): the storage layer's reads and writes over tables held as sequences.
  - A lookup returns the first matching row.
  - An UPDATE or DELETE touches every matching row.
  - `updatePortfolioItem` is an upsert.
- **Settlement** (`settlement.dfy`): `executeTrade`.
  - Failure cases: an unknown user or stock, insufficient funds, insufficient shares.
  - A BUY settles at the weighted-average cost.
  - A SELL keeps the cost basis and deletes the holding at zero.
  - Every attempt on a known user and stock is written to the append-only transaction log.
- **Valuation** (`valuation.dfy`): the enriched holdings of `/api/portfolio`, and the totals and asset allocation of `/api/portfolio/summary`.
- **Leaderboard** (`leaderboard.dfy`): the leaderboard SQL as a specification. Net worth is cash plus the sum of quantity × current price. Rows are ranked by descending net worth and cut at the limit.
- **Trade route** (`trade_route.dfy`): the validate-then-execute decision of `POST /api/trade`, its status codes, and the limit default of `GET /api/leaderboard`.
- **Simulator** (`simulator.dfy`): the seed catalogue, one-time seeding, and the price tick. The tick uses the simulator's cached stock list and stops at the first failure.
- **Stock table** (`stock_table.dfy`): the client-side search filter, page slicing, page count, range label and navigation buttons.
- **Market stats** (`market_stats.dfy`): the client-side market-index averaging.

Money and prices are Dafny `real`s and quantities are `int`s. Each `Math.random()` draw is an input `u` with `0 <= u < 1`. Two helper modules support the rest:

- `Wrappers` holds `Option` and `Result`;
- `Seqs` holds order-preserving filtering and first-match search.

Three points of the code's behaviour that the model keeps as written:

- **A failing stock ends the tick.** In `updatePrices` the `try` encloses the whole loop, so the first stock whose update throws ends the tick. Nothing is rolled back: earlier stocks keep their new prices, and every row whose id none of the processed cache entries carries keeps its old row. `Simulator.UpdatePrices` models this.
- **Unknown user or stock writes no record.** `executeTrade` looks up the user and the stock before its `try`, so an unknown id throws without writing a FAILED record. `Settlement.ExecuteTrade` models this.
- **No guard on the per-holding percentage.** The percentage divides by the average buy price without a guard. The ledger invariant (average price > 0) is what keeps that division defined; see `Valuation.EnrichMeaning`.

## Model

| member | source | states |
|---|---|---|
| Schema.ParseSide | shared/schema.ts:137 | a side is accepted exactly for the texts "BUY" and "SELL", and the parsed side prints back as the same text |
| Schema.SideNameRoundTrip | shared/schema.ts:81 | every transaction side survives printing and re-parsing |
| Schema.ParseTradeOrder | shared/schema.ts:135-140 | an order is accepted iff its type is BUY or SELL, its quantity is positive and its price is positive; an accepted order keeps every field of the request |
| Schema.EmptyDbValid | shared/schema.ts:59-63 | the empty store satisfies every key and positivity constraint of the ledger |
| Storage.GetUser | server/storage.ts:65-68 | the user returned has the requested id and is in the table; none is returned iff no row has that id |
| Storage.GetUserByUsername | server/storage.ts:70-73 | the user returned has the requested username; none is returned iff no row has it |
| Storage.GetStock | server/storage.ts:97-100 | the stock returned has the requested id and is in the table; none is returned iff no row has that id |
| Storage.StockAt | server/storage.ts:97-100 | with unique stock ids, looking up the id of row i finds exactly row i |
| Storage.GetPosition | server/storage.ts:157-168 | the row returned carries the (userId, stockId) key; none is returned iff no row has that key |
| Storage.UserPositions | server/storage.ts:150-155 | the portfolio holds exactly the rows of the given user |
| Storage.CreateUser | server/storage.ts:75-81 | the insert fails exactly when the username is taken; otherwise it appends a user with the next serial id and the 100000 default balance |
| Storage.CreateUserSound | shared/schema.ts:8-11 | a created user keeps the store valid, is found by both id and username, and starts with 100000 in cash |
| Storage.UpdateUserWalletBalance | server/storage.ts:83-90 | the rows with the given id get the new balance and every other row is unchanged |
| Storage.BalanceWritten | server/storage.ts:83-90 | after the update the user reads back with the new balance and all other fields as before |
| Storage.BalanceUpdateKeepsUsersValid | server/storage.ts:83-90 | writing a non-negative balance keeps user ids and usernames unique |
| Storage.CreateStock | server/storage.ts:107-113 | the insert fails exactly when the symbol is taken; otherwise it appends the stock under the next serial id |
| Storage.CreateStockPreservesValid | server/storage.ts:107-113 | inserting a positively priced stock keeps ids and symbols unique and prices positive |
| Storage.SetStockPrice | server/storage.ts:119-127 | the UPDATE rewrites previousClose and currentPrice of the rows with the id and nothing else |
| Storage.UpdateStockPrice | server/storage.ts:115-129 | fails with "not found" iff the id is unknown; otherwise previousClose becomes the old current price, currentPrice becomes the argument, other stocks and all other tables are unchanged, and the updated row is returned |
| Storage.SetStockPriceKeepsValid | server/storage.ts:119-127 | rewriting prices with positive values keeps the stock table valid |
| Storage.UpdateStockPricePreservesValid | server/storage.ts:115-129 | a price update with a positive price keeps the whole store valid |
| Storage.AddPriceHistory | server/storage.ts:132-138 | the insert fails iff the referenced stock is missing; otherwise it appends exactly one history row with the stock id and price |
| Storage.ReplaceKeyed | server/storage.ts:174-187 | every row with the key is replaced by the new row; the others stay, in order |
| Storage.ReplaceKeyedKeepsOthers | server/storage.ts:174-187 | the rows without the key are exactly those before the update |
| Storage.UpdatePortfolioItem | server/storage.ts:170-201 | after the upsert the key holds exactly the given quantity and average price, the other rows are unchanged and in order, and the composite key and positivity are preserved |
| Storage.UpdateExistingRow | server/storage.ts:173-188 | the update branch of the upsert yields the new row under the key and leaves the other rows alone |
| Storage.ReplaceKeyedKeepsInvariants | shared/schema.ts:59-63 | replacing the keyed row keeps (userId, stockId) unique and, for a positive row, keeps positivity |
| Storage.InsertNewRow | server/storage.ts:189-200 | the insert branch of the upsert appends the row, which is then found under its key, without touching the others |
| Storage.FilterKeepsKeyed | shared/schema.ts:59-63 | deleting rows keeps the composite key unique |
| Storage.FilterKeepsPositive | server/storage.ts:268-279 | deleting rows keeps every remaining holding positive |
| Storage.DeletePortfolioItem | server/storage.ts:272-279 | after the DELETE no row has the key, every other row is kept in order, and the invariants hold |
| Settlement.ExecuteTrade | server/storage.ts:222-309 | an unknown user or stock fails with no change at all; otherwise exactly one transaction is appended, COMPLETED on success and FAILED otherwise; "Insufficient wallet balance" iff a BUY costs more than the balance; "Insufficient shares to sell" iff a SELL exceeds the holding or there is none; a failure changes nothing but the log |
| Settlement.SettlementFrame | server/storage.ts:246-280 | a completed trade changes only the trader's balance, the one (user, stock) row and the log |
| Settlement.AverageAfterBuyFacts | server/storage.ts:249-255 | the new quantity is the old (0 if absent) plus the order's; the new average is positive, times the new quantity gives the old cost plus the amount paid, equals the price for a first purchase, and lies between the old average and the price |
| Settlement.WeightedAverageBetween | server/storage.ts:249-253 | a weighted average of two positive prices is positive and lies between them |
| Settlement.BuySettles | server/storage.ts:240-255 | a covered BUY succeeds, debits the total from the balance and leaves the pair's row at the summed quantity and weighted-average price |
| Settlement.SellSettles | server/storage.ts:256-280 | a covered SELL succeeds and credits the total; selling everything deletes the row, otherwise the quantity drops by exactly the order's and the average price is unchanged |
| Settlement.TotalPositive | server/storage.ts:224 | a validated order has a positive total |
| Settlement.SettleBuyKeepsValid | server/storage.ts:245-255 | the writes of a covered BUY keep the ledger invariant |
| Settlement.SettleSellKeepsValid | server/storage.ts:262-280 | the writes of a covered SELL keep the ledger invariant, whether the row is updated or deleted |
| Settlement.AppendKeepsValid | server/storage.ts:286-305 | a transaction record of a validated order keeps the log well formed |
| Settlement.ExecuteTradePreservesValid | server/storage.ts:222-309 | any trade attempt keeps unique keys, non-negative balances, and positive quantities and average prices |
| Settlement.BuyThenSellExample | server/storage.ts:240-280 | from 100000 in cash and no holding: BUY 10 at 100 leaves 99000 and 10 at 100; SELL 4 at 120 then leaves 99480 and 6 at 100 |
| Settlement.BuyExample | server/storage.ts:240-255 | from 100000 in cash and no holding, BUY 10 at 100 leaves 99000 in cash and a holding of 10 at 100 |
| Settlement.SellExample | server/storage.ts:256-269 | from 99000 in cash and 10 held at 100, SELL 4 at 120 leaves 99480 and 6 at 100 |
| Valuation.Enrich | server/routes.ts:75-85 | an enriched holding keeps its row and stock, and its three derived fields are 0 when the stock does not resolve |
| Valuation.EnrichMeaning | server/routes.ts:78-84 | for a resolved stock, value is price × quantity, profit is value minus cost basis, percentage is profit over cost basis × 100, and each is positive iff the price exceeds the average buy price |
| Valuation.Portfolio | server/routes.ts:66-93 | one enriched entry per holding of the user, in portfolio order |
| Valuation.TotalsSplit | server/routes.ts:165-174 | the invested and current totals add over concatenated portfolios |
| Valuation.AccumulateTotals | server/routes.ts:165-174 | the loop's totals are the sums of average × quantity and price × quantity over the holdings whose stock resolves |
| Valuation.Allocate | server/routes.ts:186-209 | the allocation has at most one entry per holding |
| Valuation.AllocateEntries | server/routes.ts:186-209 | the allocation has exactly one entry per holding whose stock resolves, in portfolio order; each carries the holding's stock id, the stock's symbol and name, quantity × current price, and that value's percentage of the total current value (0 when the total is not positive) |
| Valuation.PortfolioSummary | server/routes.ts:158-219 | totalInvestedValue and totalCurrentValue are the cost basis and market value summed over the user's resolved holdings, and the allocation is built against that current total; totalValue is current value plus cash (0 for a missing user); profit is current minus invested; its percentage is profit over invested × 100 when invested is positive, else 0 |
| Valuation.AllocationValuesSum | server/routes.ts:186-209 | allocation values sum to the current total of the same holdings |
| Valuation.AllocationPercentagesShare | server/routes.ts:191-194 | allocation percentages sum to the share that the summed values make of the total |
| Valuation.SummaryAllocationAddsUp | server/routes.ts:165-209 | the allocation values sum to totalCurrentValue; percentages sum to 100 when it is positive and to 0 otherwise |
| Leaderboard.NoHoldingsMeansCash | server/storage.ts:318-324 | a user with no portfolio rows has a net worth of exactly their cash |
| Leaderboard.NoHoldingsZero | server/storage.ts:318 | the holdings sum of a user without rows is 0 |
| Leaderboard.HoldingsNonNegative | server/storage.ts:318 | with positive quantities and prices the holdings sum is non-negative |
| Leaderboard.HoldingsMatchCurrentValue | server/storage.ts:314-326 | the SQL's join-and-sum over a user's rows equals the summary route's current value of that user's portfolio |
| Leaderboard.NetWorthIsSummaryTotal | server/routes.ts:165-178 | a stored user's leaderboard value equals the totalValue of their portfolio summary |
| Leaderboard.Entries | server/storage.ts:314-326 | one row per user, carrying that user's id, username and net worth |
| Leaderboard.Insert | server/storage.ts:327-328 | insertion into a ranking adds exactly one row |
| Leaderboard.InsertRanked | server/storage.ts:327-328 | inserting into a descending ranking keeps it descending |
| Leaderboard.Rank | server/storage.ts:327-328 | the ranking is a permutation of the rows in non-increasing value order |
| Leaderboard.Top | server/storage.ts:329-330 | the cut keeps min(limit, n) rows and they are a prefix of the ranking |
| Leaderboard.GetLeaderboard | server/storage.ts:312-337 | min(limit, users) rows in non-increasing value order, each a distinct user's row |
| Leaderboard.LeaderboardRowsAreUsers | server/storage.ts:319-326 | every leaderboard row is the net-worth row of some stored user |
| Leaderboard.RankedCut | server/storage.ts:327-330 | everything after the cut is worth no more than anything before it |
| Leaderboard.LeaderboardIsTopN | server/storage.ts:327-330 | every user left off the leaderboard is worth no more than every user shown |
| TradeRoute.HandleTrade | server/routes.ts:121-144 | no session gives 401 with no change; a schema-invalid order gives 400 with no change and no record; otherwise the ledger returned is the one settlement produced, a completed trade answers 201 with the transaction settlement recorded (COMPLETED, of the session user, appended to the log), and a failed one answers 400 with the message of settlement's error and changes only the log |
| TradeRoute.FailedTradeRecorded | server/routes.ts:134-143 | a 400 from settlement records one FAILED transaction exactly when user and stock resolve, which is exactly when the message is one of the two settlement messages |
| TradeRoute.HandleTradePreservesValid | server/routes.ts:121-144 | any request keeps the ledger invariant |
| TradeRoute.LeaderboardRoute | server/routes.ts:146-155 | the reply is the storage leaderboard for the requested limit, 10 when none is given: min(limit, users) rows, ranked |
| TradeRoute.LeaderboardRouteIsTopN | server/routes.ts:146-155 | every row of the reply is a stored user's net-worth row, and no user left out is worth more than a user shown |
| Simulator.ChangeFactor | server/stocksimulator.ts:30-32 | the change factor lies in [-0.03, 0.03) |
| Simulator.Round2 | server/stocksimulator.ts:109 | rounding to cents moves a value by at most half a cent |
| Simulator.Round2Cents | server/stocksimulator.ts:109 | the rounded value is a whole number of cents and a whole number of cents is unchanged |
| Simulator.NextPrice | server/stocksimulator.ts:107-109 | the new price is at least 0.01 and within half a cent of max(price × (1 + f), 0.01) |
| Simulator.NextPriceWithinBand | server/stocksimulator.ts:105-109 | one tick leaves a positive price above 97% of itself less half a cent, and at most half a cent above the larger of 103% of it and the 0.01 floor |
| Simulator.InitialTagsMatch | server/stocksimulator.ts:6-27 | each catalogue symbol has the listed distinguishing tag |
| Simulator.InitialTagsDistinct | server/stocksimulator.ts:6-27 | the catalogue's symbol tags are pairwise distinct |
| Simulator.InitialStocksPriced | server/stocksimulator.ts:6-27 | every catalogue price is strictly positive |
| Simulator.InitialStocksWellFormed | server/stocksimulator.ts:6-27 | the catalogue has 20 entries with pairwise distinct symbols |
| Simulator.SeedRows | server/stocksimulator.ts:59-64 | one stock row per catalogue entry |
| Simulator.SeedHistory | server/stocksimulator.ts:66-70 | one history entry per catalogue entry |
| Simulator.SeedStocks | server/stocksimulator.ts:57-76 | seeding touches only the stock table, the history and the id counter |
| Simulator.SeedStep | server/stocksimulator.ts:59-71 | a free symbol is inserted with previousClose = currentPrice, its history entry at that price is added, and it is pushed to the cache before the rest is seeded |
| Simulator.SeedStocksCacheMatches | server/stocksimulator.ts:60-64 | the cache gains exactly the rows the store gained, in the same order |
| Simulator.SeedStocksCreatesAll | server/stocksimulator.ts:59-71 | with distinct, unused symbols every entry is inserted under consecutive ids with one history entry each at its price |
| Simulator.SeedStocksKeepsValid | server/stocksimulator.ts:57-76 | seeding positively priced entries keeps the store valid, even when it stops early |
| Simulator.Initialize | server/stocksimulator.ts:40-55 | the cache equals the stock table afterwards, and a store that has stocks is left as it is |
| Simulator.InitializeSeeds | server/stocksimulator.ts:43-48 | an empty stock table is seeded with the 20 catalogue rows under consecutive ids and one history entry each, keeping the store valid |
| Simulator.InitializeIdempotent | server/stocksimulator.ts:43-51 | initializing twice is the same as initializing once |
| Simulator.TickStock | server/stocksimulator.ts:103-124 | one stock's step fails iff its id is gone from the store; otherwise exactly one history entry with the rounded price is appended and no stock or cache entry is added or removed |
| Simulator.TickStockWrites | server/stocksimulator.ts:103-124 | a successful step gives every row with the cached id the new price, computed from the cached price, with the table's old current price as previous close; other rows are unchanged; the first cache entry with that id becomes the updated row |
| Simulator.TickStockSynced | server/stocksimulator.ts:112-124 | when the cache is the stock table, the step sets previousClose to the old price and currentPrice to the new one in both, at the same index |
| Simulator.TickStockKeepsValid | server/stocksimulator.ts:107-118 | a step keeps the store valid, since the new price is positive |
| Simulator.UpdatePrices | server/stocksimulator.ts:99-131 | the tick stops at the first stock missing from the store; the stocks before it were all found; every row whose id none of the processed cache entries carries is unchanged; validity is kept; with a cache equal to a keyed table every stock is ticked, and the table, cache and history are exactly those of ticking each stock in order |
| StockTable.Lower | client/src/components/stock-table.tsx:28-29 | lower-casing keeps the length, maps each letter and leaves no upper-case letter |
| StockTable.LowerIdempotent | client/src/components/stock-table.tsx:28-29 | lower-casing twice is lower-casing once |
| StockTable.IncludesMeansOccurs | client/src/components/stock-table.tsx:28-29 | the substring test holds iff the needle occurs at some position |
| StockTable.MatchesIgnoresCase | client/src/components/stock-table.tsx:26-30 | the search result does not depend on the query's case |
| StockTable.FilterStocks | client/src/components/stock-table.tsx:26-30 | a stock is kept iff the lower-cased query occurs in its lower-cased symbol or name |
| StockTable.FilterStocksKeepsOrder | client/src/components/stock-table.tsx:26-30 | filtering distributes over concatenation, so relative order is kept |
| StockTable.EmptyQueryKeepsAll | client/src/components/stock-table.tsx:26-30 | the empty query keeps every stock |
| StockTable.ResolveIndex | client/src/components/stock-table.tsx:35 | a slice index is clipped into [0, length] and an in-range index is kept |
| StockTable.Slice | client/src/components/stock-table.tsx:35 | a slice is never longer than the list |
| StockTable.Page | client/src/components/stock-table.tsx:33-35 | a page has at most 5 rows and is the filtered list between (page−1)×5 and page×5, clipped to its length |
| StockTable.TotalPages | client/src/components/stock-table.tsx:38 | the page count is ceil(n / 5), and 0 exactly for an empty list |
| StockTable.PagesCover | client/src/components/stock-table.tsx:33-38 | every filtered row appears on exactly the page its index points to, and that page exists |
| StockTable.PageEmptyIffPastEnd | client/src/components/stock-table.tsx:33-38 | a page is empty iff it lies past the last page |
| StockTable.LabelCountsRows | client/src/components/stock-table.tsx:137-141 | from a page in range (1 to the page count), the label "first to last of n" counts exactly the rows shown |
| StockTable.PageButtons | client/src/components/stock-table.tsx:153-154 | min(totalPages, 3) buttons numbered 1, 2, 3 |
| StockTable.NavigationStaysInRange | client/src/components/stock-table.tsx:144-179 | from a page in range (1 to the page count), an enabled Previous or Next button and every numbered button lead to an existing page |
| StockTable.StepAsWritten | client/src/components/stock-table.tsx:21-22 | typing a query replaces the query and keeps the current page; a control moves to the page it names through the page-change handler |
| StockTable.StalePageAfterSearch | client/src/components/stock-table.tsx:56 | as written, a search from a later page that leaves fewer pages keeps a page past the end: the page is empty, the label's first row number exceeds its last, and Next stays enabled and leads further past the end |
| StockTable.StalePageExample | client/src/components/stock-table.tsx:137-141 | six stocks on page 2, then a search for "TCS": the label reads 6 to 1 of 1 and Next is enabled |
| StockTable.FilterOnlyLast | client/src/components/stock-table.tsx:26-30 | when only the last stock matches, the search keeps exactly that stock |
| StockTable.Step | client/src/components/stock-table.tsx:41-43 | with typing resetting the page to 1, every other action as written |
| StockTable.StepKeepsPageInRange | client/src/components/stock-table.tsx:144-179 | with the reset, every allowed action from a page in range leads to a page in range |
| StockTable.InRangeLabelCountsRows | client/src/components/stock-table.tsx:137-141 | in a state with its page in range and rows to show, the label names exactly the rows on the page |
| MarketStats.Components | client/src/components/market-stats.tsx:46-48 | the components are exactly the stocks whose symbol is in the index's list |
| MarketStats.MeanBetween | client/src/components/market-stats.tsx:58-65 | the mean change lies between bounds on the components' changes |
| MarketStats.SumChangeBounds | client/src/components/market-stats.tsx:59-63 | n stocks whose changes lie in [lo, hi] sum to between n×lo and n×hi |
| MarketStats.CalculateIndexValue | client/src/components/market-stats.tsx:36-75 | without data or components the base value with change 0 and isPositive; otherwise the change is the mean component change, value = base × (1 + change/100), isPositive iff change ≥ 0 |
| MarketStats.ChangeIsAverage | client/src/components/market-stats.tsx:58-65 | the index change lies within the range of its components' changes |
| MarketStats.NoFallMeansRise | client/src/components/market-stats.tsx:58-73 | when no component fell, the index is positive and at or above its base value |
| MarketStats.Stats | client/src/components/market-stats.tsx:78-83 | one stat per declared index, in order, named after it and carrying its computed value |

## Findings

| source | as written | input that shows it | evidently intended | confidence | as-written member | corrected member |
|---|---|---|---|---|---|---|
| client/src/components/stock-table.tsx:56 | typing into the search box sets only the query; `currentPage` keeps its value | six stocks, press page 2, then search "TCS" (one match) | a new search starts again at page 1 | medium, not executed | StockTable.StalePageAfterSearch | StockTable.StepKeepsPageInRange |

In the example the table shows no rows under the label "Showing 6 to 1 of 1", and Next stays enabled and leads to page 3 (`StockTable.StalePageExample`). `StockTable.Step` resets the page on a new query, and `StockTable.StepKeepsPageInRange` proves that every reachable page is then in range, which is what `StockTable.LabelCountsRows` and `StockTable.NavigationStaysInRange` need.

## Left out

- Database and ORM plumbing: connection handling and query building are not modelled. Tables are sequences of rows, and an insert that the database would reject is a `Failure` of `StorageError`.
- Timestamps (`createdAt`, `updatedAt`, the history `timestamp`) and the serial ids of transaction and history rows: the log and the history are append-ordered sequences, so a row's position stands for its time and id.
- `getStockPriceHistory`, `getUserTransactions` and the `/api/transactions` enrichment: read-only queries ordered by timestamp, which is not modelled.
- `GET /api/stocks/:id`: a single-row lookup by id, the same as `Storage.GetStock`; the route wrapper and its 404 are not modelled.
- Authentication: passport, sessions, and scrypt hashing and comparison. They are library wrappers. The route takes the session's user id as an `Option`.
- Concurrency: the `setInterval` timer, `start`/`stop`, overlapping ticks and concurrent requests. The model runs one operation at a time.
- `Math.random` and logging: each random draw is an input in [0, 1), and log lines have no effect on state.
- IEEE double behaviour: NaN, Infinity and binary rounding are not modelled. Neither are `toFixed`/`parseFloat` in the market stats, `toLocaleString`, and `parseFloat` of the leaderboard value. Money is an exact `real`.
- The `parseInt` of the `limit` query parameter: the leaderboard route takes the already-parsed limit as an optional natural number.
- Fractional order quantities: the order schema accepts any positive number while the quantity columns are integers. Quantities are modelled as integers, so a fractional order is outside the model.
- Non-atomic settlement: `executeTrade` issues separate writes inside its `try`. The model settles atomically. This is faithful for the validation failures, which happen before any write. It is not faithful for a storage error raised between writes, which the model does not have.
- The "Invalid trade type" branch of `executeTrade`: the validated order's side is an enum with two values, so the branch cannot be reached.
- React presentation with no logic of its own: the trade modal, the holdings, transaction and allocation tables, the chart, the navbar and the pages.
- Letter case: `toLowerCase` is modelled for ASCII letters only.
- Settlement.ExecuteTrade: requires a validated order and positive stored quantities. Only the trade route calls it, after validation. With positive stored quantities, the new quantity of a BUY is never 0, so the average-price division is defined. The ledger invariant `Schema.Valid` supplies that condition and is proved preserved.
- TradeRoute.HandleTrade: requires positive stored quantities for the same reason.
- Valuation.Enrich: requires a non-zero average buy price when the stock resolves, because the source divides without a guard. Under IEEE doubles a zero average would give Infinity or NaN. The ledger invariant keeps every average price positive.
- MarketStats.CalculateIndexValue: requires each component stock to have a non-zero previous close, because the source divides by it without a guard.
- MarketStats.Stats: requires the same for every index.
- Simulator.UpdatePrices: proves the exact per-stock result only when the cache equals a table with unique ids. That holds right after `initialize`. Otherwise it proves the frame, the stop-at-first-failure behaviour, that rows no processed entry names are unchanged, and validity; the prices of one step are stated by `Simulator.TickStockWrites`.
- Storage.CreateUser: registration passes the whole request body to `createUser` (server/auth.ts:88-91), so a request carrying `walletBalance` or `id` overrides the 100000 default or the serial id. The model always takes the default balance and the next serial id. A request with a negative balance would produce a row outside `Schema.Valid`, and one with an explicit id could collide with a later serial id; neither is modelled.
- Storage.CreateUser, Storage.CreateStock: a failed insert does not advance the id counter. A PostgreSQL serial column draws its value before the uniqueness check, so a rejected insert skips an id. Ids stay unique either way; only the exact id numbers after a rejection differ.
- StockTable.LabelCountsRows, StockTable.NavigationStaysInRange: stated from a page in range only. As written the component reaches later pages (see "## Findings"); from there the label and Next behave as `StockTable.StalePageAfterSearch` states, and nothing more is promised.
- Settlement.ExecuteTrade, Settlement.BuySettles: quantities are unbounded integers, but the quantity columns are PostgreSQL `integer`, at most 2^31 − 1 (shared/schema.ts:56, 82). Because the price comes from the client, a large order can be cheap: BUY 3,000,000,000 at 0.000001 costs 3000 and passes the balance check. The code then debits the balance (server/storage.ts:246). The upsert of the summed quantity is then out of range (server/storage.ts:255), and so is the quantity of the FAILED record written in the `catch`. The outcome is a 400, a debited balance, no holding and no record. The model settles such a trade, and `BuySettles` proves it succeeds. The 32-bit bound and this path are not modelled.
- Row order of `getPortfolio` and `getAllStocks`: neither query has an ORDER BY, so the database promises no order. The model fixes one order, the table's, and every ordering claim about a portfolio or a stock list refers to it.
