/** Record shapes, enums, defaults and key constraints of the five tables
    (users, stocks, stock price history, portfolios, transactions), and the
    trade-order validator. Money is `real`; quantities are integers as in the
    integer columns. Timestamps and the serial ids of history and transaction
    rows are not modelled: those tables are append-ordered sequences. */
module Schema {
  import opened Wrappers

  /** Column default of `users.wallet_balance`. */
  const DefaultWalletBalance: real := 100000.0

  datatype Side = Buy | Sell
  datatype TxStatus = Completed | Failed | Pending

  /** Column default of `transactions.status`. */
  const DefaultTxStatus: TxStatus := Completed

  function SideName(side: Side): string
  {
    match side
    case Buy => "BUY"
    case Sell => "SELL"
  }

  /** The `z.enum(["BUY", "SELL"])` parser. */
  function ParseSide(text: string): (r: Option<Side>)
    ensures r.Some? <==> text == "BUY" || text == "SELL"
    ensures r.Some? ==> SideName(r.value) == text
  {
    if text == "BUY" then Some(Buy)
    else if text == "SELL" then Some(Sell)
    else None
  }

  lemma SideNameRoundTrip(side: Side)
    ensures ParseSide(SideName(side)) == Some(side)
  {
  }

  datatype User = User(id: int, username: string, password: string, walletBalance: real)

  datatype Stock = Stock(id: int, symbol: string, name: string, currentPrice: real, previousClose: real)

  datatype PriceHistoryEntry = PriceHistoryEntry(stockId: int, price: real)

  /** A portfolio row; its primary key is the pair (userId, stockId). */
  datatype Position = Position(userId: int, stockId: int, quantity: int, averageBuyPrice: real)

  datatype Transaction = Transaction(
    userId: int, stockId: int, side: Side, quantity: int,
    price: real, total: real, status: TxStatus)

  /** A request body before validation: `type` is still free text. */
  datatype RawTradeOrder = RawTradeOrder(stockId: int, side: string, quantity: int, price: real)

  datatype TradeOrder = TradeOrder(stockId: int, side: Side, quantity: int, price: real)

  /** What `tradeOrderSchema` guarantees about an accepted order. */
  predicate WellFormedOrder(order: TradeOrder)
  {
    order.quantity > 0 && order.price > 0.0
  }

  /** `tradeOrderSchema.safeParse`: accepted iff the side is BUY or SELL and
      quantity and price are both positive; the fields are carried over. */
  function ParseTradeOrder(raw: RawTradeOrder): (r: Option<TradeOrder>)
    ensures r.Some? <==> (raw.side == "BUY" || raw.side == "SELL") && raw.quantity > 0 && raw.price > 0.0
    ensures r.Some? ==> WellFormedOrder(r.value)
    ensures r.Some? ==> r.value.stockId == raw.stockId && SideName(r.value.side) == raw.side
                        && r.value.quantity == raw.quantity && r.value.price == raw.price
  {
    match ParseSide(raw.side)
    case None => None
    case Some(side) =>
      if raw.quantity > 0 && raw.price > 0.0 then Some(TradeOrder(raw.stockId, side, raw.quantity, raw.price))
      else None
  }

  /** The whole database: one sequence of rows per table, in storage order,
      plus the next values of the `serial` id sequences of users and stocks. */
  datatype Db = Db(
    users: seq<User>,
    stocks: seq<Stock>,
    history: seq<PriceHistoryEntry>,
    positions: seq<Position>,
    transactions: seq<Transaction>,
    nextUserId: int,
    nextStockId: int)

  const EmptyDb: Db := Db([], [], [], [], [], 1, 1)

  /** `users.id` is the primary key and `users.username` is unique. */
  predicate UsersKeyed(users: seq<User>)
  {
    forall i, j :: 0 <= i < j < |users| ==> users[i].id != users[j].id && users[i].username != users[j].username
  }

  /** `stocks.id` is the primary key and `stocks.symbol` is unique. */
  predicate StocksKeyed(stocks: seq<Stock>)
  {
    forall i, j :: 0 <= i < j < |stocks| ==> stocks[i].id != stocks[j].id && stocks[i].symbol != stocks[j].symbol
  }

  /** The composite primary key (userId, stockId) of `portfolios`. */
  predicate PositionsKeyed(positions: seq<Position>)
  {
    forall i, j :: 0 <= i < j < |positions| ==>
      positions[i].userId != positions[j].userId || positions[i].stockId != positions[j].stockId
  }

  /** Every stored position is a live holding: positive quantity and cost basis. */
  predicate PositionsPositive(positions: seq<Position>)
  {
    forall i :: 0 <= i < |positions| ==> positions[i].quantity > 0 && positions[i].averageBuyPrice > 0.0
  }

  predicate StocksPriced(stocks: seq<Stock>)
  {
    forall i :: 0 <= i < |stocks| ==> stocks[i].currentPrice > 0.0 && stocks[i].previousClose > 0.0
  }

  /** Every logged transaction is for a well-formed order and carries its total. */
  predicate TransactionsWellFormed(log: seq<Transaction>)
  {
    forall i :: 0 <= i < |log| ==>
      log[i].quantity > 0 && log[i].price > 0.0 && log[i].total == log[i].quantity as real * log[i].price
  }

  /** Keys are unique, ids come from the serial sequence, and no balance is negative. */
  predicate UsersValid(users: seq<User>, nextUserId: int)
  {
    && UsersKeyed(users)
    && (forall i :: 0 <= i < |users| ==> users[i].id < nextUserId && users[i].walletBalance >= 0.0)
  }

  /** Keys are unique, ids come from the serial sequence, and prices are positive. */
  predicate StocksValid(stocks: seq<Stock>, nextStockId: int)
  {
    && StocksKeyed(stocks)
    && (forall i :: 0 <= i < |stocks| ==> stocks[i].id < nextStockId)
    && StocksPriced(stocks)
  }

  /** The ledger invariant every operation of the model preserves. */
  predicate Valid(db: Db)
  {
    && UsersValid(db.users, db.nextUserId)
    && StocksValid(db.stocks, db.nextStockId)
    && PositionsKeyed(db.positions)
    && PositionsPositive(db.positions)
    && TransactionsWellFormed(db.transactions)
  }

  lemma EmptyDbValid()
    ensures Valid(EmptyDb)
  {
  }
}
