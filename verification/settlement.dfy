/** `executeTrade`: validate one BUY or SELL order against the ledger and
    settle it, or record the failed attempt. Settlement is modelled as one
    atomic step: the user's balance, the (user, stock) portfolio row and the
    transaction log change together or not at all. */
module Settlement {
  import opened Wrappers
  import opened Schema
  import opened Storage

  datatype TradeError = UnknownUser | UnknownStock | InsufficientBalance | InsufficientShares

  /** The `Error.message` each failure is raised with. */
  function Message(e: TradeError): string
  {
    match e
    case UnknownUser => "User not found"
    case UnknownStock => "Stock not found"
    case InsufficientBalance => "Insufficient wallet balance"
    case InsufficientShares => "Insufficient shares to sell"
  }

  datatype TradeOutcome = TradeOutcome(db: Db, result: Result<Transaction, TradeError>)

  function Total(order: TradeOrder): real
  {
    order.quantity as real * order.price
  }

  /** The transaction row written for an attempt with the given outcome. */
  function Record(userId: int, order: TradeOrder, status: TxStatus): Transaction
  {
    Transaction(userId, order.stockId, order.side, order.quantity, order.price, Total(order), status)
  }

  /** Both the user and the stock resolve, so the attempt reaches the try block. */
  predicate Resolves(db: Db, userId: int, order: TradeOrder)
  {
    GetUser(db.users, userId).Some? && GetStock(db.stocks, order.stockId).Some?
  }

  /** The BUY guard: the balance does not cover quantity × price. */
  predicate LacksFunds(db: Db, userId: int, order: TradeOrder)
    requires GetUser(db.users, userId).Some?
  {
    order.side == Buy && GetUser(db.users, userId).value.walletBalance < Total(order)
  }

  /** The SELL guard: no row for the pair, or fewer shares than ordered. */
  predicate LacksShares(db: Db, userId: int, order: TradeOrder)
  {
    var item := GetPosition(db.positions, userId, order.stockId);
    order.side == Sell && (item.None? || item.value.quantity < order.quantity)
  }

  /** Quantity held for the pair, 0 when there is no row. */
  function HeldQuantity(positions: seq<Position>, userId: int, stockId: int): int
  {
    match GetPosition(positions, userId, stockId)
    case None => 0
    case Some(p) => p.quantity
  }

  /** Cost basis (quantity × average price) held for the pair, 0 when there is no row. */
  function HeldCost(positions: seq<Position>, userId: int, stockId: int): real
  {
    match GetPosition(positions, userId, stockId)
    case None => 0.0
    case Some(p) => p.quantity as real * p.averageBuyPrice
  }

  function Reject(db: Db, userId: int, order: TradeOrder, e: TradeError): TradeOutcome
  {
    TradeOutcome(db.(transactions := db.transactions + [Record(userId, order, Failed)]), Failure(e))
  }

  function Complete(db: Db, userId: int, order: TradeOrder): TradeOutcome
  {
    var tx := Record(userId, order, Completed);
    TradeOutcome(db.(transactions := db.transactions + [tx]), Success(tx))
  }

  function Debit(balance: real, amount: real): real
  {
    balance - amount
  }

  function Credit(balance: real, amount: real): real
  {
    balance + amount
  }

  /** Quantity held for the pair after a BUY of `order`. */
  function QuantityAfterBuy(positions: seq<Position>, userId: int, order: TradeOrder): int
  {
    HeldQuantity(positions, userId, order.stockId) + order.quantity
  }

  /** The weighted-average price after a BUY: old cost basis plus the amount
      paid, over the new quantity. */
  function AverageAfterBuy(positions: seq<Position>, userId: int, order: TradeOrder): real
    requires WellFormedOrder(order) && PositionsPositive(positions)
  {
    (HeldCost(positions, userId, order.stockId) + Total(order)) / QuantityAfterBuy(positions, userId, order) as real
  }

  /** The ledger writes of a covered BUY: debit the balance and upsert the
      row with the summed quantity and the weighted-average price. */
  function SettleBuy(db: Db, userId: int, order: TradeOrder, balance: real): Db
    requires WellFormedOrder(order) && PositionsPositive(db.positions)
  {
    db.(users := UpdateUserWalletBalance(db.users, userId, Debit(balance, Total(order))),
        positions := UpdatePortfolioItem(db.positions, userId, order.stockId,
                                         QuantityAfterBuy(db.positions, userId, order),
                                         AverageAfterBuy(db.positions, userId, order)))
  }

  function Remaining(held: Position, order: TradeOrder): int
  {
    held.quantity - order.quantity
  }

  /** The ledger writes of a covered SELL: credit the balance, then keep the
      row with the reduced quantity and the same average price, or delete it
      when nothing is left. */
  function SettleSell(db: Db, userId: int, order: TradeOrder, balance: real, held: Position): Db
  {
    var positions' :=
      if Remaining(held, order) > 0
      then UpdatePortfolioItem(db.positions, userId, order.stockId, Remaining(held, order), held.averageBuyPrice)
      else DeletePortfolioItem(db.positions, userId, order.stockId);
    db.(users := UpdateUserWalletBalance(db.users, userId, Credit(balance, Total(order))), positions := positions')
  }

  /** `executeTrade`. An unknown user or stock is raised before anything is
      written. Otherwise exactly one transaction row is appended: FAILED when
      the balance (BUY) or the holding (SELL) does not cover the order, in
      which case nothing else changes; COMPLETED, and returned, otherwise. */
  function ExecuteTrade(db: Db, userId: int, order: TradeOrder): (r: TradeOutcome)
    requires WellFormedOrder(order)
    requires PositionsPositive(db.positions)
    ensures GetUser(db.users, userId).None? ==> r == TradeOutcome(db, Failure(UnknownUser))
    ensures GetUser(db.users, userId).Some? && GetStock(db.stocks, order.stockId).None? ==> r == TradeOutcome(db, Failure(UnknownStock))
    ensures Resolves(db, userId, order) ==>
      r.db.transactions == db.transactions + [Record(userId, order, if r.result.Success? then Completed else Failed)]
    ensures r.result.Success? ==> r.result.value == Record(userId, order, Completed)
    ensures r.result == Failure(InsufficientBalance) <==> Resolves(db, userId, order) && LacksFunds(db, userId, order)
    ensures r.result == Failure(InsufficientShares) <==> Resolves(db, userId, order) && LacksShares(db, userId, order)
    ensures r.result.Failure? ==> r.db == db.(transactions := r.db.transactions)
  {
    match GetUser(db.users, userId)
    case None => TradeOutcome(db, Failure(UnknownUser))
    case Some(user) =>
      if GetStock(db.stocks, order.stockId).None? then TradeOutcome(db, Failure(UnknownStock))
      else
        var stockId := order.stockId;
        var total := Total(order);
        var item := GetPosition(db.positions, userId, stockId);
        match order.side
        case Buy =>
          if user.walletBalance < total then Reject(db, userId, order, InsufficientBalance)
          else
            Complete(SettleBuy(db, userId, order, user.walletBalance), userId, order)
        case Sell =>
          if item.None? || item.value.quantity < order.quantity then Reject(db, userId, order, InsufficientShares)
          else
            Complete(SettleSell(db, userId, order, user.walletBalance, item.value), userId, order)
  }

  /** A completed trade writes only the trader's balance, the one
      (user, stock) portfolio row and the log; stocks, price history, other
      users and other holdings are untouched. */
  lemma SettlementFrame(db: Db, userId: int, order: TradeOrder)
    requires WellFormedOrder(order) && PositionsPositive(db.positions)
    requires ExecuteTrade(db, userId, order).result.Success?
    ensures var db' := ExecuteTrade(db, userId, order).db;
      && db' == db.(users := db'.users, positions := db'.positions, transactions := db'.transactions)
      && |db'.users| == |db.users|
      && (forall i :: 0 <= i < |db.users| && db.users[i].id != userId ==> db'.users[i] == db.users[i])
      && RowsWithout(db'.positions, userId, order.stockId) == RowsWithout(db.positions, userId, order.stockId)
  {
  }


  /** The weighted average after a BUY: positive, it reproduces the cost
      basis (old basis plus the amount paid), and it lies between the old
      average price and the price just paid. */
  lemma AverageAfterBuyFacts(positions: seq<Position>, userId: int, order: TradeOrder)
    requires WellFormedOrder(order) && PositionsPositive(positions)
    ensures var avg := AverageAfterBuy(positions, userId, order);
      var n := QuantityAfterBuy(positions, userId, order);
      && n >= order.quantity
      && avg > 0.0
      && avg * n as real == HeldCost(positions, userId, order.stockId) + Total(order)
      && (GetPosition(positions, userId, order.stockId).None? ==> avg == order.price)
      && (GetPosition(positions, userId, order.stockId).Some? ==>
            var prior := GetPosition(positions, userId, order.stockId).value.averageBuyPrice;
            (prior <= avg <= order.price) || (order.price <= avg <= prior))
  {
    var g := GetPosition(positions, userId, order.stockId);
    var q := order.quantity as real;
    var q0 := if g.None? then 0.0 else g.value.quantity as real;
    var a0 := if g.None? then order.price else g.value.averageBuyPrice;
    assert HeldCost(positions, userId, order.stockId) == q0 * a0;
    assert QuantityAfterBuy(positions, userId, order) as real == q0 + q;
    assert q0 >= 0.0 && a0 > 0.0;
    WeightedAverageBetween(q0, a0, q, order.price);
    assert AverageAfterBuy(positions, userId, order) == (q0 * a0 + q * order.price) / (q0 + q);
  }

  /** Mixing q0 units at price a0 with q units at price a gives a positive
      average that lies between the two prices, and exactly a when there were
      no units before. */
  lemma WeightedAverageBetween(q0: real, a0: real, q: real, a: real)
    requires q0 >= 0.0 && a0 > 0.0 && q > 0.0 && a > 0.0
    ensures var avg := (q0 * a0 + q * a) / (q0 + q);
      && avg > 0.0
      && avg * (q0 + q) == q0 * a0 + q * a
      && (q0 == 0.0 ==> avg == a)
      && ((a0 <= avg <= a) || (a <= avg <= a0))
  {
    var c := q0 * a0 + q * a;
    var avg := c / (q0 + q);
    assert avg * (q0 + q) == c;
    if a0 <= a {
      assert q0 * a0 + q * a0 <= c <= q0 * a + q * a;
    } else {
      assert q0 * a + q * a <= c <= q0 * a0 + q * a0;
    }
  }

  /** A BUY the balance covers: cash drops by the total, and the pair's row
      holds the old quantity (0 when there was no row) plus the order
      quantity at the weighted-average price. */
  lemma BuySettles(db: Db, userId: int, order: TradeOrder)
    requires WellFormedOrder(order) && PositionsPositive(db.positions)
    requires Resolves(db, userId, order) && order.side == Buy && !LacksFunds(db, userId, order)
    ensures var r := ExecuteTrade(db, userId, order);
      var user := GetUser(db.users, userId).value;
      && r.result.Success?
      && GetUser(r.db.users, userId) == Some(user.(walletBalance := Debit(user.walletBalance, Total(order))))
      && GetPosition(r.db.positions, userId, order.stockId)
         == Some(Position(userId, order.stockId,
                          QuantityAfterBuy(db.positions, userId, order), AverageAfterBuy(db.positions, userId, order)))
  {
    var user := GetUser(db.users, userId).value;
    assert ExecuteTrade(db, userId, order) == Complete(SettleBuy(db, userId, order, user.walletBalance), userId, order);
    BalanceWritten(db.users, userId, Debit(user.walletBalance, Total(order)));
  }

  /** A SELL the holding covers: cash grows by the total, the average price
      is unchanged, and the row is deleted exactly when the whole holding is
      sold; otherwise its quantity drops by exactly the order quantity. */
  lemma SellSettles(db: Db, userId: int, order: TradeOrder)
    requires WellFormedOrder(order) && PositionsPositive(db.positions)
    requires Resolves(db, userId, order) && order.side == Sell && !LacksShares(db, userId, order)
    ensures var r := ExecuteTrade(db, userId, order);
      var user := GetUser(db.users, userId).value;
      var held := GetPosition(db.positions, userId, order.stockId).value;
      && r.result.Success?
      && GetUser(r.db.users, userId) == Some(user.(walletBalance := Credit(user.walletBalance, Total(order))))
      && (held.quantity == order.quantity ==> GetPosition(r.db.positions, userId, order.stockId).None?)
      && (held.quantity > order.quantity ==>
            GetPosition(r.db.positions, userId, order.stockId) == Some(held.(quantity := Remaining(held, order))))
  {
    var user := GetUser(db.users, userId).value;
    var held := GetPosition(db.positions, userId, order.stockId).value;
    assert ExecuteTrade(db, userId, order) == Complete(SettleSell(db, userId, order, user.walletBalance, held), userId, order);
    BalanceWritten(db.users, userId, Credit(user.walletBalance, Total(order)));
  }

  lemma TotalPositive(order: TradeOrder)
    requires WellFormedOrder(order)
    ensures Total(order) > 0.0
  {
    assert order.quantity as real > 0.0;
  }

  lemma SettleBuyKeepsValid(db: Db, userId: int, order: TradeOrder, balance: real)
    requires Valid(db) && WellFormedOrder(order)
    requires balance >= Total(order)
    ensures Valid(SettleBuy(db, userId, order, balance))
  {
    BalanceUpdateKeepsUsersValid(db.users, db.nextUserId, userId, Debit(balance, Total(order)));
    AverageAfterBuyFacts(db.positions, userId, order);
  }

  lemma SettleSellKeepsValid(db: Db, userId: int, order: TradeOrder, balance: real, held: Position)
    requires Valid(db) && WellFormedOrder(order)
    requires balance >= 0.0 && held.averageBuyPrice > 0.0
    ensures Valid(SettleSell(db, userId, order, balance, held))
  {
    TotalPositive(order);
    BalanceUpdateKeepsUsersValid(db.users, db.nextUserId, userId, Credit(balance, Total(order)));
    var db' := SettleSell(db, userId, order, balance, held);
    if Remaining(held, order) > 0 {
      assert db'.positions == UpdatePortfolioItem(db.positions, userId, order.stockId, Remaining(held, order), held.averageBuyPrice);
    } else {
      assert db'.positions == DeletePortfolioItem(db.positions, userId, order.stockId);
    }
  }

  lemma AppendKeepsValid(db: Db, userId: int, order: TradeOrder, status: TxStatus)
    requires Valid(db) && WellFormedOrder(order)
    ensures Valid(db.(transactions := db.transactions + [Record(userId, order, status)]))
  {
    assert TransactionsWellFormed(db.transactions + [Record(userId, order, status)]);
  }

  /** Trade settlement preserves the ledger invariant: keys stay unique,
      balances non-negative, and every stored position keeps a positive
      quantity and a positive average price. */
  lemma ExecuteTradePreservesValid(db: Db, userId: int, order: TradeOrder)
    requires Valid(db) && WellFormedOrder(order)
    ensures Valid(ExecuteTrade(db, userId, order).db)
  {
    if Resolves(db, userId, order) {
      var user := GetUser(db.users, userId).value;
      var held := GetPosition(db.positions, userId, order.stockId);
      if order.side == Buy && user.walletBalance >= Total(order) {
        var db1 := SettleBuy(db, userId, order, user.walletBalance);
        SettleBuyKeepsValid(db, userId, order, user.walletBalance);
        AppendKeepsValid(db1, userId, order, Completed);
        assert ExecuteTrade(db, userId, order) == Complete(db1, userId, order);
      } else if order.side == Sell && held.Some? && held.value.quantity >= order.quantity {
        var db1 := SettleSell(db, userId, order, user.walletBalance, held.value);
        SettleSellKeepsValid(db, userId, order, user.walletBalance, held.value);
        AppendKeepsValid(db1, userId, order, Completed);
        assert ExecuteTrade(db, userId, order) == Complete(db1, userId, order);
      } else {
        AppendKeepsValid(db, userId, order, Failed);
      }
    }
  }

  /** The worked example of the ledger rules: starting from the default
      100000 in cash and no holding in the stock, BUY 10 at 100 leaves 99000
      and a holding of 10 at an average of 100; then SELL 4 at 120 leaves
      99480 and a holding of 6, still at an average of 100. */
  lemma BuyThenSellExample(db: Db, userId: int, stockId: int)
    requires Valid(db)
    requires GetUser(db.users, userId).Some? && GetUser(db.users, userId).value.walletBalance == DefaultWalletBalance
    requires GetStock(db.stocks, stockId).Some? && GetPosition(db.positions, userId, stockId).None?
    ensures var buy := ExecuteTrade(db, userId, TradeOrder(stockId, Buy, 10, 100.0));
      && buy.result.Success? && Valid(buy.db)
      && GetUser(buy.db.users, userId).Some?
      && GetUser(buy.db.users, userId).value.walletBalance == 99000.0
      && GetPosition(buy.db.positions, userId, stockId) == Some(Position(userId, stockId, 10, 100.0))
      && var sell := ExecuteTrade(buy.db, userId, TradeOrder(stockId, Sell, 4, 120.0));
         && sell.result.Success?
         && GetUser(sell.db.users, userId).Some?
         && GetUser(sell.db.users, userId).value.walletBalance == 99480.0
         && GetPosition(sell.db.positions, userId, stockId) == Some(Position(userId, stockId, 6, 100.0))
  {
    BuyExample(db, userId, stockId);
    SellExample(ExecuteTrade(db, userId, TradeOrder(stockId, Buy, 10, 100.0)).db, userId, stockId);
  }

  lemma BuyExample(db: Db, userId: int, stockId: int)
    requires Valid(db)
    requires GetUser(db.users, userId).Some? && GetUser(db.users, userId).value.walletBalance == DefaultWalletBalance
    requires GetStock(db.stocks, stockId).Some? && GetPosition(db.positions, userId, stockId).None?
    ensures var buy := ExecuteTrade(db, userId, TradeOrder(stockId, Buy, 10, 100.0));
      && buy.result.Success? && Valid(buy.db)
      && GetStock(buy.db.stocks, stockId).Some?
      && GetUser(buy.db.users, userId).Some?
      && GetUser(buy.db.users, userId).value.walletBalance == 99000.0
      && GetPosition(buy.db.positions, userId, stockId) == Some(Position(userId, stockId, 10, 100.0))
  {
    var order := TradeOrder(stockId, Buy, 10, 100.0);
    var user := GetUser(db.users, userId).value;
    assert Total(order) == 1000.0;
    assert !LacksFunds(db, userId, order);
    BuySettles(db, userId, order);
    assert GetUser(ExecuteTrade(db, userId, order).db.users, userId) == Some(user.(walletBalance := 99000.0));
    AverageAfterBuyFacts(db.positions, userId, order);
    assert QuantityAfterBuy(db.positions, userId, order) == 10;
    assert AverageAfterBuy(db.positions, userId, order) == 100.0;
    SettlementFrame(db, userId, order);
    ExecuteTradePreservesValid(db, userId, order);
  }

  lemma SellExample(db: Db, userId: int, stockId: int)
    requires Valid(db)
    requires GetUser(db.users, userId).Some? && GetUser(db.users, userId).value.walletBalance == 99000.0
    requires GetStock(db.stocks, stockId).Some?
    requires GetPosition(db.positions, userId, stockId) == Some(Position(userId, stockId, 10, 100.0))
    ensures var sell := ExecuteTrade(db, userId, TradeOrder(stockId, Sell, 4, 120.0));
      && sell.result.Success? && GetUser(sell.db.users, userId).Some?
      && GetUser(sell.db.users, userId).value.walletBalance == 99480.0
      && GetPosition(sell.db.positions, userId, stockId) == Some(Position(userId, stockId, 6, 100.0))
  {
    SellSettles(db, userId, TradeOrder(stockId, Sell, 4, 120.0));
  }
}
