/** The table operations of the storage layer: point lookups, inserts that
    respect the unique constraints, and the UPDATE / DELETE statements used
    by trade settlement and the price simulator. A lookup returns the first
    matching row (`const [row] = await db.select()...where(...)`); an UPDATE
    or DELETE acts on every row its WHERE clause matches. */
module Storage {
  import opened Wrappers
  import opened Seqs
  import opened Schema

  datatype StorageError =
    | StockNotFound(id: int)          // thrown by updateStockPrice
    | UniqueViolation                 // insert clashing with a unique column
    | ForeignKeyViolation             // insert referencing a missing stock

  // ---------------------------------------------------------------- lookups

  function UserIndex(users: seq<User>, id: int): (r: Option<nat>)
    ensures r.Some? ==> r.value < |users| && users[r.value].id == id
    ensures r.Some? ==> forall i :: 0 <= i < r.value ==> users[i].id != id
    ensures r.None? <==> forall i :: 0 <= i < |users| ==> users[i].id != id
  {
    if |users| == 0 then None
    else if users[0].id == id then Some(0)
    else match UserIndex(users[1..], id)
      case None => None
      case Some(k) => Some(k + 1)
  }

  /** `getUser`: the row with this id, if any. */
  function GetUser(users: seq<User>, id: int): (r: Option<User>)
    ensures r.Some? ==> r.value in users && r.value.id == id
    ensures r.None? <==> forall i :: 0 <= i < |users| ==> users[i].id != id
  {
    match UserIndex(users, id)
    case None => None
    case Some(i) => Some(users[i])
  }

  /** `getUserByUsername`. */
  function GetUserByUsername(users: seq<User>, username: string): (r: Option<User>)
    ensures r.Some? ==> r.value in users && r.value.username == username
    ensures r.None? <==> forall i :: 0 <= i < |users| ==> users[i].username != username
  {
    match FindIndex(users, (u: User) => u.username == username)
    case None => None
    case Some(i) => Some(users[i])
  }

  function StockIndex(stocks: seq<Stock>, id: int): Option<nat>
  {
    FindIndex(stocks, (s: Stock) => s.id == id)
  }

  /** `getStock`: the row with this id, if any. */
  function GetStock(stocks: seq<Stock>, id: int): (r: Option<Stock>)
    ensures r.Some? ==> r.value in stocks && r.value.id == id
    ensures r.None? <==> forall i :: 0 <= i < |stocks| ==> stocks[i].id != id
  {
    match StockIndex(stocks, id)
    case None => None
    case Some(i) => Some(stocks[i])
  }

  /** In a keyed table a row's own id finds that row. */
  lemma StockAt(stocks: seq<Stock>, i: nat)
    requires StocksKeyed(stocks) && i < |stocks|
    ensures StockIndex(stocks, stocks[i].id) == Some(i)
    ensures GetStock(stocks, stocks[i].id) == Some(stocks[i])
  {
    var k := StockIndex(stocks, stocks[i].id);
    assert k.Some?;
    assert k.value <= i && stocks[k.value].id == stocks[i].id;
  }

  predicate HasKey(p: Position, userId: int, stockId: int)
  {
    p.userId == userId && p.stockId == stockId
  }

  function PositionIndex(positions: seq<Position>, userId: int, stockId: int): Option<nat>
  {
    FindIndex(positions, (p: Position) => HasKey(p, userId, stockId))
  }

  /** `getPortfolioItem`: the row with key (userId, stockId), if any. */
  function GetPosition(positions: seq<Position>, userId: int, stockId: int): (r: Option<Position>)
    ensures r.Some? ==> r.value in positions && HasKey(r.value, userId, stockId)
    ensures r.None? <==> forall i :: 0 <= i < |positions| ==> !HasKey(positions[i], userId, stockId)
  {
    match PositionIndex(positions, userId, stockId)
    case None => None
    case Some(i) => Some(positions[i])
  }

  /** `getPortfolio`: the user's rows in storage order. */
  function UserPositions(positions: seq<Position>, userId: int): (r: seq<Position>)
    ensures forall i :: 0 <= i < |r| ==> r[i] in positions && r[i].userId == userId
    ensures forall i :: 0 <= i < |positions| && positions[i].userId == userId ==> positions[i] in r
  {
    Filter(positions, (p: Position) => p.userId == userId)
  }

  /** `UserPositions` peels off the first row like the filter it is. */
  lemma UserPositionsCons(positions: seq<Position>, userId: int)
    requires |positions| > 0
    ensures UserPositions(positions, userId)
         == (if positions[0].userId == userId then [positions[0]] else []) + UserPositions(positions[1..], userId)
  {
  }

  /** The rows whose key is not (userId, stockId), in storage order. */
  function RowsWithout(positions: seq<Position>, userId: int, stockId: int): (r: seq<Position>)
    ensures forall i :: 0 <= i < |r| ==> r[i] in positions && !HasKey(r[i], userId, stockId)
    ensures forall i :: 0 <= i < |positions| && !HasKey(positions[i], userId, stockId) ==> positions[i] in r
  {
    Filter(positions, (p: Position) => !HasKey(p, userId, stockId))
  }

  // ---------------------------------------------------------------- users

  /** `createUser`: a fresh serial id and the default wallet balance; the
      insert fails when the username is already taken. */
  function CreateUser(db: Db, username: string, password: string): (r: Result<(Db, User), StorageError>)
    ensures r.Failure? <==> GetUserByUsername(db.users, username).Some?
    ensures r.Failure? ==> r.error == UniqueViolation
    ensures r.Success? ==>
      && r.value.1 == User(db.nextUserId, username, password, DefaultWalletBalance)
      && r.value.0 == db.(users := db.users + [r.value.1], nextUserId := db.nextUserId + 1)
  {
    if GetUserByUsername(db.users, username).Some? then Failure(UniqueViolation)
    else
      var user := User(db.nextUserId, username, password, DefaultWalletBalance);
      Success((db.(users := db.users + [user], nextUserId := db.nextUserId + 1), user))
  }

  /** A newly created user can be found by name and by id, starts with the
      default balance, and the ledger invariant survives the insert. */
  lemma CreateUserSound(db: Db, username: string, password: string)
    requires Valid(db)
    requires CreateUser(db, username, password).Success?
    ensures var (db', user) := CreateUser(db, username, password).value;
      && Valid(db')
      && GetUserByUsername(db'.users, username) == Some(user)
      && GetUser(db'.users, user.id) == Some(user)
      && user.walletBalance == 100000.0
  {
    var (db', user) := CreateUser(db, username, password).value;
    var n := |db.users|;
    assert db'.users[n] == user;
    assert forall i :: 0 <= i < n ==> db'.users[i] == db.users[i];
    var k := FindIndex(db'.users, (u: User) => u.username == username);
    assert k == Some(n);
    var m := UserIndex(db'.users, user.id);
    assert m == Some(n);
  }

  /** `updateUserWalletBalance`: every row with this id gets the new balance. */
  function UpdateUserWalletBalance(users: seq<User>, userId: int, balance: real): (r: seq<User>)
    ensures |r| == |users|
    ensures forall i :: 0 <= i < |users| ==>
      r[i] == if users[i].id == userId then users[i].(walletBalance := balance) else users[i]
  {
    seq(|users|, i requires 0 <= i < |users| =>
      if users[i].id == userId then users[i].(walletBalance := balance) else users[i])
  }

  /** After the balance update, looking the user up finds the new balance. */
  lemma BalanceWritten(users: seq<User>, userId: int, balance: real)
    requires GetUser(users, userId).Some?
    ensures GetUser(UpdateUserWalletBalance(users, userId, balance), userId)
         == Some(GetUser(users, userId).value.(walletBalance := balance))
  {
    var users' := UpdateUserWalletBalance(users, userId, balance);
    assert UserIndex(users', userId) == UserIndex(users, userId);
  }

  /** A balance update that leaves the balance non-negative keeps the users table valid. */
  lemma BalanceUpdateKeepsUsersValid(users: seq<User>, nextUserId: int, userId: int, balance: real)
    requires UsersValid(users, nextUserId)
    requires balance >= 0.0
    ensures UsersValid(UpdateUserWalletBalance(users, userId, balance), nextUserId)
  {
  }

  // ---------------------------------------------------------------- stocks

  /** `createStock`: a fresh serial id; the insert fails on a duplicate symbol. */
  function CreateStock(db: Db, symbol: string, name: string, currentPrice: real, previousClose: real)
    : (r: Result<(Db, Stock), StorageError>)
    ensures r.Failure? <==> exists i :: 0 <= i < |db.stocks| && db.stocks[i].symbol == symbol
    ensures r.Success? ==>
      && r.value.1 == Stock(db.nextStockId, symbol, name, currentPrice, previousClose)
      && r.value.0 == db.(stocks := db.stocks + [r.value.1], nextStockId := db.nextStockId + 1)
  {
    if exists i :: 0 <= i < |db.stocks| && db.stocks[i].symbol == symbol then Failure(UniqueViolation)
    else
      var stock := Stock(db.nextStockId, symbol, name, currentPrice, previousClose);
      Success((db.(stocks := db.stocks + [stock], nextStockId := db.nextStockId + 1), stock))
  }

  lemma CreateStockPreservesValid(db: Db, symbol: string, name: string, currentPrice: real, previousClose: real)
    requires Valid(db)
    requires currentPrice > 0.0 && previousClose > 0.0
    requires CreateStock(db, symbol, name, currentPrice, previousClose).Success?
    ensures Valid(CreateStock(db, symbol, name, currentPrice, previousClose).value.0)
  {
  }

  /** The rows after `UPDATE stocks SET previous_close = <the looked-up row's
      price>, current_price = price WHERE id = id`. */
  function SetStockPrice(stocks: seq<Stock>, id: int, previousClose: real, price: real): (r: seq<Stock>)
    ensures |r| == |stocks|
    ensures forall i :: 0 <= i < |stocks| ==>
      r[i] == if stocks[i].id == id then stocks[i].(previousClose := previousClose, currentPrice := price) else stocks[i]
  {
    if |stocks| == 0 then []
    else [if stocks[0].id == id then stocks[0].(previousClose := previousClose, currentPrice := price) else stocks[0]]
         + SetStockPrice(stocks[1..], id, previousClose, price)
  }

  /** `updateStockPrice`: fails for an unknown id; otherwise the stock's
      previous close becomes its current price, its current price becomes
      `price`, and the updated row is returned. Nothing else changes. */
  function UpdateStockPrice(db: Db, id: int, price: real): (r: Result<(Db, Stock), StorageError>)
    ensures r.Failure? <==> GetStock(db.stocks, id).None?
    ensures r.Failure? ==> r.error == StockNotFound(id)
    ensures r.Success? ==>
      var (db', updated) := r.value;
      var before := GetStock(db.stocks, id).value;
      && updated == before.(previousClose := before.currentPrice, currentPrice := price)
      && db' == db.(stocks := db'.stocks)
      && |db'.stocks| == |db.stocks|
      && GetStock(db'.stocks, id) == Some(updated)
      && (forall i :: 0 <= i < |db.stocks| && db.stocks[i].id != id ==> db'.stocks[i] == db.stocks[i])
      && (forall i :: 0 <= i < |db.stocks| && db.stocks[i].id == id ==>
            db'.stocks[i] == db.stocks[i].(previousClose := before.currentPrice, currentPrice := price))
  {
    match GetStock(db.stocks, id)
    case None => Failure(StockNotFound(id))
    case Some(current) =>
      var stocks' := SetStockPrice(db.stocks, id, current.currentPrice, price);
      var updated := current.(previousClose := current.currentPrice, currentPrice := price);
      FindIndexAgrees(db.stocks, stocks', (s: Stock) => s.id == id, (s: Stock) => s.id == id);
      Success((db.(stocks := stocks'), updated))
  }

  lemma SetStockPriceKeepsValid(stocks: seq<Stock>, nextStockId: int, id: int, previousClose: real, price: real)
    requires StocksValid(stocks, nextStockId)
    requires previousClose > 0.0 && price > 0.0
    ensures StocksValid(SetStockPrice(stocks, id, previousClose, price), nextStockId)
  {
    var r := SetStockPrice(stocks, id, previousClose, price);
    assert forall i :: 0 <= i < |r| ==> r[i].id == stocks[i].id && r[i].symbol == stocks[i].symbol;
  }

  lemma UpdateStockPricePreservesValid(db: Db, id: int, price: real)
    requires Valid(db)
    requires price > 0.0
    requires UpdateStockPrice(db, id, price).Success?
    ensures Valid(UpdateStockPrice(db, id, price).value.0)
  {
    var db' := UpdateStockPrice(db, id, price).value.0;
    var cur := GetStock(db.stocks, id).value;
    assert db'.stocks == SetStockPrice(db.stocks, id, cur.currentPrice, price);
    SetStockPriceKeepsValid(db.stocks, db.nextStockId, id, cur.currentPrice, price);
    assert db' == db.(stocks := db'.stocks);
  }

  /** `addStockPriceHistory`: appends one entry; the foreign key on
      `stock_id` rejects an unknown stock. */
  function AddPriceHistory(db: Db, stockId: int, price: real): (r: Result<Db, StorageError>)
    ensures r.Failure? <==> GetStock(db.stocks, stockId).None?
    ensures r.Success? ==> r.value == db.(history := db.history + [PriceHistoryEntry(stockId, price)])
  {
    if GetStock(db.stocks, stockId).None? then Failure(ForeignKeyViolation)
    else Success(db.(history := db.history + [PriceHistoryEntry(stockId, price)]))
  }

  // ---------------------------------------------------------------- portfolios

  /** Every row with key (userId, stockId) replaced by `row`. */
  function ReplaceKeyed(positions: seq<Position>, userId: int, stockId: int, row: Position): (r: seq<Position>)
    ensures |r| == |positions|
    ensures forall i :: 0 <= i < |positions| ==>
      r[i] == if HasKey(positions[i], userId, stockId) then row else positions[i]
  {
    if |positions| == 0 then []
    else [if HasKey(positions[0], userId, stockId) then row else positions[0]]
         + ReplaceKeyed(positions[1..], userId, stockId, row)
  }

  lemma {:induction false} ReplaceKeyedKeepsOthers(positions: seq<Position>, userId: int, stockId: int, row: Position)
    requires HasKey(row, userId, stockId)
    ensures RowsWithout(ReplaceKeyed(positions, userId, stockId, row), userId, stockId)
         == RowsWithout(positions, userId, stockId)
  {
    if |positions| > 0 {
      var r := ReplaceKeyed(positions, userId, stockId, row);
      assert r[1..] == ReplaceKeyed(positions[1..], userId, stockId, row);
      ReplaceKeyedKeepsOthers(positions[1..], userId, stockId, row);
    }
  }

  /** `updatePortfolioItem` (upsert): afterwards the key holds exactly the
      given quantity and average price, and every other row is as before, in
      the same order. The composite key and positivity are preserved. */
  function UpdatePortfolioItem(positions: seq<Position>, userId: int, stockId: int, quantity: int, averageBuyPrice: real)
    : (r: seq<Position>)
    ensures GetPosition(r, userId, stockId) == Some(Position(userId, stockId, quantity, averageBuyPrice))
    ensures RowsWithout(r, userId, stockId) == RowsWithout(positions, userId, stockId)
    ensures PositionsKeyed(positions) ==> PositionsKeyed(r)
    ensures PositionsPositive(positions) && quantity > 0 && averageBuyPrice > 0.0 ==> PositionsPositive(r)
  {
    var row := Position(userId, stockId, quantity, averageBuyPrice);
    if PositionIndex(positions, userId, stockId).Some? then
      UpdateExistingRow(positions, row);
      ReplaceKeyed(positions, userId, stockId, row)
    else
      InsertNewRow(positions, row);
      positions + [row]
  }

  lemma UpdateExistingRow(positions: seq<Position>, row: Position)
    requires PositionIndex(positions, row.userId, row.stockId).Some?
    ensures var r := ReplaceKeyed(positions, row.userId, row.stockId, row);
      && GetPosition(r, row.userId, row.stockId) == Some(row)
      && RowsWithout(r, row.userId, row.stockId) == RowsWithout(positions, row.userId, row.stockId)
      && (PositionsKeyed(positions) ==> PositionsKeyed(r))
      && (PositionsPositive(positions) && row.quantity > 0 && row.averageBuyPrice > 0.0 ==> PositionsPositive(r))
  {
    var u, s := row.userId, row.stockId;
    var r := ReplaceKeyed(positions, u, s, row);
    FindIndexAgrees(positions, r, (p: Position) => HasKey(p, u, s), (p: Position) => HasKey(p, u, s));
    ReplaceKeyedKeepsOthers(positions, u, s, row);
    ReplaceKeyedKeepsInvariants(positions, row);
  }

  lemma ReplaceKeyedKeepsInvariants(positions: seq<Position>, row: Position)
    ensures var r := ReplaceKeyed(positions, row.userId, row.stockId, row);
      && (PositionsKeyed(positions) ==> PositionsKeyed(r))
      && (PositionsPositive(positions) && row.quantity > 0 && row.averageBuyPrice > 0.0 ==> PositionsPositive(r))
  {
  }

  lemma InsertNewRow(positions: seq<Position>, row: Position)
    requires PositionIndex(positions, row.userId, row.stockId).None?
    ensures var r := positions + [row];
      && GetPosition(r, row.userId, row.stockId) == Some(row)
      && RowsWithout(r, row.userId, row.stockId) == RowsWithout(positions, row.userId, row.stockId)
      && (PositionsKeyed(positions) ==> PositionsKeyed(r))
      && (PositionsPositive(positions) && row.quantity > 0 && row.averageBuyPrice > 0.0 ==> PositionsPositive(r))
  {
    var u, s := row.userId, row.stockId;
    var r := positions + [row];
    assert r[|positions|] == row;
    assert PositionIndex(r, u, s) == Some(|positions|);
    FilterConcat(positions, [row], (p: Position) => !HasKey(p, u, s));
  }

  lemma {:induction false} FilterKeepsKeyed(positions: seq<Position>, keep: Position -> bool)
    requires PositionsKeyed(positions)
    ensures PositionsKeyed(Filter(positions, keep))
  {
    if |positions| > 0 {
      var tail := positions[1..];
      FilterKeepsKeyed(tail, keep);
      var ft := Filter(tail, keep);
      forall j | 0 <= j < |ft|
        ensures !HasKey(ft[j], positions[0].userId, positions[0].stockId)
      {
        var k :| 0 <= k < |tail| && tail[k] == ft[j];
        assert positions[k + 1] == ft[j];
      }
    }
  }

  lemma {:induction false} FilterKeepsPositive(positions: seq<Position>, keep: Position -> bool)
    requires PositionsPositive(positions)
    ensures PositionsPositive(Filter(positions, keep))
  {
    var r := Filter(positions, keep);
    forall i | 0 <= i < |r|
      ensures r[i].quantity > 0 && r[i].averageBuyPrice > 0.0
    {
      var k :| 0 <= k < |positions| && positions[k] == r[i];
    }
  }

  lemma FilterKeepsInvariants(positions: seq<Position>, keep: Position -> bool)
    ensures PositionsKeyed(positions) ==> PositionsKeyed(Filter(positions, keep))
    ensures PositionsPositive(positions) ==> PositionsPositive(Filter(positions, keep))
  {
    if PositionsKeyed(positions) {
      FilterKeepsKeyed(positions, keep);
    }
    if PositionsPositive(positions) {
      FilterKeepsPositive(positions, keep);
    }
  }

  /** `DELETE FROM portfolios WHERE user_id = userId AND stock_id = stockId`:
      the key disappears and every other row is kept, in order. */
  function DeletePortfolioItem(positions: seq<Position>, userId: int, stockId: int): (r: seq<Position>)
    ensures GetPosition(r, userId, stockId) == None
    ensures RowsWithout(r, userId, stockId) == RowsWithout(positions, userId, stockId)
    ensures PositionsKeyed(positions) ==> PositionsKeyed(r)
    ensures PositionsPositive(positions) ==> PositionsPositive(r)
  {
    var r := RowsWithout(positions, userId, stockId);
    FilterKeepsAll(r, (p: Position) => !HasKey(p, userId, stockId));
    FilterKeepsInvariants(positions, (p: Position) => !HasKey(p, userId, stockId));
    r
  }
}
