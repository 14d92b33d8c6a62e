/** `POST /api/trade`: authenticate, validate the body with the trade-order
    schema, then execute; and `GET /api/leaderboard` with its default limit.
    Sessions are reduced to the id of the logged-in user, if any. */
module TradeRoute {
  import opened Wrappers
  import opened Schema
  import opened Storage
  import opened Settlement
  import Leaderboard

  /** The replies the trade endpoint can send. */
  datatype TradeReply =
    | Unauthorized
    | InvalidOrder
    | TradeFailed(message: string)
    | Created(transaction: Transaction)

  function Status(reply: TradeReply): int
  {
    match reply
    case Unauthorized => 401
    case InvalidOrder => 400
    case TradeFailed(_) => 400
    case Created(_) => 201
  }

  /** The handler: 401 without a session, 400 for a body the schema
      rejects, 400 with the error's message when the trade fails, 201 with
      the transaction when it completes. */
  function HandleTrade(db: Db, session: Option<int>, raw: RawTradeOrder): (r: (Db, TradeReply))
    requires PositionsPositive(db.positions)
    ensures session.None? ==> r == (db, Unauthorized)
    ensures session.Some? && ParseTradeOrder(raw).None? ==> r == (db, InvalidOrder)
    ensures Status(r.1) == 201 <==>
      session.Some? && ParseTradeOrder(raw).Some?
      && ExecuteTrade(db, session.value, ParseTradeOrder(raw).value).result.Success?
    ensures r.1.Created? ==>
      && r.1.transaction.status == Completed
      && r.1.transaction.userId == session.value
      && r.0.transactions == db.transactions + [r.1.transaction]
    ensures r.1.TradeFailed? ==> r.0 == db.(transactions := r.0.transactions)
    ensures session.Some? && ParseTradeOrder(raw).Some? ==>
      var outcome := ExecuteTrade(db, session.value, ParseTradeOrder(raw).value);
      && r.0 == outcome.db
      && (outcome.result.Success? ==> r.1 == Created(outcome.result.value))
      && (outcome.result.Failure? ==> r.1 == TradeFailed(Message(outcome.result.error)))
  {
    match session
    case None => (db, Unauthorized)
    case Some(userId) =>
      match ParseTradeOrder(raw)
      case None => (db, InvalidOrder)
      case Some(order) =>
        var outcome := ExecuteTrade(db, userId, order);
        match outcome.result
        case Success(tx) => (outcome.db, Created(tx))
        case Failure(e) => (outcome.db, TradeFailed(Message(e)))
  }

  /** A rejected trade that got past the lookups leaves exactly one FAILED
      record carrying the order; one that did not leaves the log alone. */
  lemma FailedTradeRecorded(db: Db, userId: int, raw: RawTradeOrder)
    requires PositionsPositive(db.positions)
    requires HandleTrade(db, Some(userId), raw).1.TradeFailed?
    ensures var (db', reply) := HandleTrade(db, Some(userId), raw);
      var order := ParseTradeOrder(raw).value;
      && (Resolves(db, userId, order) ==> db'.transactions == db.transactions + [Record(userId, order, Failed)])
      && (!Resolves(db, userId, order) ==> db' == db)
      && (reply.message == "Insufficient wallet balance" || reply.message == "Insufficient shares to sell"
          <==> Resolves(db, userId, order))
  {
  }

  /** The endpoint keeps a valid database valid, whatever the request. */
  lemma HandleTradePreservesValid(db: Db, session: Option<int>, raw: RawTradeOrder)
    requires Valid(db)
    ensures Valid(HandleTrade(db, session, raw).0)
  {
    if session.Some? && ParseTradeOrder(raw).Some? {
      ExecuteTradePreservesValid(db, session.value, ParseTradeOrder(raw).value);
    }
  }

  /** `GET /api/leaderboard`: `limit` from the query string, 10 when absent;
      the reply is the storage layer's leaderboard for that limit. */
  function LeaderboardRoute(db: Db, limit: Option<nat>): (r: seq<Leaderboard.Entry>)
    ensures var n := if limit.Some? then limit.value else Leaderboard.DefaultLimit;
      |r| == (if n < |db.users| then n else |db.users|)
    ensures Leaderboard.Ranked(r)
    ensures r == Leaderboard.GetLeaderboard(db, if limit.Some? then limit.value else Leaderboard.DefaultLimit)
  {
    match limit
    case None => Leaderboard.GetLeaderboard(db, Leaderboard.DefaultLimit)
    case Some(n) => Leaderboard.GetLeaderboard(db, n)
  }

  /** The route's reply is a true top-n: every row is some stored user's
      net-worth row, and no user left out is worth more than a user shown. */
  lemma LeaderboardRouteIsTopN(db: Db, limit: Option<nat>)
    ensures var r := LeaderboardRoute(db, limit);
      && (forall i :: 0 <= i < |r| ==> exists u :: u in db.users && r[i] == Leaderboard.EntryOf(db, u))
      && (forall e, i :: e in multiset(Leaderboard.Entries(db)) - multiset(r) && 0 <= i < |r| ==>
            e.portfolioValue <= r[i].portfolioValue)
  {
    var n := if limit.Some? then limit.value else Leaderboard.DefaultLimit;
    Leaderboard.LeaderboardRowsAreUsers(db, n);
    Leaderboard.LeaderboardIsTopN(db, n);
  }
}
