/** `getLeaderboard`: every user's net worth (wallet balance plus the market
    value of the holdings whose stock joins), ranked from richest down and
    cut to `limit` rows. The SQL leaves the order of ties open; the model
    fixes one order and states only what the query promises. */
module Leaderboard {
  import opened Wrappers
  import opened Schema
  import opened Storage
  import Valuation

  const DefaultLimit: nat := 10

  datatype Entry = Entry(userId: int, username: string, portfolioValue: real)

  /** `COALESCE(SUM(p.quantity * s.current_price), 0)` over the LEFT JOIN of
      the user's portfolio rows with stocks: a row whose stock is missing
      yields NULL, which SUM skips. */
  function HoldingsValue(positions: seq<Position>, stocks: seq<Stock>, userId: int): real
  {
    if |positions| == 0 then 0.0
    else
      (if positions[0].userId != userId then 0.0
       else match GetStock(stocks, positions[0].stockId)
            case None => 0.0
            case Some(s) => positions[0].quantity as real * s.currentPrice)
      + HoldingsValue(positions[1..], stocks, userId)
  }

  function NetWorth(db: Db, user: User): real
  {
    HoldingsValue(db.positions, db.stocks, user.id) + user.walletBalance
  }

  /** A user with no portfolio rows is worth exactly their cash. */
  lemma {:induction false} NoHoldingsMeansCash(db: Db, user: User)
    requires forall i :: 0 <= i < |db.positions| ==> db.positions[i].userId != user.id
    ensures NetWorth(db, user) == user.walletBalance
  {
    NoHoldingsZero(db.positions, db.stocks, user.id);
  }

  lemma {:induction false} NoHoldingsZero(positions: seq<Position>, stocks: seq<Stock>, userId: int)
    requires forall i :: 0 <= i < |positions| ==> positions[i].userId != userId
    ensures HoldingsValue(positions, stocks, userId) == 0.0
  {
    if |positions| > 0 {
      NoHoldingsZero(positions[1..], stocks, userId);
    }
  }

  /** With live positions and positive prices, holdings never count negative,
      so net worth is at least the cash balance. */
  lemma {:induction false} HoldingsNonNegative(positions: seq<Position>, stocks: seq<Stock>, userId: int)
    requires PositionsPositive(positions) && StocksPriced(stocks)
    ensures HoldingsValue(positions, stocks, userId) >= 0.0
  {
    if |positions| > 0 {
      HoldingsNonNegative(positions[1..], stocks, userId);
      if positions[0].userId == userId && GetStock(stocks, positions[0].stockId).Some? {
        var s := GetStock(stocks, positions[0].stockId).value;
        assert s.currentPrice > 0.0;
        assert positions[0].quantity as real > 0.0;
      }
    }
  }

  /** The leaderboard's SQL sum and the summary route's accumulation over
      `getUserPortfolio` value the same holdings the same way. */
  lemma {:induction false} HoldingsMatchCurrentValue(positions: seq<Position>, stocks: seq<Stock>, userId: int)
    ensures HoldingsValue(positions, stocks, userId)
         == Valuation.CurrentValue(UserPositions(positions, userId), stocks)
  {
    if |positions| > 0 {
      HoldingsMatchCurrentValue(positions[1..], stocks, userId);
      UserPositionsCons(positions, userId);
      var rest := UserPositions(positions[1..], userId);
      if positions[0].userId == userId {
        assert ([positions[0]] + rest)[1..] == rest;
      } else {
        assert [] + rest == rest;
      }
    }
  }

  /** A leaderboard row's value is the `totalValue` the same user's
      portfolio summary reports. */
  lemma NetWorthIsSummaryTotal(db: Db, user: User)
    requires GetUser(db.users, user.id) == Some(user)
    ensures NetWorth(db, user) == Valuation.PortfolioSummary(db, user.id).totalValue
  {
    HoldingsMatchCurrentValue(db.positions, db.stocks, user.id);
  }

  function EntryOf(db: Db, user: User): Entry
  {
    Entry(user.id, user.username, NetWorth(db, user))
  }

  /** One row per user, in table order, before ranking. */
  function Entries(db: Db): (r: seq<Entry>)
    ensures |r| == |db.users|
    ensures forall i :: 0 <= i < |r| ==> r[i] == EntryOf(db, db.users[i])
  {
    seq(|db.users|, i requires 0 <= i < |db.users| => EntryOf(db, db.users[i]))
  }

  predicate Ranked(es: seq<Entry>)
  {
    forall i, j :: 0 <= i < j < |es| ==> es[i].portfolioValue >= es[j].portfolioValue
  }

  /** Places `e` into a ranked list, ahead of every row it does not trail. */
  function Insert(e: Entry, es: seq<Entry>): (r: seq<Entry>)
    ensures multiset(r) == multiset(es) + multiset{e}
    ensures |r| == |es| + 1
  {
    if |es| == 0 then [e]
    else if e.portfolioValue >= es[0].portfolioValue then [e] + es
    else
      assert es == [es[0]] + es[1..];
      [es[0]] + Insert(e, es[1..])
  }

  /** Nothing in `es` is worth more than `v`. */
  predicate Below(es: seq<Entry>, v: real)
  {
    forall k :: 0 <= k < |es| ==> es[k].portfolioValue <= v
  }

  lemma BelowByMultiset(es: seq<Entry>, v: real, rest: seq<Entry>, e: Entry)
    requires Below(es, v) && e.portfolioValue <= v
    requires multiset(rest) == multiset(es) + multiset{e}
    ensures Below(rest, v)
  {
    forall k | 0 <= k < |rest|
      ensures rest[k].portfolioValue <= v
    {
      assert rest[k] in multiset(rest);
      if rest[k] != e {
        assert rest[k] in multiset(es);
      }
    }
  }

  /** Insertion keeps a ranked list ranked. */
  lemma {:induction false} InsertRanked(e: Entry, es: seq<Entry>)
    requires Ranked(es)
    ensures Ranked(Insert(e, es))
  {
    if |es| > 0 && e.portfolioValue < es[0].portfolioValue {
      var tail := es[1..];
      InsertRanked(e, tail);
      assert Below(tail, es[0].portfolioValue);
      BelowByMultiset(tail, es[0].portfolioValue, Insert(e, tail), e);
    }
  }

  /** `ORDER BY portfolio_value DESC`: a ranked permutation of the rows. */
  function Rank(es: seq<Entry>): (r: seq<Entry>)
    ensures Ranked(r)
    ensures multiset(r) == multiset(es)
    ensures |r| == |es|
  {
    if |es| == 0 then []
    else
      assert es == [es[0]] + es[1..];
      InsertRanked(es[0], Rank(es[1..]));
      Insert(es[0], Rank(es[1..]))
  }

  /** `LIMIT limit` over an already ordered result: its first rows. */
  function Top(ranked: seq<Entry>, limit: nat): (r: seq<Entry>)
    ensures |r| == if limit < |ranked| then limit else |ranked|
    ensures ranked == r + ranked[|r|..]
  {
    var n := if limit < |ranked| then limit else |ranked|;
    assert ranked == ranked[..n] + ranked[n..];
    ranked[..n]
  }

  /** `getLeaderboard(limit)`: at most `limit` rows, ranked by net worth,
      each the (id, username, net worth) of a distinct user row. */
  function GetLeaderboard(db: Db, limit: nat): (r: seq<Entry>)
    ensures |r| == if limit < |db.users| then limit else |db.users|
    ensures Ranked(r)
    ensures multiset(r) <= multiset(Entries(db))
  {
    var ranked := Rank(Entries(db));
    var r := Top(ranked, limit);
    assert multiset(ranked) == multiset(r) + multiset(ranked[|r|..]);
    assert Ranked(r) by {
      forall i, j | 0 <= i < j < |r|
        ensures r[i].portfolioValue >= r[j].portfolioValue
      {
        assert r[i] == ranked[i] && r[j] == ranked[j];
      }
    }
    r
  }

  /** Every listed row is some user's (id, username, net worth). */
  lemma LeaderboardRowsAreUsers(db: Db, limit: nat)
    ensures forall i :: 0 <= i < |GetLeaderboard(db, limit)| ==>
      exists u :: u in db.users && GetLeaderboard(db, limit)[i] == EntryOf(db, u)
  {
    var r := GetLeaderboard(db, limit);
    var es := Entries(db);
    forall i | 0 <= i < |r|
      ensures exists u :: u in db.users && r[i] == EntryOf(db, u)
    {
      assert r[i] in multiset(r);
      assert r[i] in multiset(es);
      var k :| 0 <= k < |es| && es[k] == r[i];
      assert db.users[k] in db.users;
    }
  }

  /** In a ranked list, every row past position `n` trails every row before it. */
  lemma RankedCut(ranked: seq<Entry>, n: nat)
    requires Ranked(ranked) && n <= |ranked|
    ensures forall e, i :: e in ranked[n..] && 0 <= i < n ==> e.portfolioValue <= ranked[i].portfolioValue
  {
    forall e, i | e in ranked[n..] && 0 <= i < n
      ensures e.portfolioValue <= ranked[i].portfolioValue
    {
      var k :| 0 <= k < |ranked[n..]| && ranked[n..][k] == e;
      assert ranked[n + k] == e;
    }
  }

  /** The cut keeps the richest: no user left off the board is worth more
      than any user on it. */
  lemma LeaderboardIsTopN(db: Db, limit: nat)
    ensures var r := GetLeaderboard(db, limit);
      forall e, i :: e in multiset(Entries(db)) - multiset(r) && 0 <= i < |r| ==> e.portfolioValue <= r[i].portfolioValue
  {
    var ranked := Rank(Entries(db));
    var r := Top(ranked, limit);
    var rest := ranked[|r|..];
    assert multiset(ranked) == multiset(r) + multiset(rest);
    RankedCut(ranked, |r|);
    forall e, i | e in multiset(Entries(db)) - multiset(r) && 0 <= i < |r|
      ensures e.portfolioValue <= r[i].portfolioValue
    {
      assert e in rest;
      assert r[i] == ranked[i];
    }
  }
}
