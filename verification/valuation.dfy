/** The read-side projections of the portfolio routes: per-holding
    enrichment (`GET /api/portfolio`) and the summary with totals and asset
    allocation (`GET /api/portfolio/summary`). A holding whose stock does not
    resolve contributes zeros to the enrichment and nothing to the totals or
    the allocation. */
module Valuation {
  import opened Wrappers
  import opened Schema
  import opened Storage
  import opened Seqs

  datatype EnrichedPosition = EnrichedPosition(
    item: Position, stock: Option<Stock>,
    currentValue: real, profitLoss: real, profitLossPercentage: real)

  datatype Allocation = Allocation(stockId: int, symbol: string, name: string, value: real, percentage: real)

  datatype Summary = Summary(
    totalInvestedValue: real,
    totalCurrentValue: real,
    totalValue: real,
    walletBalance: real,
    profitLoss: real,
    profitLossPercentage: real,
    assetAllocation: seq<Allocation>)

  /** `part / whole * 100`, guarded to 0 when `whole` is not positive. */
  function Share(part: real, whole: real): real
  {
    if whole > 0.0 then part / whole * 100.0 else 0.0
  }

  /** Market value of a holding at the stock's current price. */
  function MarketValue(item: Position, stock: Stock): real
  {
    stock.currentPrice * item.quantity as real
  }

  /** Cost basis of a holding: what was paid for it at the average price. */
  function CostBasis(item: Position): real
  {
    item.averageBuyPrice * item.quantity as real
  }

  /** One `/api/portfolio` entry. The percentage divides by the average buy
      price without a guard; stored positions have a positive average price,
      which is what makes that division safe. */
  function Enrich(item: Position, stock: Option<Stock>): (r: EnrichedPosition)
    requires stock.Some? ==> item.averageBuyPrice != 0.0
    ensures r.item == item && r.stock == stock
    ensures stock.None? ==> r.currentValue == 0.0 && r.profitLoss == 0.0 && r.profitLossPercentage == 0.0
  {
    match stock
    case None => EnrichedPosition(item, stock, 0.0, 0.0, 0.0)
    case Some(s) =>
      EnrichedPosition(item, stock,
        MarketValue(item, s),
        (s.currentPrice - item.averageBuyPrice) * item.quantity as real,
        (s.currentPrice - item.averageBuyPrice) / item.averageBuyPrice * 100.0)
  }

  /** For a resolved live holding, profit/loss is market value minus cost
      basis, its percentage is the same fraction of the cost basis, and the
      holding is in profit exactly when the price is above the average. */
  lemma EnrichMeaning(item: Position, stock: Stock)
    requires item.quantity > 0 && item.averageBuyPrice > 0.0
    ensures var r := Enrich(item, Some(stock));
      && r.currentValue == MarketValue(item, stock)
      && r.profitLoss == MarketValue(item, stock) - CostBasis(item)
      && r.profitLossPercentage == r.profitLoss / CostBasis(item) * 100.0
      && (r.profitLoss > 0.0 <==> stock.currentPrice > item.averageBuyPrice)
      && (r.profitLossPercentage > 0.0 <==> stock.currentPrice > item.averageBuyPrice)
  {
    var q := item.quantity as real;
    var a := item.averageBuyPrice;
    var d := stock.currentPrice - a;
    assert q > 0.0;
    DivCancel(d, a, q);
    assert d * q > 0.0 <==> d > 0.0;
    assert d / a > 0.0 <==> d > 0.0;
  }

  /** `GET /api/portfolio`: the user's rows, in storage order, each enriched
      with its stock. */
  function Portfolio(db: Db, userId: int): (r: seq<EnrichedPosition>)
    requires PositionsPositive(db.positions)
    ensures var items := UserPositions(db.positions, userId);
      && |r| == |items|
      && forall i :: 0 <= i < |r| ==> r[i] == Enrich(items[i], GetStock(db.stocks, items[i].stockId))
  {
    var items := UserPositions(db.positions, userId);
    seq(|items|, i requires 0 <= i < |items| => Enrich(items[i], GetStock(db.stocks, items[i].stockId)))
  }

  /** Σ averageBuyPrice × quantity over the holdings whose stock resolves. */
  function InvestedValue(items: seq<Position>, stocks: seq<Stock>): real
  {
    if |items| == 0 then 0.0
    else (if GetStock(stocks, items[0].stockId).Some? then CostBasis(items[0]) else 0.0)
         + InvestedValue(items[1..], stocks)
  }

  /** Σ currentPrice × quantity over the holdings whose stock resolves. */
  function CurrentValue(items: seq<Position>, stocks: seq<Stock>): real
  {
    if |items| == 0 then 0.0
    else (match GetStock(stocks, items[0].stockId) case None => 0.0 case Some(s) => MarketValue(items[0], s))
         + CurrentValue(items[1..], stocks)
  }

  lemma {:induction false} TotalsSplit(a: seq<Position>, b: seq<Position>, stocks: seq<Stock>)
    ensures InvestedValue(a + b, stocks) == InvestedValue(a, stocks) + InvestedValue(b, stocks)
    ensures CurrentValue(a + b, stocks) == CurrentValue(a, stocks) + CurrentValue(b, stocks)
  {
    if |a| > 0 {
      assert (a + b)[1..] == a[1..] + b;
      TotalsSplit(a[1..], b, stocks);
    } else {
      assert a + b == b;
    }
  }

  /** The accumulation loop of the summary route: it visits the holdings in
      order and adds cost basis and market value for those whose stock
      resolves, so it ends with the two totals. */
  method AccumulateTotals(items: seq<Position>, stocks: seq<Stock>) returns (invested: real, current: real)
    ensures invested == InvestedValue(items, stocks)
    ensures current == CurrentValue(items, stocks)
  {
    invested, current := 0.0, 0.0;
    var i := 0;
    while i < |items|
      invariant 0 <= i <= |items|
      invariant invested == InvestedValue(items[..i], stocks)
      invariant current == CurrentValue(items[..i], stocks)
    {
      var stock := GetStock(stocks, items[i].stockId);
      TotalsSplit(items[..i], [items[i]], stocks);
      assert items[..i + 1] == items[..i] + [items[i]];
      if stock.Some? {
        invested := invested + CostBasis(items[i]);
        current := current + MarketValue(items[i], stock.value);
      }
      i := i + 1;
    }
    assert items[..i] == items;
  }

  /** The holdings whose stock resolves, in portfolio order. */
  function Resolved(items: seq<Position>, stocks: seq<Stock>): seq<Position>
  {
    Filter(items, (p: Position) => GetStock(stocks, p.stockId).Some?)
  }

  /** The allocation entry of a holding priced by `stock`: its market value
      and that value's share of `totalCurrent`. */
  function AllocationOf(item: Position, stock: Stock, totalCurrent: real): Allocation
  {
    var value := MarketValue(item, stock);
    Allocation(item.stockId, stock.symbol, stock.name, value, Share(value, totalCurrent))
  }

  /** The asset allocation of `items` against `totalCurrent`; what it holds
      is stated by `AllocateEntries`. */
  function Allocate(items: seq<Position>, stocks: seq<Stock>, totalCurrent: real): (r: seq<Allocation>)
    ensures |r| <= |items|
  {
    if |items| == 0 then []
    else
      var rest := Allocate(items[1..], stocks, totalCurrent);
      match GetStock(stocks, items[0].stockId)
      case None => rest
      case Some(s) => [AllocationOf(items[0], s, totalCurrent)] + rest
  }

  /** The allocation has one entry per resolved holding, in portfolio order,
      carrying that holding's stock id, its stock's symbol and name, its
      market value and its share of `totalCurrent`; unresolved holdings are
      dropped. */
  lemma {:induction false} AllocateEntries(items: seq<Position>, stocks: seq<Stock>, totalCurrent: real)
    ensures |Allocate(items, stocks, totalCurrent)| == |Resolved(items, stocks)|
    ensures forall j :: 0 <= j < |Allocate(items, stocks, totalCurrent)| ==>
      var item := Resolved(items, stocks)[j];
      && GetStock(stocks, item.stockId).Some?
      && Allocate(items, stocks, totalCurrent)[j] == AllocationOf(item, GetStock(stocks, item.stockId).value, totalCurrent)
  {
    if |items| > 0 {
      AllocateEntries(items[1..], stocks, totalCurrent);
      var rest := Allocate(items[1..], stocks, totalCurrent);
      var resolved := Resolved(items[1..], stocks);
      match GetStock(stocks, items[0].stockId)
      case None =>
        assert Resolved(items, stocks) == resolved;
        assert Allocate(items, stocks, totalCurrent) == rest;
      case Some(s) =>
        assert Resolved(items, stocks) == [items[0]] + resolved;
        assert Allocate(items, stocks, totalCurrent) == [AllocationOf(items[0], s, totalCurrent)] + rest;
    }
  }

  function SumValues(a: seq<Allocation>): real
  {
    if |a| == 0 then 0.0 else a[0].value + SumValues(a[1..])
  }

  function SumPercentages(a: seq<Allocation>): real
  {
    if |a| == 0 then 0.0 else a[0].percentage + SumPercentages(a[1..])
  }

  /** `GET /api/portfolio/summary` for a user (`user` is the lookup result,
      absent for a dangling session). */
  function PortfolioSummary(db: Db, userId: int): (r: Summary)
    ensures var items := UserPositions(db.positions, userId);
      && r.totalInvestedValue == InvestedValue(items, db.stocks)
      && r.totalCurrentValue == CurrentValue(items, db.stocks)
      && r.assetAllocation == Allocate(items, db.stocks, r.totalCurrentValue)
    ensures r.totalValue == r.totalCurrentValue + r.walletBalance
    ensures r.walletBalance == (match GetUser(db.users, userId) case None => 0.0 case Some(u) => u.walletBalance)
    ensures r.profitLoss == r.totalCurrentValue - r.totalInvestedValue
    ensures r.totalInvestedValue > 0.0 ==> r.profitLossPercentage == r.profitLoss / r.totalInvestedValue * 100.0
    ensures r.totalInvestedValue <= 0.0 ==> r.profitLossPercentage == 0.0
  {
    var items := UserPositions(db.positions, userId);
    var invested := InvestedValue(items, db.stocks);
    var current := CurrentValue(items, db.stocks);
    var wallet := match GetUser(db.users, userId) case None => 0.0 case Some(u) => u.walletBalance;
    var profitLoss := current - invested;
    Summary(invested, current, current + wallet, wallet, profitLoss, Share(profitLoss, invested),
            Allocate(items, db.stocks, current))
  }

  /** The allocation's values add up to the market value of the resolved holdings. */
  lemma {:induction false} AllocationValuesSum(items: seq<Position>, stocks: seq<Stock>, totalCurrent: real)
    ensures SumValues(Allocate(items, stocks, totalCurrent)) == CurrentValue(items, stocks)
  {
    if |items| > 0 {
      AllocationValuesSum(items[1..], stocks, totalCurrent);
    }
  }

  /** Each percentage is the value's share of the same total, so the
      percentages add up to the share of the summed values. */
  lemma {:induction false} AllocationPercentagesShare(items: seq<Position>, stocks: seq<Stock>, totalCurrent: real)
    ensures SumPercentages(Allocate(items, stocks, totalCurrent))
         == Share(SumValues(Allocate(items, stocks, totalCurrent)), totalCurrent)
  {
    if |items| > 0 {
      AllocationPercentagesShare(items[1..], stocks, totalCurrent);
      var rest := Allocate(items[1..], stocks, totalCurrent);
      match GetStock(stocks, items[0].stockId)
      case None =>
      case Some(s) =>
        var a := AllocationOf(items[0], s, totalCurrent);
        assert Allocate(items, stocks, totalCurrent) == [a] + rest;
        assert SumValues([a] + rest) == a.value + SumValues(rest);
        assert SumPercentages([a] + rest) == a.percentage + SumPercentages(rest);
        ShareAdds(a.value, SumValues(rest), totalCurrent);
    }
  }

  lemma DivSelf(x: real)
    requires x > 0.0
    ensures x / x * 100.0 == 100.0
  {
  }

  lemma DivCancel(d: real, a: real, q: real)
    requires a != 0.0 && q != 0.0
    ensures d * q / (a * q) == d / a
  {
    var x := d / a;
    assert x * a == d;
    assert x * (a * q) == d * q;
  }

  lemma ShareAdds(a: real, b: real, whole: real)
    ensures Share(a, whole) + Share(b, whole) == Share(a + b, whole)
  {
    if whole > 0.0 {
      assert a / whole + b / whole == (a + b) / whole;
    }
  }

  /** In the summary, the allocation values add up to totalCurrentValue, and
      the percentages add up to 100 when that total is positive and to 0
      otherwise. */
  lemma SummaryAllocationAddsUp(db: Db, userId: int)
    ensures var r := PortfolioSummary(db, userId);
      && SumValues(r.assetAllocation) == r.totalCurrentValue
      && (r.totalCurrentValue > 0.0 ==> SumPercentages(r.assetAllocation) == 100.0)
      && (r.totalCurrentValue <= 0.0 ==> SumPercentages(r.assetAllocation) == 0.0)
  {
    var items := UserPositions(db.positions, userId);
    var current := CurrentValue(items, db.stocks);
    AllocationValuesSum(items, db.stocks, current);
    AllocationPercentagesShare(items, db.stocks, current);
    if current > 0.0 {
      DivSelf(current);
    }
  }
}
