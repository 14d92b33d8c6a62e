/** The market-index cards: each index is a fixed list of component
    symbols and a base value; its displayed value moves the base by the
    average percentage change of the components that are listed.
    Rounding for display (`toFixed(2)`) is not modelled. */
module MarketStats {
  import opened Wrappers
  import opened Schema
  import Seqs

  datatype MarketIndex = MarketIndex(name: string, baseValue: real, components: seq<string>)

  const MarketIndices: seq<MarketIndex> := [
    MarketIndex("NIFTY 50", 19425.32, ["RELIANCE", "TCS", "HDFCBANK", "INFY"]),
    MarketIndex("SENSEX", 64718.56, ["RELIANCE", "TCS", "HDFCBANK", "INFY", "TATASTEEL"]),
    MarketIndex("BANK NIFTY", 44327.80, ["HDFCBANK", "ICICIBANK", "AXISBANK", "KOTAKBANK", "SBIN"]),
    MarketIndex("IT INDEX", 32145.67, ["TCS", "INFY", "WIPRO", "TECHM", "HCLTECH"])
  ]

  datatype IndexValue = IndexValue(value: real, change: real, isPositive: bool)

  datatype Stat = Stat(name: string, value: real, change: real, isPositive: bool)

  /** The percentage move of one stock since the previous close. */
  function ChangePercent(stock: Stock): real
    requires stock.previousClose != 0.0
  {
    (stock.currentPrice - stock.previousClose) / stock.previousClose * 100.0
  }

  /** Every stock that can be a component has a non-zero previous close. */
  predicate ComponentsPriced(stocks: seq<Stock>, index: MarketIndex)
  {
    forall i :: 0 <= i < |stocks| && stocks[i].symbol in index.components ==> stocks[i].previousClose != 0.0
  }

  /** `componentStocks`: the listed stocks whose symbol belongs to the index. */
  function Components(stocks: seq<Stock>, index: MarketIndex): (r: seq<Stock>)
    ensures |r| <= |stocks|
    ensures forall i :: 0 <= i < |r| ==> r[i] in stocks && r[i].symbol in index.components
    ensures forall i :: 0 <= i < |stocks| && stocks[i].symbol in index.components ==> stocks[i] in r
  {
    Seqs.Filter(stocks, (s: Stock) => s.symbol in index.components)
  }

  predicate AllPriced(stocks: seq<Stock>)
  {
    forall i :: 0 <= i < |stocks| ==> stocks[i].previousClose != 0.0
  }

  function SumChange(stocks: seq<Stock>): real
    requires AllPriced(stocks)
  {
    if |stocks| == 0 then 0.0 else ChangePercent(stocks[0]) + SumChange(stocks[1..])
  }

  /** The arithmetic mean of the changes of a non-empty list. */
  function Mean(stocks: seq<Stock>): real
    requires AllPriced(stocks) && |stocks| > 0
  {
    SumChange(stocks) / |stocks| as real
  }

  /** A mean lies between the smallest and largest term. */
  lemma MeanBetween(stocks: seq<Stock>, lo: real, hi: real)
    requires AllPriced(stocks) && |stocks| > 0
    requires forall i :: 0 <= i < |stocks| ==> lo <= ChangePercent(stocks[i]) <= hi
    ensures lo <= Mean(stocks) <= hi
  {
    SumChangeBounds(stocks, lo, hi);
    AverageBetween(SumChange(stocks), |stocks| as real, lo, hi);
  }

  /** The neutral card: the base value, no change, shown as rising. */
  function Unchanged(index: MarketIndex): IndexValue
  {
    IndexValue(index.baseValue, 0.0, true)
  }

  /** `calculateIndexValue`; `stocks` is absent while the query is loading
      or has no data. */
  function CalculateIndexValue(stocks: Option<seq<Stock>>, index: MarketIndex): (r: IndexValue)
    requires stocks.Some? ==> ComponentsPriced(stocks.value, index)
    ensures stocks.None? ==> r == Unchanged(index)
    ensures stocks.Some? && |Components(stocks.value, index)| == 0 ==> r == Unchanged(index)
    ensures r.isPositive <==> r.change >= 0.0
    ensures r.value == index.baseValue * (1.0 + r.change / 100.0)
    ensures stocks.Some? && |Components(stocks.value, index)| > 0 ==>
      var comps := Components(stocks.value, index);
      AllPriced(comps) && r.change == Mean(comps)
  {
    match stocks
    case None => Unchanged(index)
    case Some(listed) =>
      var comps := Components(listed, index);
      if |comps| == 0 then Unchanged(index)
      else
        assert AllPriced(comps) by {
          forall i | 0 <= i < |comps| ensures comps[i].previousClose != 0.0 {
            assert comps[i] in listed;
          }
        }
        var average := Mean(comps);
        IndexValue(index.baseValue * (1.0 + average / 100.0), average, average >= 0.0)
  }

  /** A sum of terms each at most `hi` (at least `lo`) is at most `n·hi`
      (at least `n·lo`). */
  lemma {:induction false} SumChangeBounds(stocks: seq<Stock>, lo: real, hi: real)
    requires AllPriced(stocks)
    requires forall i :: 0 <= i < |stocks| ==> lo <= ChangePercent(stocks[i]) <= hi
    ensures |stocks| as real * lo <= SumChange(stocks) <= |stocks| as real * hi
  {
    if |stocks| > 0 {
      SumChangeBounds(stocks[1..], lo, hi);
    }
  }

  /** The index change is an average: it lies between the smallest and the
      largest component change. */
  lemma ChangeIsAverage(stocks: seq<Stock>, index: MarketIndex, lo: real, hi: real)
    requires ComponentsPriced(stocks, index)
    requires forall i :: 0 <= i < |stocks| && stocks[i].symbol in index.components ==>
      lo <= ChangePercent(stocks[i]) <= hi
    requires |Components(stocks, index)| > 0
    ensures lo <= CalculateIndexValue(Some(stocks), index).change <= hi
  {
    var comps := Components(stocks, index);
    var r := CalculateIndexValue(Some(stocks), index);
    assert forall i :: 0 <= i < |comps| ==> lo <= ChangePercent(comps[i]) <= hi by {
      forall i | 0 <= i < |comps| ensures lo <= ChangePercent(comps[i]) <= hi {
        assert comps[i] in stocks;
      }
    }
    MeanBetween(comps, lo, hi);
  }

  lemma AverageBetween(sum: real, n: real, lo: real, hi: real)
    requires n > 0.0 && n * lo <= sum <= n * hi
    ensures lo <= sum / n <= hi
  {
    var average := sum / n;
    assert average * n == sum;
    MulCancel(n, lo, average);
    MulCancel(n, average, hi);
  }

  lemma MulCancel(n: real, a: real, b: real)
    requires n > 0.0 && n * a <= n * b
    ensures a <= b
  {
    assert n * b - n * a == n * (b - a);
  }

  /** When no component fell, the index shows a rise and is at or above its base value. */
  lemma NoFallMeansRise(stocks: seq<Stock>, index: MarketIndex)
    requires ComponentsPriced(stocks, index) && index.baseValue >= 0.0
    requires forall i :: 0 <= i < |stocks| && stocks[i].symbol in index.components ==>
      stocks[i].previousClose > 0.0 && stocks[i].currentPrice >= stocks[i].previousClose
    ensures CalculateIndexValue(Some(stocks), index).isPositive
    ensures CalculateIndexValue(Some(stocks), index).value >= index.baseValue
  {
    var comps := Components(stocks, index);
    if |comps| > 0 {
      var hi := SumChangeMax(stocks, index);
      ChangeIsAverage(stocks, index, 0.0, hi);
      var r := CalculateIndexValue(Some(stocks), index);
      assert index.baseValue * (1.0 + r.change / 100.0) - index.baseValue == index.baseValue * (r.change / 100.0);
    }
  }

  /** An upper bound on the component changes when none of them fell. */
  function SumChangeMax(stocks: seq<Stock>, index: MarketIndex): (hi: real)
    requires ComponentsPriced(stocks, index)
    requires forall i :: 0 <= i < |stocks| && stocks[i].symbol in index.components ==>
      stocks[i].previousClose > 0.0 && stocks[i].currentPrice >= stocks[i].previousClose
    ensures forall i :: 0 <= i < |stocks| && stocks[i].symbol in index.components ==>
      0.0 <= ChangePercent(stocks[i]) <= hi
    decreases |stocks|
  {
    if |stocks| == 0 then 0.0
    else
      var rest := SumChangeMax(stocks[1..], index);
      assert forall i :: 1 <= i < |stocks| ==> stocks[i] == stocks[1..][i - 1];
      if stocks[0].symbol in index.components then
        var c := ChangePercent(stocks[0]);
        assert c >= 0.0 by {
          assert stocks[0].currentPrice - stocks[0].previousClose >= 0.0;
        }
        if c > rest then c else rest
      else rest
  }

  /** `stats`: one card per declared index, in declaration order, under its name. */
  function Stats(stocks: Option<seq<Stock>>): (r: seq<Stat>)
    requires stocks.Some? ==> forall k :: 0 <= k < |MarketIndices| ==> ComponentsPriced(stocks.value, MarketIndices[k])
    ensures |r| == |MarketIndices|
    ensures forall k :: 0 <= k < |r| ==>
      var v := CalculateIndexValue(stocks, MarketIndices[k]);
      r[k] == Stat(MarketIndices[k].name, v.value, v.change, v.isPositive)
  {
    seq(|MarketIndices|, k requires 0 <= k < |MarketIndices| =>
      var v := CalculateIndexValue(stocks, MarketIndices[k]);
      Stat(MarketIndices[k].name, v.value, v.change, v.isPositive))
  }
}
