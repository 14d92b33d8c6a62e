/** The stock table's client-side logic: the case-insensitive search over
    symbol and name, five rows per page cut with `Array.prototype.slice`,
    the page count, the "Showing a to b of n" label and the pager buttons.
    Lower-casing is modelled on ASCII letters only. */
module StockTable {
  import opened Schema
  import Seqs

  const ItemsPerPage: nat := 5

  // ---------------------------------------------------------------- search

  function LowerChar(c: char): char
  {
    if 'A' <= c <= 'Z' then (c as int + 32) as char else c
  }

  /** `toLowerCase` on ASCII letters. */
  function Lower(s: string): (r: string)
    ensures |r| == |s|
    ensures forall i :: 0 <= i < |s| ==> r[i] == LowerChar(s[i])
    ensures forall i :: 0 <= i < |r| ==> !('A' <= r[i] <= 'Z')
  {
    seq(|s|, i requires 0 <= i < |s| => LowerChar(s[i]))
  }

  /** Lower-casing twice is lower-casing once. */
  lemma LowerIdempotent(s: string)
    ensures Lower(Lower(s)) == Lower(s)
  {
  }

  /** `needle` occurs in `hay` at position `i`. */
  predicate OccursAt(hay: string, needle: string, i: int)
  {
    0 <= i && i + |needle| <= |hay| && hay[i..i + |needle|] == needle
  }

  /** `String.prototype.includes`, scanning from the left. */
  function Includes(hay: string, needle: string): bool
    decreases |hay|
  {
    if |needle| <= |hay| && hay[..|needle|] == needle then true
    else if |hay| == 0 then false
    else Includes(hay[1..], needle)
  }

  /** The scan finds an occurrence exactly when there is one. */
  lemma {:induction false} IncludesMeansOccurs(hay: string, needle: string)
    ensures Includes(hay, needle) <==> exists i :: OccursAt(hay, needle, i)
    decreases |hay|
  {
    if |needle| <= |hay| && hay[..|needle|] == needle {
      assert OccursAt(hay, needle, 0);
    } else if |hay| == 0 {
      forall i ensures !OccursAt(hay, needle, i) {
      }
    } else {
      IncludesMeansOccurs(hay[1..], needle);
      if exists i :: OccursAt(hay[1..], needle, i) {
        var i :| OccursAt(hay[1..], needle, i);
        assert hay[i + 1..i + 1 + |needle|] == hay[1..][i..i + |needle|];
        assert OccursAt(hay, needle, i + 1);
      }
      if exists i :: OccursAt(hay, needle, i) {
        var i :| OccursAt(hay, needle, i);
        assert i != 0;
        assert hay[1..][i - 1..i - 1 + |needle|] == hay[i..i + |needle|];
        assert OccursAt(hay[1..], needle, i - 1);
      }
    }
  }

  /** The row filter: the lower-cased query occurs in the lower-cased
      symbol or name. */
  predicate Matches(stock: Stock, query: string)
  {
    Includes(Lower(stock.symbol), Lower(query)) || Includes(Lower(stock.name), Lower(query))
  }

  /** The search ignores the case of the query. */
  lemma MatchesIgnoresCase(stock: Stock, query: string)
    ensures Matches(stock, Lower(query)) == Matches(stock, query)
  {
    LowerIdempotent(query);
  }

  /** `filteredStocks`: the matching stocks in their original order. */
  function FilterStocks(stocks: seq<Stock>, query: string): (r: seq<Stock>)
    ensures |r| <= |stocks|
    ensures forall i :: 0 <= i < |r| ==> r[i] in stocks && Matches(r[i], query)
    ensures forall i :: 0 <= i < |stocks| && Matches(stocks[i], query) ==> stocks[i] in r
  {
    Seqs.Filter(stocks, (s: Stock) => Matches(s, query))
  }

  /** Filtering works block by block, so it never reorders rows. */
  lemma FilterStocksKeepsOrder(a: seq<Stock>, b: seq<Stock>, query: string)
    ensures FilterStocks(a + b, query) == FilterStocks(a, query) + FilterStocks(b, query)
  {
    Seqs.FilterConcat(a, b, (s: Stock) => Matches(s, query));
  }

  /** The empty query matches every stock, so the table is shown whole. */
  lemma EmptyQueryKeepsAll(stocks: seq<Stock>)
    ensures FilterStocks(stocks, "") == stocks
  {
    forall i | 0 <= i < |stocks|
      ensures Matches(stocks[i], "")
    {
      assert Lower(stocks[i].symbol)[..0] == Lower("");
    }
    Seqs.FilterKeepsAll(stocks, (s: Stock) => Matches(s, ""));
  }

  // ---------------------------------------------------------------- pages

  /** How `slice` resolves one bound against a length: negative values
      count from the end, and the result is clamped to [0, len]. */
  function ResolveIndex(i: int, len: nat): (r: nat)
    ensures r <= len
    ensures 0 <= i <= len ==> r == i
  {
    if i < 0 then (if len + i < 0 then 0 else len + i)
    else if i > len then len
    else i
  }

  /** `Array.prototype.slice(start, end)`. */
  function Slice<T>(s: seq<T>, start: int, end: int): (r: seq<T>)
    ensures |r| <= |s|
  {
    var a := ResolveIndex(start, |s|);
    var b := ResolveIndex(end, |s|);
    if a < b then s[a..b] else []
  }

  function Min(a: int, b: int): int
  {
    if a <= b then a else b
  }

  /** `currentStocks` for page `page`: rows (page-1)·5 up to page·5. Pages
      count from 1; the pager never goes below it. */
  function Page(filtered: seq<Stock>, page: int): (r: seq<Stock>)
    ensures |r| <= ItemsPerPage
    ensures page >= 1 ==>
      var first := Min((page - 1) * ItemsPerPage, |filtered|);
      r == filtered[first..Min(page * ItemsPerPage, |filtered|)]
  {
    var last := page * ItemsPerPage;
    Slice(filtered, last - ItemsPerPage, last)
  }

  /** `Math.ceil(n / 5)`. */
  function TotalPages(n: nat): (r: nat)
    ensures n == 0 <==> r == 0
    ensures n > 0 ==> (r - 1) * ItemsPerPage < n <= r * ItemsPerPage
  {
    (n + ItemsPerPage - 1) / ItemsPerPage
  }

  /** Every row lands on exactly one page: row `k` is entry `k % 5` of page
      `k / 5 + 1`, and that page exists. */
  lemma PagesCover(filtered: seq<Stock>, k: nat)
    requires k < |filtered|
    ensures var p := k / ItemsPerPage + 1;
      && 1 <= p <= TotalPages(|filtered|)
      && k % ItemsPerPage < |Page(filtered, p)|
      && Page(filtered, p)[k % ItemsPerPage] == filtered[k]
  {
  }

  /** Pages past the last are empty; the ones up to it are not. */
  lemma PageEmptyIffPastEnd(filtered: seq<Stock>, page: int)
    requires page >= 1
    ensures |Page(filtered, page)| == 0 <==> page > TotalPages(|filtered|)
  {
  }

  /** The "Showing first to last of total" figures. */
  datatype RangeLabel = RangeLabel(first: int, last: int, total: nat)

  function Label(filtered: seq<Stock>, page: int): RangeLabel
  {
    RangeLabel((page - 1) * ItemsPerPage + 1, Min(page * ItemsPerPage, |filtered|), |filtered|)
  }

  /** On an existing page the label counts exactly the rows shown, and they
      are rows first..last (from 1) of the filtered list. */
  lemma LabelCountsRows(filtered: seq<Stock>, page: int)
    requires 1 <= page <= TotalPages(|filtered|)
    ensures var l := Label(filtered, page);
      && 1 <= l.first <= l.last <= l.total
      && l.last - l.first + 1 == |Page(filtered, page)|
      && Page(filtered, page) == filtered[l.first - 1..l.last]
  {
  }

  predicate PreviousDisabled(page: int)
  {
    page == 1
  }

  predicate NextDisabled(page: int, totalPages: nat)
  {
    page == totalPages || totalPages == 0
  }

  /** The numbered buttons: 1, 2, 3 at most. */
  function PageButtons(totalPages: nat): (r: seq<int>)
    ensures |r| == Min(totalPages, 3)
    ensures forall i :: 0 <= i < |r| ==> r[i] == i + 1
  {
    seq(Min(totalPages, 3), i requires 0 <= i < Min(totalPages, 3) => i + 1)
  }

  /** From a page in range, every enabled control leads to a page in range:
      Previous and Next step by one inside [1, totalPages], and each
      numbered button names an existing page. */
  lemma NavigationStaysInRange(page: int, totalPages: nat)
    requires 1 <= page <= totalPages
    ensures !PreviousDisabled(page) ==> 1 <= page - 1 <= totalPages
    ensures !NextDisabled(page, totalPages) ==> 1 <= page + 1 <= totalPages
    ensures forall i :: 0 <= i < |PageButtons(totalPages)| ==> 1 <= PageButtons(totalPages)[i] <= totalPages
  {
  }

  // ---------------------------------------------------------------- the view state

  /** The component's state: the search box and `currentPage`. */
  datatype View = View(query: string, page: int)

  /** What a user does: type into the search box, press Previous or Next,
      or press a numbered button. */
  datatype Action = Type(query: string) | PressPrevious | PressNext | PressPage(page: int)

  /** The page count of the rows a view filters to. */
  function PagesOf(stocks: seq<Stock>, v: View): nat
  {
    TotalPages(|FilterStocks(stocks, v.query)|)
  }

  /** The initial page 1, or an existing page. */
  predicate PageInRange(stocks: seq<Stock>, v: View)
  {
    v.page == 1 || 1 <= v.page <= PagesOf(stocks, v)
  }

  /** The actions the rendered controls allow: a disabled button does
      nothing, and only the numbered buttons shown can be pressed. */
  predicate Allowed(stocks: seq<Stock>, v: View, a: Action)
  {
    match a
    case Type(_) => true
    case PressPrevious => !PreviousDisabled(v.page)
    case PressNext => !NextDisabled(v.page, PagesOf(stocks, v))
    case PressPage(p) => p in PageButtons(PagesOf(stocks, v))
  }

  /** The page a control moves to, through `handlePageChange`. */
  function Navigate(v: View, a: Action): int
  {
    match a
    case Type(_) => v.page
    case PressPrevious => v.page - 1
    case PressNext => v.page + 1
    case PressPage(p) => p
  }

  /** One state change as the component is written: typing replaces the
      query and keeps `currentPage`. */
  function StepAsWritten(v: View, a: Action): (r: View)
    ensures r.query == (if a.Type? then a.query else v.query)
    ensures r.page == (if a.Type? then v.page else Navigate(v, a))
  {
    match a
    case Type(q) => v.(query := q)
    case _ => v.(page := Navigate(v, a))
  }

  /** As written, a search from a later page that leaves fewer pages keeps
      the stale page: it lies past the end, the page shown is empty, the
      label's first row number exceeds its last, and Next stays enabled
      and leads further past the end. */
  lemma StalePageAfterSearch(stocks: seq<Stock>, v: View, q: string)
    requires 2 <= v.page <= PagesOf(stocks, v)
    requires 1 <= |FilterStocks(stocks, q)| <= (v.page - 1) * ItemsPerPage
    ensures var w := StepAsWritten(v, Type(q));
      var rows := FilterStocks(stocks, q);
      && !PageInRange(stocks, w)
      && |Page(rows, w.page)| == 0
      && Label(rows, w.page).first > Label(rows, w.page).last
      && Allowed(stocks, w, PressNext)
      && StepAsWritten(w, PressNext).page > PagesOf(stocks, w)
  {
    var w := StepAsWritten(v, Type(q));
    var rows := FilterStocks(stocks, q);
    PageEmptyIffPastEnd(rows, w.page);
  }

  /** Six listings for the worked example; only the last matches "TCS". */
  const SixStocks: seq<Stock> := [
    Stock(1, "A", "", 1.0, 1.0), Stock(2, "B", "", 1.0, 1.0), Stock(3, "C", "", 1.0, 1.0),
    Stock(4, "D", "", 1.0, 1.0), Stock(5, "E", "", 1.0, 1.0), Stock(6, "TCS", "", 1.0, 1.0)]

  /** When only the last stock matches, the search keeps exactly it. */
  lemma {:induction false} FilterOnlyLast(stocks: seq<Stock>, query: string)
    requires |stocks| >= 1 && Matches(stocks[|stocks| - 1], query)
    requires forall i :: 0 <= i < |stocks| - 1 ==> !Matches(stocks[i], query)
    ensures FilterStocks(stocks, query) == [stocks[|stocks| - 1]]
  {
    if |stocks| > 1 {
      FilterOnlyLast(stocks[1..], query);
    }
  }

  lemma LowerTCS()
    ensures Lower("TCS") == "tcs"
  {
    assert LowerChar('T') == 't' && LowerChar('C') == 'c' && LowerChar('S') == 's';
  }

  /** A one-character symbol and an empty name cannot contain "tcs". */
  lemma ShortMisses(stock: Stock)
    requires |stock.symbol| == 1 && stock.name == ""
    ensures !Matches(stock, "TCS")
  {
    LowerTCS();
    assert Includes(Lower(stock.symbol)[1..], "tcs") == false;
  }

  /** Only the last of the six listings matches "TCS". */
  lemma SixStocksMatches()
    ensures forall i :: 0 <= i < 5 ==> !Matches(SixStocks[i], "TCS")
    ensures Matches(SixStocks[5], "TCS")
  {
    var s := SixStocks;
    forall i | 0 <= i < 5
      ensures !Matches(s[i], "TCS")
    {
      ShortMisses(s[i]);
    }
    LowerTCS();
    assert s[5].symbol == "TCS";
    assert "tcs"[..3] == "tcs";
  }

  lemma SixStocksSearch()
    ensures FilterStocks(SixStocks, "") == SixStocks
    ensures FilterStocks(SixStocks, "TCS") == [SixStocks[5]]
  {
    EmptyQueryKeepsAll(SixStocks);
    SixStocksMatches();
    FilterOnlyLast(SixStocks, "TCS");
  }

  /** Six stocks, on page 2; searching "TCS" keeps page 2 of one page. The
      label reads "Showing 6 to 1 of 1" and Next leads to page 3. */
  lemma StalePageExample()
    ensures var w := StepAsWritten(View("", 2), Type("TCS"));
      && PageInRange(SixStocks, View("", 2))
      && !PageInRange(SixStocks, w)
      && Label(FilterStocks(SixStocks, "TCS"), w.page) == RangeLabel(6, 1, 1)
      && Allowed(SixStocks, w, PressNext)
  {
    SixStocksSearch();
    assert |FilterStocks(SixStocks, "")| == 6;
    assert |FilterStocks(SixStocks, "TCS")| == 1;
    assert TotalPages(6) == 2 && TotalPages(1) == 1;
  }

  /** One state change with typing sending the table back to page 1, which
      is what the pager's range checks presume. */
  function Step(v: View, a: Action): (r: View)
    ensures r.query == (if a.Type? then a.query else v.query)
    ensures a.Type? ==> r.page == 1
    ensures !a.Type? ==> r == StepAsWritten(v, a)
  {
    match a
    case Type(q) => View(q, 1)
    case _ => StepAsWritten(v, a)
  }

  /** With the reset, every allowed action keeps the page in range, so the
      label and the pager facts above hold in every state the user reaches
      from the initial page 1. */
  lemma StepKeepsPageInRange(stocks: seq<Stock>, v: View, a: Action)
    requires PageInRange(stocks, v) && Allowed(stocks, v, a)
    ensures PageInRange(stocks, Step(v, a))
  {
    var n := PagesOf(stocks, v);
    match a
    case Type(_) =>
    case PressPrevious =>
      if v.page != 1 { NavigationStaysInRange(v.page, n); }
    case PressNext =>
      if v.page != 1 || 1 <= n { NavigationStaysInRange(v.page, n); }
    case PressPage(p) =>
      var i :| 0 <= i < |PageButtons(n)| && PageButtons(n)[i] == p;
  }

  /** In a state with the page in range and rows to show, the label counts
      exactly the rows on the page. */
  lemma InRangeLabelCountsRows(stocks: seq<Stock>, v: View)
    requires PageInRange(stocks, v) && |FilterStocks(stocks, v.query)| > 0
    ensures var rows := FilterStocks(stocks, v.query);
      var l := Label(rows, v.page);
      && 1 <= l.first <= l.last <= l.total
      && Page(rows, v.page) == rows[l.first - 1..l.last]
  {
    LabelCountsRows(FilterStocks(stocks, v.query), v.page);
  }
}
