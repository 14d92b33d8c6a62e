/** The price simulator: seeding the stock table on first start and the
    periodic tick that moves every cached stock by a random factor of at most
    3% either way, writes it back and logs it in the price history.
    `Math.random()` is not modelled; each tick takes the draws it would have
    made as a parameter, one value in [0, 1) per cached stock. */
module Simulator {
  import opened Wrappers
  import opened Schema
  import opened Storage

  // ---------------------------------------------------------------- prices

  /** `(Math.random() * 6 - 3) / 100` for a draw `u`. */
  function ChangeFactor(u: real): (f: real)
    requires 0.0 <= u < 1.0
    ensures -0.03 <= f < 0.03
  {
    (u * 6.0 - 3.0) / 100.0
  }

  /** `Math.round(x * 100) / 100`; `Math.round` rounds halves up. */
  function Round2(x: real): (r: real)
    ensures x - 0.005 < r <= x + 0.005
  {
    (x * 100.0 + 0.5).Floor as real / 100.0
  }

  /** A price with at most two decimals. */
  predicate Cents(x: real)
  {
    (x * 100.0).Floor as real == x * 100.0
  }

  /** Rounding lands on whole cents and leaves whole cents alone. */
  lemma Round2Cents(x: real)
    ensures Cents(Round2(x))
    ensures Cents(x) ==> Round2(x) == x
  {
    var k := (x * 100.0 + 0.5).Floor;
    assert Round2(x) * 100.0 == k as real;
    if Cents(x) {
      var c := (x * 100.0).Floor;
      assert c as real <= x * 100.0 + 0.5 < c as real + 1.0;
      assert k == c;
    }
  }

  function Max(a: real, b: real): real
  {
    if a >= b then a else b
  }

  /** The next price: the current one moved by `f`, floored at 0.01 and
      rounded to cents. */
  function NextPrice(price: real, f: real): (r: real)
    ensures r >= 0.01
    ensures Max(price * (1.0 + f), 0.01) - 0.005 < r <= Max(price * (1.0 + f), 0.01) + 0.005
  {
    var r := Round2(Max(price * (1.0 + f), 0.01));
    assert (Max(price * (1.0 + f), 0.01) * 100.0 + 0.5).Floor >= 1;
    r
  }

  /** From a positive price, one tick moves at most 3% (plus half a cent of
      rounding) either way, never going below the one-cent floor. */
  lemma NextPriceWithinBand(price: real, u: real)
    requires price > 0.0 && 0.0 <= u < 1.0
    ensures var r := NextPrice(price, ChangeFactor(u));
      price * 0.97 - 0.005 < r && r <= Max(price * 1.03, 0.01) + 0.005
  {
    var f := ChangeFactor(u);
    var moved := price * (1.0 + f);
    MulLess(price, 1.0 + f, 1.03);
    assert moved < price * 1.03;
    assert price * 0.97 <= moved by {
      assert moved - price * 0.97 == price * (1.0 + f - 0.97);
      assert 1.0 + f - 0.97 >= 0.0;
    }
    assert Max(moved, 0.01) <= Max(price * 1.03, 0.01);
  }

  // ---------------------------------------------------------------- seeding

  datatype SeedStock = SeedStock(symbol: string, name: string, price: real)

  /** The twenty listings written on first start. */
  const InitialStocks: seq<SeedStock> := [
    SeedStock("RELIANCE", "Reliance Industries Ltd.", 2540.75),
    SeedStock("TCS", "Tata Consultancy Services Ltd.", 3421.30),
    SeedStock("HDFCBANK", "HDFC Bank Ltd.", 1678.20),
    SeedStock("INFY", "Infosys Ltd.", 1452.85),
    SeedStock("TATASTEEL", "Tata Steel Ltd.", 126.40),
    SeedStock("BHARTIARTL", "Bharti Airtel Ltd.", 875.60),
    SeedStock("ITC", "ITC Ltd.", 435.25),
    SeedStock("WIPRO", "Wipro Ltd.", 425.50),
    SeedStock("SBIN", "State Bank of India", 625.75),
    SeedStock("MARUTI", "Maruti Suzuki India Ltd.", 10245.60),
    SeedStock("SUNPHARMA", "Sun Pharmaceutical Industries Ltd.", 1120.35),
    SeedStock("ICICIBANK", "ICICI Bank Ltd.", 963.45),
    SeedStock("AXISBANK", "Axis Bank Ltd.", 1023.70),
    SeedStock("KOTAKBANK", "Kotak Mahindra Bank Ltd.", 1745.20),
    SeedStock("POWERGRID", "Power Grid Corporation of India Ltd.", 245.80),
    SeedStock("ASIANPAINT", "Asian Paints Ltd.", 3145.65),
    SeedStock("ADANIPORTS", "Adani Ports and Special Economic Zone Ltd.", 875.40),
    SeedStock("TECHM", "Tech Mahindra Ltd.", 1256.90),
    SeedStock("TITAN", "Titan Company Ltd.", 3256.75),
    SeedStock("HCLTECH", "HCL Technologies Ltd.", 1175.50)
  ]

  predicate SeedsDistinct(seeds: seq<SeedStock>)
  {
    forall i, j :: 0 <= i < j < |seeds| ==> seeds[i].symbol != seeds[j].symbol
  }

  predicate SeedsPriced(seeds: seq<SeedStock>)
  {
    forall i :: 0 <= i < |seeds| ==> seeds[i].price > 0.0
  }

  /** An integer key for a symbol: its first character times 256 plus its
      last. It is a function of the symbol, so equal symbols have equal tags;
      read backwards, symbols whose tags differ are different. That is all the
      distinctness proof uses: it shows the twenty catalogue tags pairwise
      distinct, which is cheap integer reasoning, instead of comparing twenty
      strings pairwise. The encoding need not be injective on all strings. */
  function Tag(symbol: string): int
  {
    if |symbol| == 0 then 0 else symbol[0] as int * 256 + symbol[|symbol| - 1] as int
  }

  /** The catalogue's tags, in catalogue order. */
  const InitialTags: seq<int> := [21061, 21587, 18507, 18777, 21580, 16972, 18755, 22351, 21326, 19785, 21313, 18763, 16715, 19275, 20548, 16724, 16723, 21581, 21582, 18504]

  lemma InitialTagsMatch()
    ensures |InitialTags| == |InitialStocks|
    ensures forall i :: 0 <= i < |InitialStocks| ==> Tag(InitialStocks[i].symbol) == InitialTags[i]
  {
    var tags := seq(|InitialStocks|, i requires 0 <= i < |InitialStocks| => Tag(InitialStocks[i].symbol));
    assert tags == InitialTags;
  }

  /** No tag follows an equal one. */
  lemma InitialTagsDistinct()
    ensures forall i, j :: 0 <= i < j < |InitialTags| ==> InitialTags[i] != InitialTags[j]
  {
    assert forall i :: 0 <= i < |InitialTags| ==> FreshTag(InitialTags[i], i + 1);
  }

  predicate FreshTag(tag: int, from: nat)
  {
    forall j :: from <= j < |InitialTags| ==> InitialTags[j] != tag
  }

  /** Every listing of the catalogue starts at a positive price. */
  lemma InitialStocksPriced()
    ensures SeedsPriced(InitialStocks)
  {
  }

  /** The catalogue has twenty listings with distinct symbols. */
  lemma InitialStocksWellFormed()
    ensures |InitialStocks| == 20
    ensures SeedsDistinct(InitialStocks)
  {
    InitialTagsMatch();
    InitialTagsDistinct();
  }

  /** The row `createStock` writes for a listing given id `id`: its price is
      both the current price and the previous close. */
  function SeedRow(id: int, seed: SeedStock): Stock
  {
    Stock(id, seed.symbol, seed.name, seed.price, seed.price)
  }

  /** The rows for `seeds`, numbered from `start` by the serial counter. */
  function SeedRows(start: int, seeds: seq<SeedStock>): (r: seq<Stock>)
    ensures |r| == |seeds|
  {
    seq(|seeds|, k requires 0 <= k < |seeds| => SeedRow(start + k, seeds[k]))
  }

  /** The first history entry of each seeded row. */
  function SeedHistory(start: int, seeds: seq<SeedStock>): (r: seq<PriceHistoryEntry>)
    ensures |r| == |seeds|
  {
    seq(|seeds|, k requires 0 <= k < |seeds| => PriceHistoryEntry(start + k, seeds[k].price))
  }

  /** `seedStocks`: each listing is created with its price as previous close,
      pushed to the cache and logged once in the price history. The loop runs
      inside one `try`, so the first failure ends it, keeping what was
      already written. */
  function SeedStocks(db: Db, cache: seq<Stock>, seeds: seq<SeedStock>): (r: (Db, seq<Stock>))
    ensures r.0 == db.(stocks := r.0.stocks, history := r.0.history, nextStockId := r.0.nextStockId)
    decreases |seeds|
  {
    if |seeds| == 0 then (db, cache)
    else
      var seed := seeds[0];
      match CreateStock(db, seed.symbol, seed.name, seed.price, seed.price)
      case Failure(_) => (db, cache)
      case Success((db1, stock)) =>
        var cache1 := cache + [stock];
        match AddPriceHistory(db1, stock.id, stock.currentPrice)
        case Failure(_) => (db1, cache1)
        case Success(db2) => SeedStocks(db2, cache1, seeds[1..])
  }

  /** The state after seeding one listing whose symbol is free. */
  function SeededOne(db: Db, seed: SeedStock): Db
  {
    var stock := SeedRow(db.nextStockId, seed);
    db.(stocks := db.stocks + [stock], nextStockId := db.nextStockId + 1,
        history := db.history + [PriceHistoryEntry(stock.id, stock.currentPrice)])
  }

  /** A listing whose symbol is free is created and logged, and seeding
      carries on with the rest. */
  lemma SeedStep(db: Db, cache: seq<Stock>, seeds: seq<SeedStock>)
    requires |seeds| > 0
    requires forall i :: 0 <= i < |db.stocks| ==> db.stocks[i].symbol != seeds[0].symbol
    ensures SeedStocks(db, cache, seeds)
         == SeedStocks(SeededOne(db, seeds[0]), cache + [SeedRow(db.nextStockId, seeds[0])], seeds[1..])
  {
    var seed := seeds[0];
    var stock := SeedRow(db.nextStockId, seed);
    var db1 := db.(stocks := db.stocks + [stock], nextStockId := db.nextStockId + 1);
    assert CreateStock(db, seed.symbol, seed.name, seed.price, seed.price) == Success((db1, stock));
    assert db1.stocks[|db.stocks|].id == stock.id;
    assert AddPriceHistory(db1, stock.id, stock.currentPrice) == Success(SeededOne(db, seed));
  }

  /** The rows `r` appended after `base` are exactly the rows appended to `cache`. */
  predicate Mirrors(base: seq<Stock>, cache: seq<Stock>, r: (Db, seq<Stock>))
  {
    && |base| <= |r.0.stocks|
    && r.0.stocks == base + r.0.stocks[|base|..]
    && r.1 == cache + r.0.stocks[|base|..]
  }

  lemma MirrorsCons(base: seq<Stock>, cache: seq<Stock>, stock: Stock, r: (Db, seq<Stock>))
    requires Mirrors(base + [stock], cache + [stock], r)
    ensures Mirrors(base, cache, r)
  {
    var added := r.0.stocks[|base| + 1..];
    assert r.0.stocks == base + ([stock] + added);
    assert r.0.stocks[|base|..] == [stock] + added;
    assert r.1 == cache + ([stock] + added);
  }

  /** Whatever happens, the cache ends up holding exactly the rows seeding
      appended to the table. */
  lemma {:induction false} SeedStocksCacheMatches(db: Db, cache: seq<Stock>, seeds: seq<SeedStock>)
    ensures Mirrors(db.stocks, cache, SeedStocks(db, cache, seeds))
    decreases |seeds|
  {
    if |seeds| > 0 {
      var seed := seeds[0];
      match CreateStock(db, seed.symbol, seed.name, seed.price, seed.price)
      case Failure(_) =>
      case Success((db1, stock)) =>
        match AddPriceHistory(db1, stock.id, stock.currentPrice)
        case Failure(_) =>
          assert SeedStocks(db, cache, seeds) == (db1, cache + [stock]);
          assert db1.stocks == db.stocks + [stock];
        case Success(db2) =>
          SeedStocksCacheMatches(db2, cache + [stock], seeds[1..]);
          var r := SeedStocks(db2, cache + [stock], seeds[1..]);
          assert SeedStocks(db, cache, seeds) == r;
          assert db2.stocks == db.stocks + [stock];
          MirrorsCons(db.stocks, cache, stock, r);
    }
  }

  /** No listing's symbol is already in the table. */
  predicate SymbolsFree(stocks: seq<Stock>, seeds: seq<SeedStock>)
  {
    forall i, k :: 0 <= i < |stocks| && 0 <= k < |seeds| ==> stocks[i].symbol != seeds[k].symbol
  }

  lemma SeedRowsCons(start: int, seeds: seq<SeedStock>)
    requires |seeds| > 0
    ensures SeedRows(start, seeds) == [SeedRow(start, seeds[0])] + SeedRows(start + 1, seeds[1..])
    ensures SeedHistory(start, seeds) == [PriceHistoryEntry(start, seeds[0].price)] + SeedHistory(start + 1, seeds[1..])
  {
  }

  lemma RestStillFree(db: Db, seeds: seq<SeedStock>)
    requires |seeds| > 0 && SeedsDistinct(seeds) && SymbolsFree(db.stocks, seeds)
    ensures SeedsDistinct(seeds[1..])
    ensures SymbolsFree(SeededOne(db, seeds[0]).stocks, seeds[1..])
  {
    var stocks' := SeededOne(db, seeds[0]).stocks;
    forall i, k | 0 <= i < |stocks'| && 0 <= k < |seeds[1..]|
      ensures stocks'[i].symbol != seeds[1..][k].symbol
    {
      assert seeds[1..][k] == seeds[k + 1];
    }
    forall i, j | 0 <= i < j < |seeds[1..]|
      ensures seeds[1..][i].symbol != seeds[1..][j].symbol
    {
      assert seeds[1..][i] == seeds[i + 1] && seeds[1..][j] == seeds[j + 1];
    }
  }

  /** What seeding `seeds` from `db` into `cache` produces when every listing
      is created. */
  predicate SeededAll(db: Db, cache: seq<Stock>, seeds: seq<SeedStock>, r: (Db, seq<Stock>))
  {
    && r.0.stocks == db.stocks + SeedRows(db.nextStockId, seeds)
    && r.0.history == db.history + SeedHistory(db.nextStockId, seeds)
    && r.0.nextStockId == db.nextStockId + |seeds|
    && r.1 == cache + SeedRows(db.nextStockId, seeds)
  }

  lemma SeededAllCons(db: Db, cache: seq<Stock>, seeds: seq<SeedStock>, r: (Db, seq<Stock>))
    requires |seeds| > 0
    requires SeededAll(SeededOne(db, seeds[0]), cache + [SeedRow(db.nextStockId, seeds[0])], seeds[1..], r)
    ensures SeededAll(db, cache, seeds, r)
  {
    var stock := SeedRow(db.nextStockId, seeds[0]);
    var entry := PriceHistoryEntry(stock.id, stock.currentPrice);
    SeedRowsCons(db.nextStockId, seeds);
    var rows := SeedRows(db.nextStockId + 1, seeds[1..]);
    var entries := SeedHistory(db.nextStockId + 1, seeds[1..]);
    assert (db.stocks + [stock]) + rows == db.stocks + ([stock] + rows);
    assert (cache + [stock]) + rows == cache + ([stock] + rows);
    assert (db.history + [entry]) + entries == db.history + ([entry] + entries);
  }

  /** With distinct symbols that are all free, every listing is created, in
      order, with consecutive ids from the serial counter, and each gets one
      history entry at its seed price; the cache holds the same rows. */
  lemma {:induction false} SeedStocksCreatesAll(db: Db, cache: seq<Stock>, seeds: seq<SeedStock>)
    requires SeedsDistinct(seeds) && SymbolsFree(db.stocks, seeds)
    ensures SeededAll(db, cache, seeds, SeedStocks(db, cache, seeds))
    decreases |seeds|
  {
    if |seeds| > 0 {
      var db2 := SeededOne(db, seeds[0]);
      var cache2 := cache + [SeedRow(db.nextStockId, seeds[0])];
      SeedStep(db, cache, seeds);
      RestStillFree(db, seeds);
      SeedStocksCreatesAll(db2, cache2, seeds[1..]);
      SeededAllCons(db, cache, seeds, SeedStocks(db2, cache2, seeds[1..]));
    }
  }

  /** Seeding listings with positive prices keeps the database valid. */
  lemma {:induction false} SeedStocksKeepsValid(db: Db, cache: seq<Stock>, seeds: seq<SeedStock>)
    requires Valid(db) && SeedsPriced(seeds)
    ensures Valid(SeedStocks(db, cache, seeds).0)
    decreases |seeds|
  {
    if |seeds| > 0 {
      var seed := seeds[0];
      match CreateStock(db, seed.symbol, seed.name, seed.price, seed.price)
      case Failure(_) =>
      case Success((db1, stock)) =>
        CreateStockPreservesValid(db, seed.symbol, seed.name, seed.price, seed.price);
        match AddPriceHistory(db1, stock.id, stock.currentPrice)
        case Failure(_) =>
        case Success(db2) =>
          assert db2 == db1.(history := db2.history);
          assert SeedsPriced(seeds[1..]) by {
            forall k | 0 <= k < |seeds[1..]| ensures seeds[1..][k].price > 0.0 {
              assert seeds[1..][k] == seeds[k + 1];
            }
          }
          SeedStocksKeepsValid(db2, cache + [stock], seeds[1..]);
    }
  }

  /** `initialize`: the cache is loaded from the stock table; an empty table
      is seeded with the catalogue first. Either way the cache ends up equal
      to the table. */
  function Initialize(db: Db): (r: (Db, seq<Stock>))
    ensures r.1 == r.0.stocks
    ensures |db.stocks| > 0 ==> r.0 == db
  {
    if |db.stocks| == 0 then
      SeedStocksCacheMatches(db, [], InitialStocks);
      var r := SeedStocks(db, [], InitialStocks);
      assert r.0.stocks == [] + r.0.stocks[0..];
      r
    else (db, db.stocks)
  }

  /** Starting on an empty table writes the whole catalogue: twenty rows with
      consecutive ids, previous close equal to the price, one history entry
      each, and a valid database stays valid. */
  lemma InitializeSeeds(db: Db)
    requires |db.stocks| == 0
    ensures var r := Initialize(db);
      && r.0.stocks == SeedRows(db.nextStockId, InitialStocks)
      && |r.0.stocks| == 20
      && r.0.history == db.history + SeedHistory(db.nextStockId, InitialStocks)
      && r.0.nextStockId == db.nextStockId + 20
      && (Valid(db) ==> Valid(r.0))
  {
    InitialStocksWellFormed();
    InitialStocksPriced();
    SeedStocksCreatesAll(db, [], InitialStocks);
    assert db.stocks + SeedRows(db.nextStockId, InitialStocks) == SeedRows(db.nextStockId, InitialStocks);
    if Valid(db) {
      SeedStocksKeepsValid(db, [], InitialStocks);
    }
  }

  /** A restart on a seeded table only reloads it. */
  lemma InitializeIdempotent(db: Db)
    ensures var r := Initialize(db);
      Initialize(r.0) == r
  {
    if |db.stocks| == 0 {
      InitializeSeeds(db);
    }
  }

  // ---------------------------------------------------------------- the tick

  /** The price a tick gives a cached stock for draw `u`; it is computed
      from the cached price, not from the table. */
  function TickPrice(stock: Stock, u: real): real
    requires 0.0 <= u < 1.0
  {
    NextPrice(stock.currentPrice, ChangeFactor(u))
  }

  /** A row after the tick has moved it: the old price becomes the previous close. */
  function TickRow(stock: Stock, u: real): Stock
    requires 0.0 <= u < 1.0
  {
    stock.(previousClose := stock.currentPrice, currentPrice := TickPrice(stock, u))
  }

  predicate Draws(draws: seq<real>)
  {
    forall k :: 0 <= k < |draws| ==> 0.0 <= draws[k] < 1.0
  }

  /** The same ids at the same positions. */
  predicate SameIds(a: seq<Stock>, b: seq<Stock>)
  {
    |a| == |b| && forall k :: 0 <= k < |a| ==> a[k].id == b[k].id
  }

  /** One iteration of `updatePrices`, for the cache entry at `i`: write the
      new price (the table's current price becomes the previous close), log
      it, and replace the first cache entry with that id by the updated row.
      It fails when the table has no such stock. */
  function TickStock(db: Db, cache: seq<Stock>, i: nat, u: real): (r: Result<(Db, seq<Stock>), StorageError>)
    requires i < |cache| && 0.0 <= u < 1.0
    ensures r.Failure? <==> GetStock(db.stocks, cache[i].id).None?
    ensures r.Success? ==>
      var (db', cache') := r.value;
      && db' == db.(stocks := db'.stocks, history := db.history + [PriceHistoryEntry(cache[i].id, TickPrice(cache[i], u))])
      && SameIds(db'.stocks, db.stocks)
      && SameIds(cache', cache)
  {
    var stock := cache[i];
    var price := TickPrice(stock, u);
    match UpdateStockPrice(db, stock.id, price)
    case Failure(e) => Failure(e)
    case Success((db1, updated)) =>
      match AddPriceHistory(db1, stock.id, price)
      case Failure(e) => Failure(e)
      case Success(db2) =>
        match StockIndex(cache, stock.id)
        case None => Success((db2, cache))
        case Some(k) => Success((db2, cache[k := updated]))
  }

  /** What a successful step writes: every table row with the cached id
      takes the new price, with the table's old current price as its previous
      close; rows with other ids are unchanged; and the first cache entry with
      that id becomes the updated row. */
  lemma TickStockWrites(db: Db, cache: seq<Stock>, i: nat, u: real)
    requires i < |cache| && 0.0 <= u < 1.0
    requires TickStock(db, cache, i, u).Success?
    ensures var (db', cache') := TickStock(db, cache, i, u).value;
      var before := GetStock(db.stocks, cache[i].id).value;
      var row := before.(previousClose := before.currentPrice, currentPrice := TickPrice(cache[i], u));
      && (forall k :: 0 <= k < |db.stocks| && db.stocks[k].id != cache[i].id ==> db'.stocks[k] == db.stocks[k])
      && (forall k :: 0 <= k < |db.stocks| && db.stocks[k].id == cache[i].id ==>
            db'.stocks[k] == db.stocks[k].(previousClose := before.currentPrice, currentPrice := TickPrice(cache[i], u)))
      && StockIndex(cache, cache[i].id).Some?
      && cache' == cache[StockIndex(cache, cache[i].id).value := row]
  {
  }

  /** With the cache equal to a keyed table, the step moves exactly row `i`
      and the cache follows it. */
  lemma TickStockSynced(db: Db, i: nat, u: real)
    requires StocksKeyed(db.stocks) && i < |db.stocks| && 0.0 <= u < 1.0
    ensures var row := TickRow(db.stocks[i], u);
      TickStock(db, db.stocks, i, u)
        == Success((db.(stocks := db.stocks[i := row],
                        history := db.history + [PriceHistoryEntry(db.stocks[i].id, TickPrice(db.stocks[i], u))]),
                    db.stocks[i := row]))
  {
    var stock := db.stocks[i];
    var price := TickPrice(stock, u);
    StockAt(db.stocks, i);
    var row := TickRow(stock, u);
    var r := UpdateStockPrice(db, stock.id, price);
    assert r.value.1 == row;
    assert r.value.0.stocks == db.stocks[i := row] by {
      forall k | 0 <= k < |db.stocks|
        ensures r.value.0.stocks[k] == db.stocks[i := row][k]
      {
        if k != i {
          assert db.stocks[k].id != stock.id;
        }
      }
    }
  }

  /** A step keeps a valid database valid. */
  lemma TickStockKeepsValid(db: Db, cache: seq<Stock>, i: nat, u: real)
    requires Valid(db) && i < |cache| && 0.0 <= u < 1.0
    requires TickStock(db, cache, i, u).Success?
    ensures Valid(TickStock(db, cache, i, u).value.0)
  {
    var price := TickPrice(cache[i], u);
    UpdateStockPricePreservesValid(db, cache[i].id, price);
    var db1 := UpdateStockPrice(db, cache[i].id, price).value.0;
    assert TickStock(db, cache, i, u).value.0 == db1.(history := TickStock(db, cache, i, u).value.0.history);
  }

  /** The table after the first `n` cached stocks have ticked. */
  function Ticked(stocks: seq<Stock>, draws: seq<real>, n: nat): (r: seq<Stock>)
    requires |draws| == |stocks| && Draws(draws) && n <= |stocks|
    ensures |r| == |stocks|
  {
    seq(|stocks|, k requires 0 <= k < |stocks| => if k < n then TickRow(stocks[k], draws[k]) else stocks[k])
  }

  /** The history entries the first `n` ticks log, in order. */
  function TickHistory(stocks: seq<Stock>, draws: seq<real>, n: nat): (r: seq<PriceHistoryEntry>)
    requires |draws| == |stocks| && Draws(draws) && n <= |stocks|
    ensures |r| == n
  {
    seq(n, k requires 0 <= k < n => PriceHistoryEntry(stocks[k].id, TickPrice(stocks[k], draws[k])))
  }

  lemma TickedNext(stocks: seq<Stock>, draws: seq<real>, n: nat)
    requires |draws| == |stocks| && Draws(draws) && n < |stocks|
    ensures Ticked(stocks, draws, n)[n] == stocks[n]
    ensures Ticked(stocks, draws, n)[n := TickRow(stocks[n], draws[n])] == Ticked(stocks, draws, n + 1)
    ensures TickHistory(stocks, draws, n) + [PriceHistoryEntry(stocks[n].id, TickPrice(stocks[n], draws[n]))]
         == TickHistory(stocks, draws, n + 1)
  {
  }

  /** The cache and the table agree on a keyed table: the state `initialize`
      leaves behind. */
  predicate Synced(db: Db, cache: seq<Stock>)
  {
    cache == db.stocks && StocksKeyed(db.stocks)
  }

  /** After `n` entries of a tick from (`db`, `cache`) reached (`d`, `c`):
      only prices and history moved, and the history gained `n` entries. */
  predicate TickFrame(db: Db, cache: seq<Stock>, d: Db, c: seq<Stock>, n: nat)
  {
    && n <= |cache| && SameIds(c, cache)
    && d == db.(stocks := d.stocks, history := d.history)
    && SameIds(d.stocks, db.stocks)
    && |d.history| == |db.history| + n && d.history[..|db.history|] == db.history
  }

  /** The first `n` cached ids are in the table. */
  predicate FoundUpTo(stocks: seq<Stock>, cache: seq<Stock>, n: nat)
  {
    forall k :: 0 <= k < n && k < |cache| ==> GetStock(stocks, cache[k].id).Some?
  }

  /** When the cache agrees with the table, the first `n` rows have ticked
      and the cache still agrees. */
  predicate SyncedUpTo(db: Db, cache: seq<Stock>, draws: seq<real>, d: Db, c: seq<Stock>, n: nat)
    requires |draws| == |cache| && Draws(draws) && n <= |cache|
  {
    Synced(db, cache) ==>
      && d.stocks == Ticked(cache, draws, n)
      && d.history == db.history + TickHistory(cache, draws, n)
      && c == d.stocks
  }

  /** One of the first `n` cached entries carries `id`. */
  predicate TickedId(cache: seq<Stock>, n: nat, id: int)
  {
    exists j :: 0 <= j < n && j < |cache| && cache[j].id == id
  }

  /** Every row of `stocks` whose id none of the first `n` cached entries
      carries is unchanged in `d`. */
  predicate UntouchedBeyond(stocks: seq<Stock>, d: seq<Stock>, cache: seq<Stock>, n: nat)
  {
    |d| == |stocks| && forall k :: 0 <= k < |stocks| && !TickedId(cache, n, stocks[k].id) ==> d[k] == stocks[k]
  }

  /** Tables with the same ids at the same positions find the same ids. */
  lemma SameIdsFind(a: seq<Stock>, b: seq<Stock>, id: int)
    requires SameIds(a, b)
    ensures GetStock(a, id).None? <==> GetStock(b, id).None?
  {
  }

  lemma FrameStep(db: Db, cache: seq<Stock>, d: Db, c: seq<Stock>, n: nat, u: real)
    requires TickFrame(db, cache, d, c, n) && n < |cache| && 0.0 <= u < 1.0
    requires TickStock(d, c, n, u).Success?
    ensures var (d', c') := TickStock(d, c, n, u).value;
      TickFrame(db, cache, d', c', n + 1)
  {
    var (d', c') := TickStock(d, c, n, u).value;
    assert d'.history[..|db.history|] == d.history[..|db.history|];
  }

  lemma UntouchedStep(db: Db, cache: seq<Stock>, d: Db, c: seq<Stock>, n: nat, u: real)
    requires TickFrame(db, cache, d, c, n) && n < |cache| && 0.0 <= u < 1.0
    requires UntouchedBeyond(db.stocks, d.stocks, cache, n)
    requires TickStock(d, c, n, u).Success?
    ensures UntouchedBeyond(db.stocks, TickStock(d, c, n, u).value.0.stocks, cache, n + 1)
  {
    var d' := TickStock(d, c, n, u).value.0;
    forall k | 0 <= k < |db.stocks| && !TickedId(cache, n + 1, db.stocks[k].id)
      ensures d'.stocks[k] == db.stocks[k]
    {
      TickStockWrites(d, c, n, u);
      assert !TickedId(cache, n, db.stocks[k].id);
      assert c[n].id == cache[n].id;
      assert d.stocks[k].id == db.stocks[k].id != c[n].id;
    }
  }

  lemma FoundStep(db: Db, cache: seq<Stock>, d: Db, c: seq<Stock>, n: nat, u: real)
    requires TickFrame(db, cache, d, c, n) && n < |cache| && 0.0 <= u < 1.0
    requires FoundUpTo(db.stocks, cache, n)
    requires TickStock(d, c, n, u).Success?
    ensures FoundUpTo(db.stocks, cache, n + 1)
  {
    SameIdsFind(d.stocks, db.stocks, c[n].id);
    assert c[n].id == cache[n].id;
  }

  lemma SyncedProgress(history: seq<PriceHistoryEntry>, cache: seq<Stock>, draws: seq<real>, d: Db, n: nat)
    requires |draws| == |cache| && Draws(draws) && n < |cache|
    requires StocksKeyed(cache) && d.stocks == Ticked(cache, draws, n)
    requires d.history == history + TickHistory(cache, draws, n)
    ensures TickStock(d, d.stocks, n, draws[n]).Success?
    ensures var (d', c') := TickStock(d, d.stocks, n, draws[n]).value;
      && d'.stocks == Ticked(cache, draws, n + 1)
      && d'.history == history + TickHistory(cache, draws, n + 1)
      && c' == d'.stocks
  {
    SyncedStep(cache, draws, d, n);
    TickedNext(cache, draws, n);
    var entry := PriceHistoryEntry(cache[n].id, TickPrice(cache[n], draws[n]));
    assert (history + TickHistory(cache, draws, n)) + [entry] == history + (TickHistory(cache, draws, n) + [entry]);
  }

  /** Ticking keeps ids and symbols, so a keyed table stays keyed. */
  lemma TickedKeyed(stocks: seq<Stock>, draws: seq<real>, n: nat)
    requires |draws| == |stocks| && Draws(draws) && n <= |stocks|
    requires StocksKeyed(stocks)
    ensures StocksKeyed(Ticked(stocks, draws, n))
  {
    var t := Ticked(stocks, draws, n);
    assert forall k :: 0 <= k < |t| ==> t[k].id == stocks[k].id && t[k].symbol == stocks[k].symbol;
  }

  /** On a synced state, the step at `n` moves row `n` and nothing else. */
  lemma SyncedStep(cache: seq<Stock>, draws: seq<real>, d: Db, n: nat)
    requires |draws| == |cache| && Draws(draws) && n < |cache|
    requires StocksKeyed(cache) && d.stocks == Ticked(cache, draws, n)
    ensures var next := Ticked(cache, draws, n + 1);
      TickStock(d, d.stocks, n, draws[n])
        == Success((d.(stocks := next,
                       history := d.history + [PriceHistoryEntry(cache[n].id, TickPrice(cache[n], draws[n]))]),
                    next))
  {
    TickedKeyed(cache, draws, n);
    TickedNext(cache, draws, n);
    TickStockSynced(d, n, draws[n]);
  }

  /** `updatePrices`, one draw per cache entry. The loop sits in one `try`,
      so a stock missing from the table ends the tick; `processed` counts the
      entries that went through, whose writes stay.
      The table keeps its ids, the history gains one entry per processed
      stock, the tick stops exactly at the first cached id the table lacks,
      and validity is kept. When the cache agrees with the table, every stock
      ticks and the two still agree afterwards. */
  method UpdatePrices(db: Db, cache: seq<Stock>, draws: seq<real>) returns (db': Db, cache': seq<Stock>, processed: nat)
    requires |draws| == |cache| && Draws(draws)
    ensures TickFrame(db, cache, db', cache', processed)
    ensures FoundUpTo(db.stocks, cache, processed)
    ensures processed < |cache| ==> GetStock(db.stocks, cache[processed].id).None?
    ensures Valid(db) ==> Valid(db')
    ensures Synced(db, cache) ==> processed == |cache|
    ensures SyncedUpTo(db, cache, draws, db', cache', processed)
    ensures UntouchedBeyond(db.stocks, db'.stocks, cache, processed)
  {
    db', cache', processed := db, cache, 0;
    while processed < |cache|
      invariant TickFrame(db, cache, db', cache', processed)
      invariant FoundUpTo(db.stocks, cache, processed)
      invariant Valid(db) ==> Valid(db')
      invariant SyncedUpTo(db, cache, draws, db', cache', processed)
      invariant UntouchedBeyond(db.stocks, db'.stocks, cache, processed)
      decreases |cache| - processed
    {
      var u := draws[processed];
      var step := TickStock(db', cache', processed, u);
      if step.Failure? {
        SameIdsFind(db'.stocks, db.stocks, cache'[processed].id);
        if Synced(db, cache) {
          SyncedProgress(db.history, cache, draws, db', processed);
        }
        return;
      }
      FrameStep(db, cache, db', cache', processed, u);
      FoundStep(db, cache, db', cache', processed, u);
      UntouchedStep(db, cache, db', cache', processed, u);
      if Valid(db) {
        TickStockKeepsValid(db', cache', processed, u);
      }
      if Synced(db, cache) {
        SyncedProgress(db.history, cache, draws, db', processed);
      }
      db', cache' := step.value.0, step.value.1;
      processed := processed + 1;
    }
  }

  lemma MulLess(a: real, b: real, c: real)
    requires a > 0.0 && b < c
    ensures a * b < a * c
  {
    assert a * c - a * b == a * (c - b);
  }
}
