/**
 * The daily valuation series of a portfolio (`get_portfolio_amounts::run`).
 *
 * From the day of the portfolio's first trade up to "today", every calendar day
 * gets one row holding the money invested so far (the signed sum of
 * price × quantity of the trades dated on or before that day) and the gross
 * total (each traded asset's net quantity held that day times its latest price
 * on or before that day, or zero when it has none).
 *
 * The two database queries are inputs: the trades query yields one `DayTrade`
 * per (asset, day), ordered by day, and the price query is `Window` applied to
 * the `asset_prices` table read in the order of its ORDER BY clause.
 */
module PortfolioAmounts {
  import opened Common
  import Keys

  /** One row of the trades query: all trades of one asset on one day, summed. */
  datatype DayTrade = DayTrade(assetId: AssetId, date: Date, amount: Decimal, quantity: Decimal)

  /** One row of the `asset_prices` table. */
  datatype PriceRow = PriceRow(assetId: AssetId, date: Date, price: Decimal)

  datatype PortfolioAmount = PortfolioAmount(grossTotal: Decimal, invested: Decimal, date: Date)

  /** The trades query orders its rows by date. */
  predicate ByDate(ts: seq<DayTrade>) {
    forall i, j :: 0 <= i < j < |ts| ==> ts[i].date <= ts[j].date
  }

  predicate PriceOrder(p: PriceRow, q: PriceRow) {
    p.assetId < q.assetId || (p.assetId == q.assetId && p.date >= q.date)
  }

  /** The price query orders its rows by asset id, then by descending date. */
  predicate ByAssetThenDateDesc(ps: seq<PriceRow>) {
    forall i, j :: 0 <= i < j < |ps| ==> PriceOrder(ps[i], ps[j])
  }

  // ----- the calendar -----

  function CalendarLength(first: Date, last: Date): nat {
    if first <= last then last - first + 1 else 1
  }

  function Calendar(first: Date, last: Date): seq<Date> {
    seq(CalendarLength(first, last), i => first + i)
  }

  /**
   * `date_series`: every day from `first` to `last`. The loop pushes before it
   * tests, so `first` is emitted even when `last` is earlier.
   */
  method DateSeries(first: Date, last: Date) returns (dates: seq<Date>)
    ensures |dates| == if first <= last then last - first + 1 else 1
    ensures forall i :: 0 <= i < |dates| ==> dates[i] == first + i
    ensures forall i :: 0 <= i < |dates| ==> dates[i] <= if first <= last then last else first
  {
    var date := first;
    dates := [];
    while true
      invariant date == first + |dates|
      invariant forall i :: 0 <= i < |dates| ==> dates[i] == first + i
      invariant |dates| > 0 ==> date <= last
      decreases last - date + 1
    {
      dates := dates + [date];
      date := date + 1;
      if date > last {
        break;
      }
    }
  }

  // ----- the assets traded -----

  function AssetOf(t: DayTrade): AssetId {
    t.assetId
  }

  /** The distinct asset ids of the trades, ascending. */
  function AssetIds(ts: seq<DayTrade>): seq<AssetId> {
    Keys.SortedKeys(ts, AssetOf, Keys.IntLess)
  }

  /**
   * The ids collected from the trades, sorted and deduplicated
   * (`sort_unstable` then `dedup`): strictly ascending, and exactly the traded
   * assets.
   */
  method SortedAssetIds(ts: seq<DayTrade>) returns (ids: seq<AssetId>)
    ensures forall i, j :: 0 <= i < j < |ids| ==> ids[i] < ids[j]
    ensures forall i :: 0 <= i < |ts| ==> ts[i].assetId in ids
    ensures forall a :: a in ids ==> exists i :: 0 <= i < |ts| && ts[i].assetId == a
    ensures ids == AssetIds(ts)
  {
    Keys.IntLessIsStrictTotalOrder();
    ids := [];
    for n := 0 to |ts|
      invariant Keys.Sorted(ids, Keys.IntLess)
      invariant forall i :: 0 <= i < n ==> ts[i].assetId in ids
      invariant forall a :: a in ids ==> exists i :: 0 <= i < n && ts[i].assetId == a
    {
      ids := Keys.Insert(ids, ts[n].assetId, Keys.IntLess);
    }
    forall k ensures k in ids <==> exists i :: 0 <= i < |ts| && AssetOf(ts[i]) == k {
      if k in ids {
        var i :| 0 <= i < |ts| && ts[i].assetId == k;
        assert AssetOf(ts[i]) == k;
      }
    }
    Keys.SortedKeysUnique(ts, AssetOf, Keys.IntLess, ids);
  }

  // ----- the price query and the as-of lookup -----

  /**
   * The price query: the rows of the traded assets dated on a day of the
   * calendar, in table order.
   */
  function Window(table: seq<PriceRow>, ids: seq<AssetId>, dates: seq<Date>): seq<PriceRow>
  {
    if |table| == 0 then []
    else (if table[0].assetId in ids && table[0].date in dates then [table[0]] else []) + Window(table[1..], ids, dates)
  }

  lemma {:induction false} WindowMembers(table: seq<PriceRow>, ids: seq<AssetId>, dates: seq<Date>)
    ensures forall p :: p in Window(table, ids, dates) <==> p in table && p.assetId in ids && p.date in dates
  {
    if |table| > 0 {
      WindowMembers(table[1..], ids, dates);
      assert table == [table[0]] + table[1..];
    }
  }

  /** Filtering keeps the query's order. */
  lemma {:induction false} WindowSorted(table: seq<PriceRow>, ids: seq<AssetId>, dates: seq<Date>)
    requires ByAssetThenDateDesc(table)
    ensures ByAssetThenDateDesc(Window(table, ids, dates))
  {
    if |table| > 0 {
      WindowSorted(table[1..], ids, dates);
      WindowMembers(table[1..], ids, dates);
      var rest := Window(table[1..], ids, dates);
      forall q | q in rest ensures PriceOrder(table[0], q) {
        var j :| 1 <= j < |table| && table[j] == q;
      }
    }
  }

  lemma {:induction false} WindowAppend(t1: seq<PriceRow>, t2: seq<PriceRow>, ids: seq<AssetId>, dates: seq<Date>)
    ensures Window(t1 + t2, ids, dates) == Window(t1, ids, dates) + Window(t2, ids, dates)
  {
    if |t1| > 0 {
      assert (t1 + t2)[1..] == t1[1..] + t2;
      WindowAppend(t1[1..], t2, ids, dates);
    } else {
      assert t1 + t2 == t2;
    }
  }

  /**
   * A price row of an asset that was not traded, or dated on a day outside the
   * calendar, never reaches the query result, wherever it sits in the table.
   */
  lemma WindowIgnoresOutside(t1: seq<PriceRow>, p: PriceRow, t2: seq<PriceRow>, ids: seq<AssetId>, dates: seq<Date>)
    requires p.assetId !in ids || p.date !in dates
    ensures Window(t1 + [p] + t2, ids, dates) == Window(t1 + t2, ids, dates)
  {
    WindowAppend(t1 + [p], t2, ids, dates);
    WindowAppend(t1, [p], ids, dates);
    WindowAppend(t1, t2, ids, dates);
    assert Window([p], ids, dates) == [];
  }

  /** The price of asset `a` on day `d`: the first row of `a` dated on or before `d`, else 0. */
  function AsOf(prices: seq<PriceRow>, a: AssetId, d: Date): Decimal
  {
    if |prices| == 0 then 0.0
    else if prices[0].assetId == a && prices[0].date <= d then prices[0].price
    else AsOf(prices[1..], a, d)
  }

  predicate Observes(p: PriceRow, a: AssetId, d: Date) {
    p.assetId == a && p.date <= d
  }

  /**
   * On rows ordered by asset then descending date, the first row of `a` dated
   * on or before `d` is the latest such observation; without one the price is 0.
   */
  lemma {:induction false} AsOfIsLatest(prices: seq<PriceRow>, a: AssetId, d: Date)
    requires ByAssetThenDateDesc(prices)
    ensures (forall k :: 0 <= k < |prices| ==> !Observes(prices[k], a, d)) ==> AsOf(prices, a, d) == 0.0
    ensures (exists k :: 0 <= k < |prices| && Observes(prices[k], a, d)) ==>
      exists j :: 0 <= j < |prices| && Observes(prices[j], a, d) && AsOf(prices, a, d) == prices[j].price &&
        forall k :: 0 <= k < |prices| && Observes(prices[k], a, d) ==> prices[k].date <= prices[j].date
  {
    if |prices| > 0 {
      if Observes(prices[0], a, d) {
        forall k | 0 <= k < |prices| && Observes(prices[k], a, d) ensures prices[k].date <= prices[0].date {
          if k > 0 {
            assert PriceOrder(prices[0], prices[k]);
          }
        }
      } else {
        var tail := prices[1..];
        AsOfIsLatest(tail, a, d);
        if exists k :: 0 <= k < |prices| && Observes(prices[k], a, d) {
          var k :| 0 <= k < |prices| && Observes(prices[k], a, d);
          assert Observes(tail[k - 1], a, d);
          var j :| 0 <= j < |tail| && Observes(tail[j], a, d) && AsOf(tail, a, d) == tail[j].price &&
            forall k :: 0 <= k < |tail| && Observes(tail[k], a, d) ==> tail[k].date <= tail[j].date;
          forall k | 0 <= k < |prices| && Observes(prices[k], a, d) ensures prices[k].date <= prices[j + 1].date {
            assert Observes(tail[k - 1], a, d);
          }
        } else {
          forall k | 0 <= k < |tail| ensures !Observes(tail[k], a, d) {
            assert tail[k] == prices[k + 1];
          }
        }
      }
    }
  }

  // ----- the running totals -----

  /** What to add up over the trades: their cost, or their worth at as-of prices. */
  datatype Measure = Cost | Worth(prices: seq<PriceRow>)

  /** What one trade row contributes to the totals of day `d`. */
  function Contribution(t: DayTrade, m: Measure, d: Date): Decimal {
    if t.date > d then 0.0
    else match m
      case Cost => t.amount
      case Worth(prices) => t.quantity * AsOf(prices, t.assetId, d)
  }

  /** The sum over all trade rows. */
  function Total(ts: seq<DayTrade>, m: Measure, d: Date): Decimal {
    if |ts| == 0 then 0.0 else Total(ts[..|ts| - 1], m, d) + Contribution(ts[|ts| - 1], m, d)
  }

  /** The sum over the trade rows of asset `a`. */
  function TotalOf(ts: seq<DayTrade>, a: AssetId, m: Measure, d: Date): Decimal {
    if |ts| == 0 then 0.0
    else TotalOf(ts[..|ts| - 1], a, m, d) + (if ts[|ts| - 1].assetId == a then Contribution(ts[|ts| - 1], m, d) else 0.0)
  }

  /** The per-asset sums, added up over the assets `ids` in turn. */
  function TotalOver(ts: seq<DayTrade>, ids: seq<AssetId>, m: Measure, d: Date): Decimal {
    if |ids| == 0 then 0.0 else TotalOver(ts, ids[..|ids| - 1], m, d) + TotalOf(ts, ids[|ids| - 1], m, d)
  }

  /** invested(d): the cost of every trade dated on or before `d`. */
  function Invested(ts: seq<DayTrade>, d: Date): Decimal {
    Total(ts, Cost, d)
  }

  /** gross_total(d): every trade dated on or before `d`, at its asset's as-of price. */
  function GrossTotal(ts: seq<DayTrade>, prices: seq<PriceRow>, d: Date): Decimal {
    Total(ts, Worth(prices), d)
  }

  lemma {:induction false} TotalOfSnoc(ts: seq<DayTrade>, t: DayTrade, a: AssetId, m: Measure, d: Date)
    ensures TotalOf(ts + [t], a, m, d) == TotalOf(ts, a, m, d) + (if t.assetId == a then Contribution(t, m, d) else 0.0)
  {
    assert (ts + [t])[..|ts|] == ts;
  }

  lemma {:induction false} TotalOverOfEmpty(ids: seq<AssetId>, m: Measure, d: Date)
    ensures TotalOver([], ids, m, d) == 0.0
  {
    if |ids| > 0 {
      TotalOverOfEmpty(ids[..|ids| - 1], m, d);
    }
  }

  lemma {:induction false} TotalOverSnoc(ts: seq<DayTrade>, t: DayTrade, ids: seq<AssetId>, m: Measure, d: Date)
    requires Keys.Distinct(ids)
    ensures TotalOver(ts + [t], ids, m, d)
         == TotalOver(ts, ids, m, d) + (if t.assetId in ids then Contribution(t, m, d) else 0.0)
  {
    if |ids| > 0 {
      var front, a := ids[..|ids| - 1], ids[|ids| - 1];
      assert ids == front + [a];
      TotalOverSnoc(ts, t, front, m, d);
      TotalOfSnoc(ts, t, a, m, d);
      assert t.assetId == a ==> t.assetId !in front;
    }
  }

  /**
   * Adding up asset by asset, over distinct ids that cover every traded asset,
   * gives the sum over all trade rows.
   */
  lemma {:induction false} Regroup(ts: seq<DayTrade>, ids: seq<AssetId>, m: Measure, d: Date)
    requires Keys.Distinct(ids)
    requires forall i :: 0 <= i < |ts| ==> ts[i].assetId in ids
    ensures TotalOver(ts, ids, m, d) == Total(ts, m, d)
  {
    if |ts| == 0 {
      TotalOverOfEmpty(ids, m, d);
    } else {
      var front, t := ts[..|ts| - 1], ts[|ts| - 1];
      assert ts == front + [t];
      Regroup(front, ids, m, d);
      TotalOverSnoc(front, t, ids, m, d);
    }
  }

  /** The net quantity of asset `a` held on day `d`. */
  function Held(ts: seq<DayTrade>, a: AssetId, d: Date): Decimal {
    if |ts| == 0 then 0.0
    else Held(ts[..|ts| - 1], a, d) + (if ts[|ts| - 1].assetId == a && ts[|ts| - 1].date <= d then ts[|ts| - 1].quantity else 0.0)
  }

  /** Σ over the assets `ids` of price-as-of(a, d) × held(a, d). */
  function HoldingsValue(ts: seq<DayTrade>, prices: seq<PriceRow>, ids: seq<AssetId>, d: Date): Decimal {
    if |ids| == 0 then 0.0
    else HoldingsValue(ts, prices, ids[..|ids| - 1], d) + AsOf(prices, ids[|ids| - 1], d) * Held(ts, ids[|ids| - 1], d)
  }

  /** The worth of one asset's trades is its as-of price times the quantity held. */
  lemma {:induction false} WorthOfAsset(ts: seq<DayTrade>, prices: seq<PriceRow>, a: AssetId, d: Date)
    ensures TotalOf(ts, a, Worth(prices), d) == AsOf(prices, a, d) * Held(ts, a, d)
  {
    if |ts| > 0 {
      var front, t := ts[..|ts| - 1], ts[|ts| - 1];
      WorthOfAsset(front, prices, a, d);
      var p, h := AsOf(prices, a, d), Held(front, a, d);
      if t.assetId == a && t.date <= d {
        assert p * (h + t.quantity) == p * h + t.quantity * p;
      }
    }
  }

  /**
   * The gross total of day `d` is, summed over the traded assets, the asset's
   * as-of price times its net quantity held on `d`.
   */
  lemma {:induction false} GrossTotalByAsset(ts: seq<DayTrade>, prices: seq<PriceRow>, ids: seq<AssetId>, d: Date)
    requires Keys.Distinct(ids)
    requires forall i :: 0 <= i < |ts| ==> ts[i].assetId in ids
    ensures GrossTotal(ts, prices, d) == HoldingsValue(ts, prices, ids, d)
  {
    Regroup(ts, ids, Worth(prices), d);
    OverIsHoldingsValue(ts, prices, ids, d);
  }

  lemma {:induction false} OverIsHoldingsValue(ts: seq<DayTrade>, prices: seq<PriceRow>, ids: seq<AssetId>, d: Date)
    ensures TotalOver(ts, ids, Worth(prices), d) == HoldingsValue(ts, prices, ids, d)
  {
    if |ids| > 0 {
      OverIsHoldingsValue(ts, prices, ids[..|ids| - 1], d);
      WorthOfAsset(ts, prices, ids[|ids| - 1], d);
    }
  }

  function SumAmounts(ts: seq<DayTrade>): Decimal {
    if |ts| == 0 then 0.0 else SumAmounts(ts[..|ts| - 1]) + ts[|ts| - 1].amount
  }

  /** With only purchases, the money invested never decreases from one day to a later one. */
  lemma {:induction false} InvestedMonotone(ts: seq<DayTrade>, d1: Date, d2: Date)
    requires d1 <= d2
    requires forall i :: 0 <= i < |ts| ==> ts[i].amount >= 0.0
    ensures Invested(ts, d1) <= Invested(ts, d2)
  {
    if |ts| > 0 {
      InvestedMonotone(ts[..|ts| - 1], d1, d2);
    }
  }

  /** Once every trade is dated on or before `d`, invested(d) is the cost of the whole ledger. */
  lemma {:induction false} InvestedOnceAllTraded(ts: seq<DayTrade>, d: Date)
    requires forall i :: 0 <= i < |ts| ==> ts[i].date <= d
    ensures Invested(ts, d) == SumAmounts(ts)
  {
    if |ts| > 0 {
      InvestedOnceAllTraded(ts[..|ts| - 1], d);
    }
  }

  // ----- the daily walk -----

  /**
   * The totals of one day: for each asset in turn, its as-of price, then every
   * trade row of that asset dated on or before the day.
   */
  method DayAmount(ts: seq<DayTrade>, prices: seq<PriceRow>, ids: seq<AssetId>, d: Date) returns (amount: PortfolioAmount)
    requires Keys.Distinct(ids)
    requires forall i :: 0 <= i < |ts| ==> ts[i].assetId in ids
    ensures amount == PortfolioAmount(GrossTotal(ts, prices, d), Invested(ts, d), d)
  {
    var grossTotal, invested := 0.0, 0.0;
    for k := 0 to |ids|
      invariant grossTotal == TotalOver(ts, ids[..k], Worth(prices), d)
      invariant invested == TotalOver(ts, ids[..k], Cost, d)
    {
      var a := ids[k];
      var price := AsOf(prices, a, d);
      for j := 0 to |ts|
        invariant grossTotal == TotalOver(ts, ids[..k], Worth(prices), d) + TotalOf(ts[..j], a, Worth(prices), d)
        invariant invested == TotalOver(ts, ids[..k], Cost, d) + TotalOf(ts[..j], a, Cost, d)
      {
        assert ts[..j + 1] == ts[..j] + [ts[j]];
        TotalOfSnoc(ts[..j], ts[j], a, Worth(prices), d);
        TotalOfSnoc(ts[..j], ts[j], a, Cost, d);
        if ts[j].date <= d && ts[j].assetId == a {
          grossTotal := grossTotal + ts[j].quantity * price;
          invested := invested + ts[j].amount;
        }
      }
      assert ts[..|ts|] == ts;
      assert ids[..k + 1][..k] == ids[..k];
    }
    assert ids[..|ids|] == ids;
    Regroup(ts, ids, Worth(prices), d);
    Regroup(ts, ids, Cost, d);
    amount := PortfolioAmount(grossTotal, invested, d);
  }

  /**
   * `rows` is the series of the trades `ts` (earliest first) against the price
   * table: one row per day of the calendar from the first trade's day to
   * `today`, in order, each with that day's totals.
   */
  ghost predicate IsSeries(ts: seq<DayTrade>, table: seq<PriceRow>, today: Date, rows: seq<PortfolioAmount>)
    requires |ts| > 0
  {
    var first := ts[0].date;
    var prices := Window(table, AssetIds(ts), Calendar(first, today));
    && |rows| == CalendarLength(first, today)
    && forall i :: 0 <= i < |rows| ==>
         rows[i] == PortfolioAmount(GrossTotal(ts, prices, first + i), Invested(ts, first + i), first + i)
  }

  /**
   * `run`: the valuation series of a portfolio. A failed query is returned as
   * is; a portfolio without trades has an empty series.
   */
  method Run(trades: Result<seq<DayTrade>, DbError>, priceTable: Result<seq<PriceRow>, DbError>, today: Date)
    returns (r: Result<seq<PortfolioAmount>, DbError>)
    requires trades.Ok? ==> ByDate(trades.value)
    ensures trades.Err? ==> r == Err(trades.error)
    ensures trades == Ok([]) ==> r == Ok([])
    ensures trades.Ok? && |trades.value| > 0 && priceTable.Err? ==> r == Err(priceTable.error)
    ensures trades.Ok? && |trades.value| > 0 && priceTable.Ok? ==>
      r.Ok? && IsSeries(trades.value, priceTable.value, today, r.value)
  {
    if trades.Err? {
      return Err(trades.error);
    }
    var ts := trades.value;
    if |ts| == 0 {
      return Ok([]);
    }
    var dates := DateSeries(ts[0].date, today);
    assert dates == Calendar(ts[0].date, today);
    var ids := SortedAssetIds(ts);
    if priceTable.Err? {
      return Err(priceTable.error);
    }
    var prices := Window(priceTable.value, ids, dates);
    var amounts: seq<PortfolioAmount> := [];
    for n := 0 to |dates|
      invariant |amounts| == n
      invariant forall i :: 0 <= i < n ==>
        amounts[i] == PortfolioAmount(GrossTotal(ts, prices, dates[i]), Invested(ts, dates[i]), dates[i])
    {
      var amount := DayAmount(ts, prices, ids, dates[n]);
      amounts := amounts + [amount];
    }
    return Ok(amounts);
  }

  /** A series covers `(today - first) + 1` days, or exactly one when `today` is earlier. */
  lemma SeriesLength(ts: seq<DayTrade>, table: seq<PriceRow>, today: Date, rows: seq<PortfolioAmount>)
    requires |ts| > 0 && IsSeries(ts, table, today, rows)
    ensures ts[0].date <= today ==> |rows| == today - ts[0].date + 1
    ensures today < ts[0].date ==> |rows| == 1 && rows[0].date == ts[0].date
  {
  }

  /**
   * When today is on or after every trade, the last row of the series has
   * invested the cost of the whole ledger.
   */
  lemma LastRowInvestedAll(ts: seq<DayTrade>, table: seq<PriceRow>, today: Date, rows: seq<PortfolioAmount>)
    requires |ts| > 0 && ByDate(ts) && IsSeries(ts, table, today, rows)
    requires forall i :: 0 <= i < |ts| ==> ts[i].date <= today
    ensures rows[|rows| - 1].date == today
    ensures rows[|rows| - 1].invested == SumAmounts(ts)
  {
    InvestedOnceAllTraded(ts, today);
  }

  /**
   * Each row's gross total is, over the traded assets, the price as of that
   * day (from the price query) times the net quantity held that day.
   */
  lemma SeriesGrossByAsset(ts: seq<DayTrade>, table: seq<PriceRow>, today: Date, rows: seq<PortfolioAmount>, i: int)
    requires |ts| > 0 && IsSeries(ts, table, today, rows) && 0 <= i < |rows|
    ensures rows[i].grossTotal
         == HoldingsValue(ts, Window(table, AssetIds(ts), Calendar(ts[0].date, today)), AssetIds(ts), rows[i].date)
  {
    Keys.IntLessIsStrictTotalOrder();
    Keys.SortedIsDistinct(AssetIds(ts), Keys.IntLess);
    Keys.SortedKeysMembers(ts, AssetOf, Keys.IntLess);
    GrossTotalByAsset(ts, Window(table, AssetIds(ts), Calendar(ts[0].date, today)), AssetIds(ts), rows[i].date);
  }

  /** A price row that can set the price of asset `a` on day `d` of a series starting on `first`. */
  predicate Candidate(p: PriceRow, a: AssetId, first: Date, d: Date) {
    p.assetId == a && first <= p.date <= d
  }

  lemma WindowObservations(table: seq<PriceRow>, ids: seq<AssetId>, first: Date, today: Date, a: AssetId, d: Date)
    requires a in ids && d in Calendar(first, today)
    ensures forall p :: p in Window(table, ids, Calendar(first, today)) && Observes(p, a, d) <==> p in table && Candidate(p, a, first, d)
  {
    var cal := Calendar(first, today);
    WindowMembers(table, ids, cal);
    forall p | p in table && Candidate(p, a, first, d) ensures p.date in cal {
      assert cal[p.date - first] == p.date;
    }
  }

  /**
   * The price used for a traded asset on a day of the series is that of its
   * latest row in the table dated on or before that day and no earlier than the
   * first trade's day, or 0 when there is none.
   */
  lemma SeriesPriceIsLatest(ts: seq<DayTrade>, table: seq<PriceRow>, today: Date, a: AssetId, d: Date)
    requires |ts| > 0 && ByAssetThenDateDesc(table)
    requires a in AssetIds(ts) && d in Calendar(ts[0].date, today)
    ensures var price := AsOf(Window(table, AssetIds(ts), Calendar(ts[0].date, today)), a, d);
      && ((forall p :: p in table ==> !Candidate(p, a, ts[0].date, d)) ==> price == 0.0)
      && ((exists p :: p in table && Candidate(p, a, ts[0].date, d)) ==>
            exists p :: p in table && Candidate(p, a, ts[0].date, d) && price == p.price &&
              forall q :: q in table && Candidate(q, a, ts[0].date, d) ==> q.date <= p.date)
  {
    var first, ids, cal := ts[0].date, AssetIds(ts), Calendar(ts[0].date, today);
    WindowSorted(table, ids, cal);
    WindowObservations(table, ids, first, today, a, d);
    LatestCandidate(Window(table, ids, cal), table, a, first, d);
  }

  /** `AsOf` on rows whose observations of `a` at `d` are exactly the candidates of `table`. */
  lemma LatestCandidate(prices: seq<PriceRow>, table: seq<PriceRow>, a: AssetId, first: Date, d: Date)
    requires ByAssetThenDateDesc(prices)
    requires forall p :: p in prices && Observes(p, a, d) <==> p in table && Candidate(p, a, first, d)
    ensures (forall p :: p in table ==> !Candidate(p, a, first, d)) ==> AsOf(prices, a, d) == 0.0
    ensures (exists p :: p in table && Candidate(p, a, first, d)) ==>
      exists p :: p in table && Candidate(p, a, first, d) && AsOf(prices, a, d) == p.price &&
        forall q :: q in table && Candidate(q, a, first, d) ==> q.date <= p.date
  {
    AsOfIsLatest(prices, a, d);
    if exists p :: p in table && Candidate(p, a, first, d) {
      var p :| p in table && Candidate(p, a, first, d);
      var k :| 0 <= k < |prices| && prices[k] == p;
      assert Observes(prices[k], a, d);
      var j :| 0 <= j < |prices| && Observes(prices[j], a, d) && AsOf(prices, a, d) == prices[j].price &&
        forall k :: 0 <= k < |prices| && Observes(prices[k], a, d) ==> prices[k].date <= prices[j].date;
      forall q | q in table && Candidate(q, a, first, d) ensures q.date <= prices[j].date {
        var k :| 0 <= k < |prices| && prices[k] == q;
        assert Observes(prices[k], a, d);
      }
      assert prices[j] in prices;
    } else {
      forall k | 0 <= k < |prices| ensures !Observes(prices[k], a, d) {
        assert prices[k] in prices;
      }
    }
  }
}
