/**
 * The position of a portfolio on a day (`positions::position`): for every asset
 * traded on or before that day, its net quantity, its price and the resulting
 * amount, plus the portfolio's total amount.
 *
 * The trades query is the portfolio's ledger read in asset-id order and
 * filtered by date (`OnOrBefore`). `latest_prices` and `retrieve_assetables`
 * are not part of this model; they are parameters with the contract the
 * function relies on: one result per requested id, in the same order
 * (`PricesPerId`, `Common.OnePerId`, `Common.InIdOrder`).
 */
module Positions {
  import opened Common
  import Keys

  /** A trade of the portfolio, as far as the position needs it. */
  datatype LedgerTrade = LedgerTrade(assetId: AssetId, date: Date, quantity: Decimal)

  datatype AssetPosition = AssetPosition(assetable: Assetable, price: Decimal, quantity: Decimal, amount: Decimal)

  datatype PortfolioPosition = PortfolioPosition(amount: Decimal, assets: seq<AssetPosition>)

  /** The trades query orders its rows by asset id. */
  predicate ByAsset(ts: seq<LedgerTrade>) {
    forall i, j :: 0 <= i < j < |ts| ==> ts[i].assetId <= ts[j].assetId
  }

  /** The trades query's date filter: the trades dated on or before `date`, in ledger order. */
  function OnOrBefore(ledger: seq<LedgerTrade>, date: Date): seq<LedgerTrade> {
    if |ledger| == 0 then []
    else OnOrBefore(ledger[..|ledger| - 1], date) + (if ledger[|ledger| - 1].date <= date then [ledger[|ledger| - 1]] else [])
  }

  /** The filter keeps exactly the trades dated on or before `date`, and keeps the query's order. */
  lemma {:induction false} OnOrBeforeKeeps(ledger: seq<LedgerTrade>, date: Date)
    ensures forall t :: t in OnOrBefore(ledger, date) <==> t in ledger && t.date <= date
    ensures ByAsset(ledger) ==> ByAsset(OnOrBefore(ledger, date))
  {
    if |ledger| > 0 {
      var front, t := ledger[..|ledger| - 1], ledger[|ledger| - 1];
      assert ledger == front + [t];
      OnOrBeforeKeeps(front, date);
      var rest := OnOrBefore(front, date);
      if ByAsset(ledger) {
        assert ByAsset(front);
        forall x | x in rest ensures x.assetId <= t.assetId {
          var i :| 0 <= i < |front| && front[i] == x;
        }
      }
    }
  }

  function AssetOf(t: LedgerTrade): AssetId {
    t.assetId
  }

  /** The distinct assets traded on or before `date`, ascending. */
  function HeldAssets(ledger: seq<LedgerTrade>, date: Date): seq<AssetId> {
    Keys.SortedKeys(OnOrBefore(ledger, date), AssetOf, Keys.IntLess)
  }

  /** The sum of the quantities of the rows of asset `a`. */
  function QuantityOf(rows: seq<LedgerTrade>, a: AssetId): Decimal {
    if |rows| == 0 then 0.0
    else QuantityOf(rows[..|rows| - 1], a) + (if rows[|rows| - 1].assetId == a then rows[|rows| - 1].quantity else 0.0)
  }

  /** The net quantity of asset `a` held on `date`: its trades dated on or before `date`, summed. */
  function NetQuantity(ledger: seq<LedgerTrade>, a: AssetId, date: Date): Decimal {
    if |ledger| == 0 then 0.0
    else
      var t := ledger[|ledger| - 1];
      NetQuantity(ledger[..|ledger| - 1], a, date) + (if t.assetId == a && t.date <= date then t.quantity else 0.0)
  }

  lemma {:induction false} QuantityOfAbsent(rows: seq<LedgerTrade>, a: AssetId)
    requires forall j :: 0 <= j < |rows| ==> rows[j].assetId != a
    ensures QuantityOf(rows, a) == 0.0
  {
    if |rows| > 0 {
      QuantityOfAbsent(rows[..|rows| - 1], a);
    }
  }

  lemma {:induction false} QuantityOfSnoc(rows: seq<LedgerTrade>, t: LedgerTrade, a: AssetId)
    ensures QuantityOf(rows + [t], a) == QuantityOf(rows, a) + (if t.assetId == a then t.quantity else 0.0)
  {
    assert (rows + [t])[..|rows|] == rows;
  }

  /** Summing the filtered rows of `a` is summing `a`'s trades dated on or before `date`. */
  lemma {:induction false} QuantityOfOnOrBefore(ledger: seq<LedgerTrade>, a: AssetId, date: Date)
    ensures QuantityOf(OnOrBefore(ledger, date), a) == NetQuantity(ledger, a, date)
  {
    if |ledger| > 0 {
      var front, t := ledger[..|ledger| - 1], ledger[|ledger| - 1];
      QuantityOfOnOrBefore(front, a, date);
      if t.date <= date {
        assert OnOrBefore(ledger, date) == OnOrBefore(front, date) + [t];
        QuantityOfSnoc(OnOrBefore(front, date), t, a);
      } else {
        assert OnOrBefore(ledger, date) == OnOrBefore(front, date);
      }
    }
  }

  /** What the group loop has built after the first `k` rows. */
  ghost predicate GroupedUpTo(rows: seq<LedgerTrade>, k: int, ids: seq<AssetId>, quantities: seq<Decimal>) {
    && 0 <= k <= |rows|
    && |ids| == |quantities| && |ids| <= k
    && Keys.Sorted(ids, Keys.IntLess)
    && (k > 0 ==> |ids| > 0 && ids[|ids| - 1] == rows[k - 1].assetId)
    && (forall a :: a in ids <==> exists j :: 0 <= j < k && AssetOf(rows[j]) == a)
    && (forall i :: 0 <= i < |ids| ==> quantities[i] == QuantityOf(rows[..k], ids[i]))
  }

  /** A row whose asset differs from the last id seen starts a new group, of a greater asset. */
  lemma StartGroup(rows: seq<LedgerTrade>, k: int, ids: seq<AssetId>, quantities: seq<Decimal>)
    requires ByAsset(rows) && GroupedUpTo(rows, k, ids, quantities) && k < |rows|
    requires k == 0 || rows[k].assetId != ids[|ids| - 1]
    ensures GroupedUpTo(rows, k + 1, ids + [rows[k].assetId], quantities + [rows[k].quantity])
  {
    var t := rows[k];
    assert rows[..k + 1] == rows[..k] + [t];
    forall i | 0 <= i < |ids| ensures ids[i] < t.assetId {
      if i < |ids| - 1 {
        assert Keys.IntLess(ids[i], ids[|ids| - 1]);
      }
    }
    forall j | 0 <= j < k ensures rows[..k][j].assetId != t.assetId {
      assert rows[j].assetId <= rows[k - 1].assetId;
    }
    QuantityOfAbsent(rows[..k], t.assetId);
    forall x ensures QuantityOf(rows[..k + 1], x) == QuantityOf(rows[..k], x) + (if t.assetId == x then t.quantity else 0.0) {
      QuantityOfSnoc(rows[..k], t, x);
    }
  }

  /** A row of the last id seen adds its quantity to the last group. */
  lemma ExtendGroup(rows: seq<LedgerTrade>, k: int, ids: seq<AssetId>, quantities: seq<Decimal>)
    requires GroupedUpTo(rows, k, ids, quantities) && k < |rows|
    requires k > 0 && rows[k].assetId == ids[|ids| - 1]
    ensures GroupedUpTo(rows, k + 1, ids, quantities[|quantities| - 1 := quantities[|quantities| - 1] + rows[k].quantity])
  {
    var t := rows[k];
    assert rows[..k + 1] == rows[..k] + [t];
    forall x ensures QuantityOf(rows[..k + 1], x) == QuantityOf(rows[..k], x) + (if t.assetId == x then t.quantity else 0.0) {
      QuantityOfSnoc(rows[..k], t, x);
    }
    forall i | 0 <= i < |ids| - 1 ensures ids[i] != t.assetId {
      assert Keys.IntLess(ids[i], ids[|ids| - 1]);
    }
  }

  /**
   * The group loop: over rows ordered by asset, one entry per distinct asset,
   * ascending, with the sum of that asset's quantities.
   */
  method GroupByAsset(rows: seq<LedgerTrade>) returns (ids: seq<AssetId>, quantities: seq<Decimal>)
    requires ByAsset(rows)
    ensures |ids| == |quantities|
    ensures ids == Keys.SortedKeys(rows, AssetOf, Keys.IntLess)
    ensures forall i :: 0 <= i < |ids| ==> quantities[i] == QuantityOf(rows, ids[i])
  {
    ids, quantities := [], [];
    for k := 0 to |rows|
      invariant GroupedUpTo(rows, k, ids, quantities)
    {
      if k == 0 || rows[k].assetId != ids[|ids| - 1] {
        StartGroup(rows, k, ids, quantities);
        ids := ids + [rows[k].assetId];
        quantities := quantities + [rows[k].quantity];
      } else {
        ExtendGroup(rows, k, ids, quantities);
        var last := |quantities| - 1;
        quantities := quantities[last := quantities[last] + rows[k].quantity];
      }
    }
    assert rows[..|rows|] == rows;
    Keys.IntLessIsStrictTotalOrder();
    Keys.SortedKeysUnique(rows, AssetOf, Keys.IntLess, ids);
  }

  /** The trades query and the group loop: the assets held on `date`, ascending, with their net quantities. */
  method Holdings(ledger: seq<LedgerTrade>, date: Date) returns (ids: seq<AssetId>, quantities: seq<Decimal>)
    requires ByAsset(ledger)
    ensures ids == HeldAssets(ledger, date)
    ensures |quantities| == |ids|
    ensures forall i :: 0 <= i < |ids| ==> quantities[i] == NetQuantity(ledger, ids[i], date)
  {
    var rows := OnOrBefore(ledger, date);
    OnOrBeforeKeeps(ledger, date);
    ids, quantities := GroupByAsset(rows);
    forall i | 0 <= i < |ids| ensures quantities[i] == NetQuantity(ledger, ids[i], date) {
      QuantityOfOnOrBefore(ledger, ids[i], date);
    }
  }

  function SumAmounts(assets: seq<AssetPosition>): Decimal {
    if |assets| == 0 then 0.0 else SumAmounts(assets[..|assets| - 1]) + assets[|assets| - 1].amount
  }

  /** The `latest_prices` contract relied on: one price per requested id. */
  ghost predicate PricesPerId(latestPrices: (seq<AssetId>, Date) -> Result<seq<Decimal>, DbError>) {
    forall ids, d :: latestPrices(ids, d).Ok? ==> |latestPrices(ids, d).value| == |ids|
  }

  /**
   * `p` values the assets `ids` held on `date`: one entry per id, in order, with
   * the looked-up variant and price, the net quantity, and price × quantity as
   * amount; the portfolio amount is the sum of the entries' amounts.
   */
  ghost predicate IsPosition(ledger: seq<LedgerTrade>, date: Date, ids: seq<AssetId>,
                             prices: seq<Decimal>, assetables: seq<Assetable>, p: PortfolioPosition)
  {
    && |prices| == |ids| == |assetables|
    && |p.assets| == |ids|
    && (forall i :: 0 <= i < |ids| ==>
          && p.assets[i].assetable == assetables[i]
          && p.assets[i].price == prices[i]
          && p.assets[i].quantity == NetQuantity(ledger, ids[i], date)
          && p.assets[i].amount == prices[i] * NetQuantity(ledger, ids[i], date))
    && p.amount == SumAmounts(p.assets)
  }

  /**
   * The valuation loop: amount = price × quantity per asset, and their running
   * total. `quantities` are the net quantities of `ids` on `date`.
   */
  method Valuate(ghost ledger: seq<LedgerTrade>, ghost date: Date, ghost ids: seq<AssetId>,
                 assetables: seq<Assetable>, prices: seq<Decimal>, quantities: seq<Decimal>) returns (p: PortfolioPosition)
    requires |assetables| == |prices| == |quantities| == |ids|
    requires forall i :: 0 <= i < |ids| ==> quantities[i] == NetQuantity(ledger, ids[i], date)
    ensures IsPosition(ledger, date, ids, prices, assetables, p)
  {
    var portfolioAmount := 0.0;
    var assets: seq<AssetPosition> := [];
    for i := 0 to |quantities|
      invariant |assets| == i
      invariant forall j :: 0 <= j < i ==>
        assets[j] == AssetPosition(assetables[j], prices[j], quantities[j], prices[j] * quantities[j])
      invariant portfolioAmount == SumAmounts(assets)
    {
      var price := prices[i];
      var quantity := quantities[i];
      var amount := price * quantity;
      portfolioAmount := portfolioAmount + amount;
      assets := assets + [AssetPosition(assetables[i], price, quantity, amount)];
      assert assets[..i] == assets[..|assets| - 1];
    }
    p := PortfolioPosition(portfolioAmount, assets);
  }

  /**
   * `position`: a failure of the trades query, of `latest_prices` or of
   * `retrieve_assetables` is returned with no partial result; otherwise one
   * entry per asset held on `date` (net quantity zero included), ascending by
   * id, and the total of their amounts.
   */
  method Position(
    ledger: Result<seq<LedgerTrade>, DbError>,
    date: Date,
    latestPrices: (seq<AssetId>, Date) -> Result<seq<Decimal>, DbError>,
    retrieveAssetables: seq<AssetId> -> Result<seq<Assetable>, DbError>)
    returns (r: Result<PortfolioPosition, DbError>)
    requires ledger.Ok? ==> ByAsset(ledger.value)
    requires PricesPerId(latestPrices) && OnePerId(retrieveAssetables)
    ensures ledger.Err? ==> r == Err(ledger.error)
    ensures ledger.Ok? ==>
      var ids := HeldAssets(ledger.value, date);
      && (latestPrices(ids, date).Err? ==> r == Err(latestPrices(ids, date).error))
      && (latestPrices(ids, date).Ok? && retrieveAssetables(ids).Err? ==> r == Err(retrieveAssetables(ids).error))
      && (latestPrices(ids, date).Ok? && retrieveAssetables(ids).Ok? ==>
            && r.Ok?
            && IsPosition(ledger.value, date, ids, latestPrices(ids, date).value, retrieveAssetables(ids).value, r.value))
  {
    if ledger.Err? {
      return Err(ledger.error);
    }
    var assetIds, quantities := Holdings(ledger.value, date);
    var prices := latestPrices(assetIds, date);
    if prices.Err? {
      return Err(prices.error);
    }
    var assetables := retrieveAssetables(assetIds);
    if assetables.Err? {
      return Err(assetables.error);
    }
    var position := Valuate(ledger.value, date, assetIds, assetables.value, prices.value, quantities);
    return Ok(position);
  }

  /** Each entry of a position is the variant of its asset id, in ascending id order. */
  lemma PositionVariants(ledger: seq<LedgerTrade>, date: Date,
                         retrieveAssetables: seq<AssetId> -> Result<seq<Assetable>, DbError>,
                         prices: seq<Decimal>, p: PortfolioPosition)
    requires InIdOrder(retrieveAssetables)
    requires retrieveAssetables(HeldAssets(ledger, date)).Ok?
    requires IsPosition(ledger, date, HeldAssets(ledger, date), prices, retrieveAssetables(HeldAssets(ledger, date)).value, p)
    ensures |p.assets| == |HeldAssets(ledger, date)|
    ensures forall i :: 0 <= i < |p.assets| ==> p.assets[i].assetable.id == HeldAssets(ledger, date)[i]
    ensures forall i, j :: 0 <= i < j < |p.assets| ==> p.assets[i].assetable.id < p.assets[j].assetable.id
  {
    Keys.IntLessIsStrictTotalOrder();
    var ids := HeldAssets(ledger, date);
    forall i, j | 0 <= i < j < |p.assets| ensures p.assets[i].assetable.id < p.assets[j].assetable.id {
      assert Keys.IntLess(ids[i], ids[j]);
    }
  }

  /**
   * The assets of a position are exactly those with a trade dated on or before
   * the day, each once, ascending; trades after the day play no part.
   */
  lemma HeldAssetsExactly(ledger: seq<LedgerTrade>, date: Date)
    ensures forall i, j :: 0 <= i < j < |HeldAssets(ledger, date)| ==> HeldAssets(ledger, date)[i] < HeldAssets(ledger, date)[j]
    ensures forall a :: a in HeldAssets(ledger, date) <==> exists t :: t in ledger && t.date <= date && t.assetId == a
  {
    Keys.IntLessIsStrictTotalOrder();
    var rows := OnOrBefore(ledger, date);
    OnOrBeforeKeeps(ledger, date);
    Keys.SortedKeysMembers(rows, AssetOf, Keys.IntLess);
    var ids := HeldAssets(ledger, date);
    forall a ensures a in ids <==> exists t :: t in ledger && t.date <= date && t.assetId == a {
      if a in ids {
        var i :| 0 <= i < |rows| && AssetOf(rows[i]) == a;
        assert rows[i] in rows;
      }
      if exists t :: t in ledger && t.date <= date && t.assetId == a {
        var t :| t in ledger && t.date <= date && t.assetId == a;
        assert t in rows;
        var i :| 0 <= i < |rows| && rows[i] == t;
      }
    }
  }

  /** A trade dated after the day changes no net quantity of that day. */
  lemma {:induction false} LaterTradeIgnored(ledger: seq<LedgerTrade>, t: LedgerTrade, a: AssetId, date: Date)
    requires date < t.date
    ensures NetQuantity(ledger + [t], a, date) == NetQuantity(ledger, a, date)
    ensures HeldAssets(ledger + [t], date) == HeldAssets(ledger, date)
  {
    assert (ledger + [t])[..|ledger|] == ledger;
    assert OnOrBefore(ledger + [t], date) == OnOrBefore(ledger, date);
  }
}
