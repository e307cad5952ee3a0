/**
 * The transaction list of a portfolio (`get_transactions::run`): every trade,
 * newest first, with its asset resolved to its variant and its amount
 * (price × quantity).
 *
 * The trades query is an input; `retrieve_assetables` is a parameter with the
 * contract of `Common.OnePerId` and `Common.InIdOrder`.
 */
module Transactions {
  import opened Common

  /** A row of the trades query. */
  datatype Trade = Trade(assetId: AssetId, date: Date, price: Decimal, quantity: Decimal)

  datatype Transaction = Transaction(assetable: Assetable, date: Date, price: Decimal, quantity: Decimal, amount: Decimal)

  /** The trades query orders its rows by descending date, then by asset id. */
  predicate ByDateDescThenAsset(ts: seq<Trade>) {
    forall i, j :: 0 <= i < j < |ts| ==>
      ts[i].date > ts[j].date || (ts[i].date == ts[j].date && ts[i].assetId <= ts[j].assetId)
  }

  /** The ids handed to `retrieve_assetables`: each trade's asset, in trade order. */
  function AssetIdsOf(ts: seq<Trade>): (ids: seq<AssetId>)
    ensures |ids| == |ts|
    ensures forall i :: 0 <= i < |ts| ==> ids[i] == ts[i].assetId
  {
    if |ts| == 0 then [] else [ts[0].assetId] + AssetIdsOf(ts[1..])
  }

  function Min(a: int, b: int): int {
    if a <= b then a else b
  }

  /**
   * `zip` then `map`: the i-th trade with the i-th variant, as long as both
   * lists last; date, price and quantity are copied and the amount is
   * price × quantity.
   */
  function Zip(ts: seq<Trade>, assetables: seq<Assetable>): (r: seq<Transaction>)
    ensures |r| == Min(|ts|, |assetables|)
    ensures forall i :: 0 <= i < |r| ==>
      r[i] == Transaction(assetables[i], ts[i].date, ts[i].price, ts[i].quantity, ts[i].price * ts[i].quantity)
  {
    if |ts| == 0 || |assetables| == 0 then []
    else
      var t := ts[0];
      [Transaction(assetables[0], t.date, t.price, t.quantity, t.price * t.quantity)] + Zip(ts[1..], assetables[1..])
  }

  /** `run`: an error of the query or of the asset lookup is returned with no partial output. */
  function Run(trades: Result<seq<Trade>, DbError>, retrieveAssetables: seq<AssetId> -> Result<seq<Assetable>, DbError>)
    : (r: Result<seq<Transaction>, DbError>)
    ensures trades.Err? ==> r == Err(trades.error)
    ensures trades.Ok? && retrieveAssetables(AssetIdsOf(trades.value)).Err? ==>
      r == Err(retrieveAssetables(AssetIdsOf(trades.value)).error)
    ensures trades.Ok? && retrieveAssetables(AssetIdsOf(trades.value)).Ok? ==>
      r == Ok(Zip(trades.value, retrieveAssetables(AssetIdsOf(trades.value)).value))
  {
    match trades
    case Err(e) => Err(e)
    case Ok(ts) =>
      match retrieveAssetables(AssetIdsOf(ts))
      case Err(e) => Err(e)
      case Ok(assetables) => Ok(Zip(ts, assetables))
  }

  /**
   * With a lookup that keeps its contract, every trade gives exactly one
   * transaction, in the query's order, carrying the variant of the trade's own
   * asset and amount = price × quantity.
   */
  lemma RunIsOnePerTrade(ts: seq<Trade>, retrieveAssetables: seq<AssetId> -> Result<seq<Assetable>, DbError>)
    requires OnePerId(retrieveAssetables) && InIdOrder(retrieveAssetables)
    requires retrieveAssetables(AssetIdsOf(ts)).Ok?
    ensures Run(Ok(ts), retrieveAssetables).Ok?
    ensures |Run(Ok(ts), retrieveAssetables).value| == |ts|
    ensures forall i :: 0 <= i < |ts| ==>
      var x := Run(Ok(ts), retrieveAssetables).value[i];
      && x.assetable.id == ts[i].assetId
      && x.date == ts[i].date && x.price == ts[i].price && x.quantity == ts[i].quantity
      && x.amount == ts[i].price * ts[i].quantity
  {
    var ids := AssetIdsOf(ts);
    assert |retrieveAssetables(ids).value| == |ids|;
    forall i | 0 <= i < |ts| ensures retrieveAssetables(ids).value[i].id == ts[i].assetId {
      assert retrieveAssetables(ids).value[i].id == ids[i];
    }
  }

  /** The transactions come newest first, as the query's trades do. */
  lemma RunKeepsOrder(ts: seq<Trade>, retrieveAssetables: seq<AssetId> -> Result<seq<Assetable>, DbError>)
    requires ByDateDescThenAsset(ts)
    requires Run(Ok(ts), retrieveAssetables).Ok?
    ensures forall i, j :: 0 <= i < j < |Run(Ok(ts), retrieveAssetables).value| ==>
      Run(Ok(ts), retrieveAssetables).value[i].date >= Run(Ok(ts), retrieveAssetables).value[j].date
  {
  }
}
