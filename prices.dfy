/**
 * Price registration (`models::prices`): the whole price history of an asset
 * is replaced at once, and the treasury or ETF it belongs to is found or
 * created first, in one transaction.
 */
module Prices {
  import opened Common
  import opened Storage
  import opened Assets

  /** The rows of asset `a`, in table order. */
  function PricesOf(rows: seq<PriceRow>, a: AssetId): seq<PriceRow> {
    if |rows| == 0 then []
    else PricesOf(rows[..|rows| - 1], a) + (if rows[|rows| - 1].assetId == a then [rows[|rows| - 1]] else [])
  }

  /** The `delete ... where asset_id = a`: every row of other assets, in table order. */
  function Without(rows: seq<PriceRow>, a: AssetId): seq<PriceRow> {
    if |rows| == 0 then []
    else Without(rows[..|rows| - 1], a) + (if rows[|rows| - 1].assetId != a then [rows[|rows| - 1]] else [])
  }

  /** The rows inserted for asset `a`, one per (date, price) pair, in order. */
  function NewRows(a: AssetId, prices: seq<(Date, Decimal)>): (rows: seq<PriceRow>)
    ensures |rows| == |prices|
    ensures forall i :: 0 <= i < |prices| ==> rows[i] == PriceRow(a, prices[i].0, prices[i].1)
  {
    if |prices| == 0 then [] else [PriceRow(a, prices[0].0, prices[0].1)] + NewRows(a, prices[1..])
  }

  /** `replace_asset_prices` on the tables as a value. */
  function PricesReplaced(t: Tables, a: AssetId, prices: seq<(Date, Decimal)>): Tables {
    t.(assetPrices := Without(t.assetPrices, a) + NewRows(a, prices))
  }

  lemma {:induction false} PricesOfAppend(r1: seq<PriceRow>, r2: seq<PriceRow>, b: AssetId)
    ensures PricesOf(r1 + r2, b) == PricesOf(r1, b) + PricesOf(r2, b)
  {
    if |r2| > 0 {
      var front := r2[..|r2| - 1];
      assert (r1 + r2)[..|r1 + r2| - 1] == r1 + front;
      PricesOfAppend(r1, front, b);
    } else {
      assert r1 + r2 == r1;
    }
  }

  lemma {:induction false} PricesOfWithout(rows: seq<PriceRow>, a: AssetId, b: AssetId)
    ensures PricesOf(Without(rows, a), b) == if a == b then [] else PricesOf(rows, b)
  {
    if |rows| > 0 {
      var front, r := rows[..|rows| - 1], rows[|rows| - 1];
      PricesOfWithout(front, a, b);
      PricesOfAppend(Without(front, a), if r.assetId != a then [r] else [], b);
      if r.assetId != a {
        assert PricesOf([r], b) == if r.assetId == b then [r] else [];
      }
    }
  }

  lemma {:induction false} PricesOfNewRows(a: AssetId, prices: seq<(Date, Decimal)>, b: AssetId)
    ensures PricesOf(NewRows(a, prices), b) == if a == b then NewRows(a, prices) else []
  {
    if |prices| > 0 {
      PricesOfNewRows(a, prices[1..], b);
      PricesOfAppend([PriceRow(a, prices[0].0, prices[0].1)], NewRows(a, prices[1..]), b);
      assert PricesOf([PriceRow(a, prices[0].0, prices[0].1)], b) == if a == b then [PriceRow(a, prices[0].0, prices[0].1)] else [];
    }
  }

  /**
   * After replacing, the rows of `a` are exactly the new prices, in order; the
   * rows of every other asset are as before, and no other table changes.
   */
  lemma PricesReplacedExactly(t: Tables, a: AssetId, prices: seq<(Date, Decimal)>)
    ensures PricesOf(PricesReplaced(t, a, prices).assetPrices, a) == NewRows(a, prices)
    ensures forall b :: b != a ==> PricesOf(PricesReplaced(t, a, prices).assetPrices, b) == PricesOf(t.assetPrices, b)
    ensures PricesReplaced(t, a, prices).(assetPrices := t.assetPrices) == t
  {
    forall b ensures PricesOf(PricesReplaced(t, a, prices).assetPrices, b) == if a == b then NewRows(a, prices) else PricesOf(t.assetPrices, b) {
      PricesOfAppend(Without(t.assetPrices, a), NewRows(a, prices), b);
      PricesOfWithout(t.assetPrices, a, b);
      PricesOfNewRows(a, prices, b);
    }
  }

  /** Price rows play no part in the registry's consistency. */
  lemma PricesReplacedKeepsConsistent(t: Tables, a: AssetId, prices: seq<(Date, Decimal)>)
    requires Consistent(t)
    ensures Consistent(PricesReplaced(t, a, prices))
  {
  }

  lemma {:induction false} WithoutAppend(r1: seq<PriceRow>, r2: seq<PriceRow>, a: AssetId)
    ensures Without(r1 + r2, a) == Without(r1, a) + Without(r2, a)
  {
    if |r2| > 0 {
      var front := r2[..|r2| - 1];
      assert (r1 + r2)[..|r1 + r2| - 1] == r1 + front;
      WithoutAppend(r1, front, a);
    } else {
      assert r1 + r2 == r1;
    }
  }

  lemma {:induction false} WithoutTwice(rows: seq<PriceRow>, a: AssetId)
    ensures Without(Without(rows, a), a) == Without(rows, a)
  {
    if |rows| > 0 {
      var front, r := rows[..|rows| - 1], rows[|rows| - 1];
      WithoutTwice(front, a);
      WithoutAppend(Without(front, a), if r.assetId != a then [r] else [], a);
      assert Without([r], a) == if r.assetId != a then [r] else [];
    }
  }

  lemma {:induction false} WithoutNewRows(a: AssetId, prices: seq<(Date, Decimal)>)
    ensures Without(NewRows(a, prices), a) == []
  {
    if |prices| > 0 {
      WithoutNewRows(a, prices[1..]);
      WithoutAppend([PriceRow(a, prices[0].0, prices[0].1)], NewRows(a, prices[1..]), a);
      assert Without([PriceRow(a, prices[0].0, prices[0].1)], a) == [];
    }
  }

  /** Replacing the same prices again changes nothing. */
  lemma PricesReplacedIdempotent(t: Tables, a: AssetId, prices: seq<(Date, Decimal)>)
    ensures PricesReplaced(PricesReplaced(t, a, prices), a, prices) == PricesReplaced(t, a, prices)
  {
    WithoutAppend(Without(t.assetPrices, a), NewRows(a, prices), a);
    WithoutTwice(t.assetPrices, a);
    WithoutNewRows(a, prices);
    assert Without(t.assetPrices, a) + [] == Without(t.assetPrices, a);
  }

  /** `replace_asset_prices`: delete every row of the asset, then insert the new ones. */
  method ReplaceAssetPrices(db: Database, a: AssetId, prices: seq<(Date, Decimal)>)
    modifies db
    ensures db.State() == PricesReplaced(old(db.State()), a, prices)
  {
    db.assetPrices := Without(db.assetPrices, a);
    db.assetPrices := db.assetPrices + NewRows(a, prices);
  }

  /**
   * `register_treasury_prices` on the tables as a value. `failure` is a
   * failure of the storage engine during the transaction: the tables are
   * rolled back and the error is returned.
   */
  function TreasuryPricesRegistered(t: Tables, maturity: Date, prices: seq<(Date, Decimal)>, failure: Option<DbError>)
    : (Tables, Result<(), DbError>)
  {
    var (t1, id) := TreasuryRegistered(t, maturity);
    if failure.Some? then (Rollback(t, t1), Err(failure.value))
    else (PricesReplaced(t1, id, prices), Ok(()))
  }

  /** `register_etf_prices` on the tables as a value. */
  function EtfPricesRegistered(t: Tables, ticker: string, prices: seq<(Date, Decimal)>, failure: Option<DbError>)
    : (Tables, Result<(), DbError>)
  {
    var (t1, id) := EtfRegistered(t, ticker);
    if failure.Some? then (Rollback(t, t1), Err(failure.value))
    else (PricesReplaced(t1, id, prices), Ok(()))
  }

  /**
   * On success the maturity has its treasury, whose price rows are exactly the
   * new prices, and every other asset keeps its rows; on failure every table
   * is as before (only the serial counter may have moved).
   */
  lemma TreasuryPricesEffect(t: Tables, maturity: Date, prices: seq<(Date, Decimal)>, failure: Option<DbError>)
    requires Consistent(t)
    ensures var (t2, r) := TreasuryPricesRegistered(t, maturity, prices, failure);
      && Consistent(t2)
      && (failure.Some? ==> r == Err(failure.value) && t2.(nextAssetId := t.nextAssetId) == t)
      && (failure.None? ==>
            && r == Ok(())
            && FindTreasury(t2.treasuries, maturity).Some?
            && var id := FindTreasury(t2.treasuries, maturity).value;
               && PricesOf(t2.assetPrices, id) == NewRows(id, prices)
               && forall b :: b != id ==> PricesOf(t2.assetPrices, b) == PricesOf(t.assetPrices, b))
  {
    var (t1, id) := TreasuryRegistered(t, maturity);
    TreasuryRegisteredKeepsConsistent(t, maturity);
    if failure.Some? {
      RollbackKeepsConsistent(t, t1);
    } else {
      TreasuryRegisteredFindsOrCreates(t, maturity);
      if FindTreasury(t.treasuries, maturity).None? {
        FindTreasuryAppend(t.treasuries, TreasuryRow(id, maturity), maturity);
      }
      assert FindTreasury(t1.treasuries, maturity) == Some(id);
      PricesReplacedExactly(t1, id, prices);
      PricesReplacedKeepsConsistent(t1, id, prices);
    }
  }

  /** The same for ETFs, by ticker. */
  lemma EtfPricesEffect(t: Tables, ticker: string, prices: seq<(Date, Decimal)>, failure: Option<DbError>)
    requires Consistent(t)
    ensures var (t2, r) := EtfPricesRegistered(t, ticker, prices, failure);
      && Consistent(t2)
      && (failure.Some? ==> r == Err(failure.value) && t2.(nextAssetId := t.nextAssetId) == t)
      && (failure.None? ==>
            && r == Ok(())
            && FindEtf(t2.etfs, ticker).Some?
            && var id := FindEtf(t2.etfs, ticker).value;
               && PricesOf(t2.assetPrices, id) == NewRows(id, prices)
               && forall b :: b != id ==> PricesOf(t2.assetPrices, b) == PricesOf(t.assetPrices, b))
  {
    var (t1, id) := EtfRegistered(t, ticker);
    EtfRegisteredKeepsConsistent(t, ticker);
    if failure.Some? {
      RollbackKeepsConsistent(t, t1);
    } else {
      EtfRegisteredFindsOrCreates(t, ticker);
      if FindEtf(t.etfs, ticker).None? {
        FindEtfAppend(t.etfs, EtfRow(id, ticker), ticker);
      }
      assert FindEtf(t1.etfs, ticker) == Some(id);
      PricesReplacedExactly(t1, id, prices);
      PricesReplacedKeepsConsistent(t1, id, prices);
    }
  }

  /** Registering the same treasury prices twice leaves the state of registering them once. */
  lemma TreasuryPricesIdempotent(t: Tables, maturity: Date, prices: seq<(Date, Decimal)>)
    ensures var once := TreasuryPricesRegistered(t, maturity, prices, None).0;
      TreasuryPricesRegistered(once, maturity, prices, None).0 == once
  {
    var (t1, id) := TreasuryRegistered(t, maturity);
    var once := PricesReplaced(t1, id, prices);
    TreasuryRegisteredIdempotent(t, maturity);
    assert once.treasuries == t1.treasuries;
    assert TreasuryRegistered(once, maturity) == (once, id);
    PricesReplacedIdempotent(t1, id, prices);
  }

  /** Registering the same ETF prices twice leaves the state of registering them once. */
  lemma EtfPricesIdempotent(t: Tables, ticker: string, prices: seq<(Date, Decimal)>)
    ensures var once := EtfPricesRegistered(t, ticker, prices, None).0;
      EtfPricesRegistered(once, ticker, prices, None).0 == once
  {
    var (t1, id) := EtfRegistered(t, ticker);
    var once := PricesReplaced(t1, id, prices);
    EtfRegisteredIdempotent(t, ticker);
    assert once.etfs == t1.etfs;
    assert EtfRegistered(once, ticker) == (once, id);
    PricesReplacedIdempotent(t1, id, prices);
  }

  /** `register_treasury_prices`: find or create the treasury, then replace its prices, in one transaction. */
  method RegisterTreasuryPrices(db: Database, maturity: Date, prices: seq<(Date, Decimal)>, failure: Option<DbError>)
    returns (r: Result<(), DbError>)
    modifies db
    requires db.Valid()
    ensures db.Valid()
    ensures (db.State(), r) == TreasuryPricesRegistered(old(db.State()), maturity, prices, failure)
  {
    var saved := db.State();
    TreasuryPricesEffect(saved, maturity, prices, failure);
    var assetId := RegisterTreasuryAsset(db, maturity);
    ReplaceAssetPrices(db, assetId, prices);
    if failure.Some? {
      db.Restore(saved);
      return Err(failure.value);
    }
    return Ok(());
  }

  /** `register_etf_prices`: find or create the ETF, then replace its prices, in one transaction. */
  method RegisterEtfPrices(db: Database, ticker: string, prices: seq<(Date, Decimal)>, failure: Option<DbError>)
    returns (r: Result<(), DbError>)
    modifies db
    requires db.Valid()
    ensures db.Valid()
    ensures (db.State(), r) == EtfPricesRegistered(old(db.State()), ticker, prices, failure)
  {
    var saved := db.State();
    EtfPricesEffect(saved, ticker, prices, failure);
    var assetId := RegisterEtfAsset(db, ticker);
    ReplaceAssetPrices(db, assetId, prices);
    if failure.Some? {
      db.Restore(saved);
      return Err(failure.value);
    }
    return Ok(());
  }
}
