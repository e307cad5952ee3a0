/**
 * The tables the registry, price and trade operations read and write, as one
 * stateful `Database`, and the same state as a value (`Tables`) for stating
 * what the operations do.
 *
 * Serial ids come from two counters, one for `assets` and one for
 * `portfolios`. As PostgreSQL sequences do, a counter keeps its value when a
 * transaction rolls back (`Rollback`).
 */
module Storage {
  import opened Common

  datatype TreasuryRow = TreasuryRow(id: AssetId, maturity: Date)

  datatype EtfRow = EtfRow(id: AssetId, ticker: string)

  datatype PriceRow = PriceRow(assetId: AssetId, date: Date, price: Decimal)

  /** A row of `treasury_bonds`: a treasury title (such as "LFT") and its maturity. */
  datatype BondRow = BondRow(id: AssetId, key: string, maturity: Date)

  datatype TradeRow = TradeRow(portfolioId: PortfolioId, assetId: AssetId, date: Date, quantity: Decimal, price: Decimal)

  /** The `kind` column of an `assets` row. */
  const TreasuryKind: string := "treasury"
  const EtfKind: string := "etf"

  datatype Tables = Tables(
    assets: map<AssetId, string>,
    treasuries: seq<TreasuryRow>,
    etfs: seq<EtfRow>,
    assetPrices: seq<PriceRow>,
    treasuryBonds: seq<BondRow>,
    portfolios: seq<PortfolioId>,
    trades: seq<TradeRow>,
    nextAssetId: AssetId,
    nextPortfolioId: PortfolioId)

  /**
   * What the registry keeps true: serial ids below their counter, every
   * treasury and ETF row backed by an `assets` row of its kind, at most one
   * treasury per maturity and one ETF per ticker, every trade in a portfolio
   * that exists.
   */
  ghost predicate Consistent(t: Tables) {
    && (forall id :: id in t.assets ==> id < t.nextAssetId)
    && (forall i :: 0 <= i < |t.treasuries| ==> t.treasuries[i].id in t.assets && t.assets[t.treasuries[i].id] == TreasuryKind)
    && (forall i :: 0 <= i < |t.etfs| ==> t.etfs[i].id in t.assets && t.assets[t.etfs[i].id] == EtfKind)
    && (forall i, j :: 0 <= i < j < |t.treasuries| ==> t.treasuries[i].maturity != t.treasuries[j].maturity)
    && (forall i, j :: 0 <= i < j < |t.etfs| ==> t.etfs[i].ticker != t.etfs[j].ticker)
    && (forall i :: 0 <= i < |t.portfolios| ==> t.portfolios[i] < t.nextPortfolioId)
    && (forall i :: 0 <= i < |t.trades| ==> t.trades[i].portfolioId in t.portfolios)
  }

  /** The tables as they were at `before`, with the serial counters as they are `after`. */
  function Rollback(before: Tables, after: Tables): Tables {
    before.(nextAssetId := after.nextAssetId, nextPortfolioId := after.nextPortfolioId)
  }

  /** A rollback keeps the registry consistent as long as the counters only moved forward. */
  lemma RollbackKeepsConsistent(before: Tables, after: Tables)
    requires Consistent(before)
    requires before.nextAssetId <= after.nextAssetId && before.nextPortfolioId <= after.nextPortfolioId
    ensures Consistent(Rollback(before, after))
  {
  }

  class Database {
    var assets: map<AssetId, string>
    var treasuries: seq<TreasuryRow>
    var etfs: seq<EtfRow>
    var assetPrices: seq<PriceRow>
    var treasuryBonds: seq<BondRow>
    var portfolios: seq<PortfolioId>
    var trades: seq<TradeRow>
    var nextAssetId: AssetId
    var nextPortfolioId: PortfolioId

    function State(): Tables
      reads this
    {
      Tables(assets, treasuries, etfs, assetPrices, treasuryBonds, portfolios, trades, nextAssetId, nextPortfolioId)
    }

    ghost predicate Valid()
      reads this
    {
      Consistent(State())
    }

    /** An empty database whose `treasury_bonds` table holds `bonds`. */
    constructor (bonds: seq<BondRow>)
      ensures Valid()
      ensures State() == Tables(map[], [], [], [], bonds, [], [], 1, 1)
    {
      assets, treasuries, etfs, assetPrices := map[], [], [], [];
      treasuryBonds, portfolios, trades := bonds, [], [];
      nextAssetId, nextPortfolioId := 1, 1;
    }

    /** Puts the tables back as in `saved`; the serial counters keep their values. */
    method Restore(saved: Tables)
      modifies this
      ensures State() == Rollback(saved, old(State()))
    {
      assets, treasuries, etfs, assetPrices := saved.assets, saved.treasuries, saved.etfs, saved.assetPrices;
      treasuryBonds, portfolios, trades := saved.treasuryBonds, saved.portfolios, saved.trades;
    }
  }
}
