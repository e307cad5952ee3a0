/**
 * The asset registry (`models::assets`): find the treasury of a maturity, or
 * the ETF of a ticker, and create it when it is missing. Creating inserts an
 * `assets` row of the right kind, whose serial id becomes the id of the new
 * `treasuries` or `etfs` row.
 */
module Assets {
  import opened Common
  import opened Storage

  /** The id of the first treasury row with this maturity (`.first().optional()`). */
  function FindTreasury(rows: seq<TreasuryRow>, maturity: Date): (r: Option<AssetId>)
    ensures r.None? <==> forall i :: 0 <= i < |rows| ==> rows[i].maturity != maturity
    ensures r.Some? ==>
      exists i :: 0 <= i < |rows| && rows[i] == TreasuryRow(r.value, maturity) &&
        forall j :: 0 <= j < i ==> rows[j].maturity != maturity
  {
    if |rows| == 0 then None
    else if rows[0].maturity == maturity then Some(rows[0].id)
    else
      var r := FindTreasury(rows[1..], maturity);
      if r.Some? then
        var i :| 0 <= i < |rows[1..]| && rows[1..][i] == TreasuryRow(r.value, maturity) &&
          forall j :: 0 <= j < i ==> rows[1..][j].maturity != maturity;
        assert rows[i + 1] == TreasuryRow(r.value, maturity);
        r
      else r
  }

  /** The id of the first ETF row with this ticker. */
  function FindEtf(rows: seq<EtfRow>, ticker: string): (r: Option<AssetId>)
    ensures r.None? <==> forall i :: 0 <= i < |rows| ==> rows[i].ticker != ticker
    ensures r.Some? ==>
      exists i :: 0 <= i < |rows| && rows[i] == EtfRow(r.value, ticker) &&
        forall j :: 0 <= j < i ==> rows[j].ticker != ticker
  {
    if |rows| == 0 then None
    else if rows[0].ticker == ticker then Some(rows[0].id)
    else
      var r := FindEtf(rows[1..], ticker);
      if r.Some? then
        var i :| 0 <= i < |rows[1..]| && rows[1..][i] == EtfRow(r.value, ticker) &&
          forall j :: 0 <= j < i ==> rows[1..][j].ticker != ticker;
        assert rows[i + 1] == EtfRow(r.value, ticker);
        r
      else r
  }

  lemma {:induction false} FindTreasuryAppend(rows: seq<TreasuryRow>, row: TreasuryRow, maturity: Date)
    ensures FindTreasury(rows + [row], maturity)
         == if FindTreasury(rows, maturity).Some? then FindTreasury(rows, maturity)
            else if row.maturity == maturity then Some(row.id) else None
  {
    if |rows| > 0 {
      assert (rows + [row])[1..] == rows[1..] + [row];
      FindTreasuryAppend(rows[1..], row, maturity);
    }
  }

  lemma {:induction false} FindEtfAppend(rows: seq<EtfRow>, row: EtfRow, ticker: string)
    ensures FindEtf(rows + [row], ticker)
         == if FindEtf(rows, ticker).Some? then FindEtf(rows, ticker)
            else if row.ticker == ticker then Some(row.id) else None
  {
    if |rows| > 0 {
      assert (rows + [row])[1..] == rows[1..] + [row];
      FindEtfAppend(rows[1..], row, ticker);
    }
  }

  /** `register_treasury_asset` on the tables as a value: the new tables and the id returned. */
  function TreasuryRegistered(t: Tables, maturity: Date): (Tables, AssetId) {
    match FindTreasury(t.treasuries, maturity)
    case Some(id) => (t, id)
    case None =>
      var id := t.nextAssetId;
      (t.(assets := t.assets[id := TreasuryKind],
          treasuries := t.treasuries + [TreasuryRow(id, maturity)],
          nextAssetId := id + 1), id)
  }

  /** `register_etf_asset` on the tables as a value. */
  function EtfRegistered(t: Tables, ticker: string): (Tables, AssetId) {
    match FindEtf(t.etfs, ticker)
    case Some(id) => (t, id)
    case None =>
      var id := t.nextAssetId;
      (t.(assets := t.assets[id := EtfKind],
          etfs := t.etfs + [EtfRow(id, ticker)],
          nextAssetId := id + 1), id)
  }

  /**
   * An existing treasury of the maturity is returned and nothing changes;
   * otherwise a fresh id gets an `assets` row of kind "treasury" and a
   * `treasuries` row with the maturity, and no other table changes. Either
   * way the returned id is afterwards the treasury found for the maturity.
   */
  lemma TreasuryRegisteredFindsOrCreates(t: Tables, maturity: Date)
    requires Consistent(t)
    ensures var (t2, id) := TreasuryRegistered(t, maturity);
      && (FindTreasury(t.treasuries, maturity).Some? ==> t2 == t && id == FindTreasury(t.treasuries, maturity).value)
      && (FindTreasury(t.treasuries, maturity).None? ==>
            && id !in t.assets
            && t2.assets == t.assets[id := TreasuryKind]
            && t2.treasuries == t.treasuries + [TreasuryRow(id, maturity)]
            && t2.(assets := t.assets, treasuries := t.treasuries, nextAssetId := t.nextAssetId) == t)
      && FindTreasury(t2.treasuries, maturity) == Some(id)
      && id in t2.assets && t2.assets[id] == TreasuryKind
  {
    var (t2, id) := TreasuryRegistered(t, maturity);
    if FindTreasury(t.treasuries, maturity).None? {
      FindTreasuryAppend(t.treasuries, TreasuryRow(id, maturity), maturity);
    } else {
      var i :| 0 <= i < |t.treasuries| && t.treasuries[i] == TreasuryRow(id, maturity);
    }
  }

  /** The same for ETFs, by ticker, with kind "etf". */
  lemma EtfRegisteredFindsOrCreates(t: Tables, ticker: string)
    requires Consistent(t)
    ensures var (t2, id) := EtfRegistered(t, ticker);
      && (FindEtf(t.etfs, ticker).Some? ==> t2 == t && id == FindEtf(t.etfs, ticker).value)
      && (FindEtf(t.etfs, ticker).None? ==>
            && id !in t.assets
            && t2.assets == t.assets[id := EtfKind]
            && t2.etfs == t.etfs + [EtfRow(id, ticker)]
            && t2.(assets := t.assets, etfs := t.etfs, nextAssetId := t.nextAssetId) == t)
      && FindEtf(t2.etfs, ticker) == Some(id)
      && id in t2.assets && t2.assets[id] == EtfKind
  {
    var (t2, id) := EtfRegistered(t, ticker);
    if FindEtf(t.etfs, ticker).None? {
      FindEtfAppend(t.etfs, EtfRow(id, ticker), ticker);
    } else {
      var i :| 0 <= i < |t.etfs| && t.etfs[i] == EtfRow(id, ticker);
    }
  }

  /** A second registration of the same maturity returns the same id and changes nothing. */
  lemma TreasuryRegisteredIdempotent(t: Tables, maturity: Date)
    ensures TreasuryRegistered(TreasuryRegistered(t, maturity).0, maturity) == TreasuryRegistered(t, maturity)
  {
    if FindTreasury(t.treasuries, maturity).None? {
      FindTreasuryAppend(t.treasuries, TreasuryRow(t.nextAssetId, maturity), maturity);
    }
  }

  /** A second registration of the same ticker returns the same id and changes nothing. */
  lemma EtfRegisteredIdempotent(t: Tables, ticker: string)
    ensures EtfRegistered(EtfRegistered(t, ticker).0, ticker) == EtfRegistered(t, ticker)
  {
    if FindEtf(t.etfs, ticker).None? {
      FindEtfAppend(t.etfs, EtfRow(t.nextAssetId, ticker), ticker);
    }
  }

  lemma TreasuryRegisteredKeepsConsistent(t: Tables, maturity: Date)
    requires Consistent(t)
    ensures Consistent(TreasuryRegistered(t, maturity).0)
    ensures TreasuryRegistered(t, maturity).0.nextAssetId >= t.nextAssetId
  {
    var (t2, id) := TreasuryRegistered(t, maturity);
    if FindTreasury(t.treasuries, maturity).None? {
      forall i | 0 <= i < |t.treasuries| ensures t.treasuries[i].id != id {
        assert t.treasuries[i].id in t.assets;
      }
      forall i | 0 <= i < |t.etfs| ensures t.etfs[i].id != id {
        assert t.etfs[i].id in t.assets;
      }
    }
  }

  lemma EtfRegisteredKeepsConsistent(t: Tables, ticker: string)
    requires Consistent(t)
    ensures Consistent(EtfRegistered(t, ticker).0)
    ensures EtfRegistered(t, ticker).0.nextAssetId >= t.nextAssetId
  {
    var (t2, id) := EtfRegistered(t, ticker);
    if FindEtf(t.etfs, ticker).None? {
      forall i | 0 <= i < |t.treasuries| ensures t.treasuries[i].id != id {
        assert t.treasuries[i].id in t.assets;
      }
      forall i | 0 <= i < |t.etfs| ensures t.etfs[i].id != id {
        assert t.etfs[i].id in t.assets;
      }
    }
  }

  /** `register_treasury_asset`. */
  method RegisterTreasuryAsset(db: Database, maturity: Date) returns (id: AssetId)
    modifies db
    requires db.Valid()
    ensures db.Valid()
    ensures (db.State(), id) == TreasuryRegistered(old(db.State()), maturity)
  {
    TreasuryRegisteredKeepsConsistent(db.State(), maturity);
    var treasury := FindTreasury(db.treasuries, maturity);
    if treasury.Some? {
      return treasury.value;
    }
    // the `assets` insert hands out the next serial id
    var assetId := db.nextAssetId;
    db.nextAssetId := db.nextAssetId + 1;
    db.assets := db.assets[assetId := TreasuryKind];
    db.treasuries := db.treasuries + [TreasuryRow(assetId, maturity)];
    id := assetId;
  }

  /** `register_etf_asset`. */
  method RegisterEtfAsset(db: Database, ticker: string) returns (id: AssetId)
    modifies db
    requires db.Valid()
    ensures db.Valid()
    ensures (db.State(), id) == EtfRegistered(old(db.State()), ticker)
  {
    EtfRegisteredKeepsConsistent(db.State(), ticker);
    var etf := FindEtf(db.etfs, ticker);
    if etf.Some? {
      return etf.value;
    }
    var assetId := db.nextAssetId;
    db.nextAssetId := db.nextAssetId + 1;
    db.assets := db.assets[assetId := EtfKind];
    db.etfs := db.etfs + [EtfRow(assetId, ticker)];
    id := assetId;
  }
}
