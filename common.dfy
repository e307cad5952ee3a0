/** Types shared by every part of the portfolio model. */
module Common {

  datatype Option<+T> = None | Some(value: T)

  /** The outcome of an operation that can fail, the model of Rust's `Result`. */
  datatype Result<+T, +E> = Ok(value: T) | Err(error: E)

  /** A calendar day, counted in days from an arbitrary epoch (`NaiveDate`). */
  type Date = int

  /** An exact decimal number (`BigDecimal`). */
  type Decimal = real

  /** The serial id of a row of the `assets` table. */
  type AssetId = int

  /** The serial id of a row of the `portfolios` table. */
  type PortfolioId = int

  /** An error raised by the database (Diesel's `QueryResult` error). */
  datatype DbError = NotFound | StorageError

  /** An asset resolved to its concrete variant (`Assetable` in the source). */
  datatype Assetable = Treasury(id: AssetId, maturity: Date) | Etf(id: AssetId, ticker: string)

  /**
   * The contract of `retrieve_assetables` (not part of this model), first half:
   * on success, one variant per requested id.
   */
  ghost predicate OnePerId(retrieveAssetables: seq<AssetId> -> Result<seq<Assetable>, DbError>) {
    forall ids :: retrieveAssetables(ids).Ok? ==> |retrieveAssetables(ids).value| == |ids|
  }

  /** Second half: the variants come in the order of the requested ids. */
  ghost predicate InIdOrder(retrieveAssetables: seq<AssetId> -> Result<seq<Assetable>, DbError>) {
    forall ids :: retrieveAssetables(ids).Ok? ==>
      forall i :: 0 <= i < |ids| && i < |retrieveAssetables(ids).value| ==> retrieveAssetables(ids).value[i].id == ids[i]
  }

  /** The range of Rust's `i32`. */
  const I32Min: int := -0x8000_0000
  const I32Max: int := 0x7FFF_FFFF

  predicate IsI32(n: int) {
    I32Min <= n <= I32Max
  }
}
