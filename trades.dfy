/**
 * Trade registration (`models::trades::register_trades`): in one transaction,
 * a new portfolio is inserted, the ETF trades are grouped by ticker and the
 * treasury trades by maturity, each group's key is resolved to an asset id
 * once, and one trade row per input trade is inserted under the new
 * portfolio's id.
 */
module Trades {
  import opened Common
  import opened Keys
  import opened Storage
  import Assets

  /** An input trade: the key of its asset (a ticker or a maturity), date, price and quantity. */
  datatype KeyedTrade<K> = KeyedTrade(key: K, date: Date, price: Decimal, quantity: Decimal)

  type EtfTrade = KeyedTrade<string>

  type BondTrade = KeyedTrade<Date>

  function KeyOf<K>(tr: KeyedTrade<K>): K {
    tr.key
  }

  /** The only treasury title whose trades are registered. */
  const LftKey: string := "LFT"

  /** The id of the first `treasury_bonds` row with this maturity and key "LFT". */
  function FindBond(rows: seq<BondRow>, maturity: Date): (r: Option<AssetId>)
    ensures r.None? <==> forall i :: 0 <= i < |rows| ==> !(rows[i].maturity == maturity && rows[i].key == LftKey)
    ensures r.Some? ==>
      exists i :: 0 <= i < |rows| && rows[i] == BondRow(r.value, LftKey, maturity)
  {
    if |rows| == 0 then None
    else if rows[0].maturity == maturity && rows[0].key == LftKey then Some(rows[0].id)
    else
      var r := FindBond(rows[1..], maturity);
      if r.Some? then
        var i :| 0 <= i < |rows[1..]| && rows[1..][i] == BondRow(r.value, LftKey, maturity);
        assert rows[i + 1] == BondRow(r.value, LftKey, maturity);
        r
      else r
  }

  /**
   * Where the storage engine fails during `register_trades`, if it does: at
   * the `portfolios` insert, at the `first` query of one ticker's or one
   * maturity's group, or at the bulk insert of the trade rows. A lookup
   * failure only shows if that group is looked up, that is, if every group
   * before it was found.
   */
  datatype Failure =
    | NoFailure
    | AtPortfolioInsert(error: DbError)
    | AtEtfLookup(ticker: string, error: DbError)
    | AtBondLookup(maturity: Date, error: DbError)
    | AtTradesInsert(error: DbError)

  /** The storage engine does not fail before the bulk insert. */
  predicate NoEarlyFailure(f: Failure) {
    f.NoFailure? || f.AtTradesInsert?
  }

  /** What `.first()` gives when the query itself succeeds: the row's id, or `NotFound`. */
  function Found(id: Option<AssetId>): (r: Result<AssetId, DbError>)
    ensures r.Ok? <==> id.Some?
    ensures r.Ok? ==> r.value == id.value
    ensures r.Err? ==> r.error == NotFound
  {
    match id
    case None => Err(NotFound)
    case Some(v) => Ok(v)
  }

  /** The lookup of an ETF group: the `etfs` row of the ticker, unless that query fails. */
  function EtfLookup(etfs: seq<EtfRow>, failure: Failure): string -> Result<AssetId, DbError> {
    ticker => if failure.AtEtfLookup? && failure.ticker == ticker then Err(failure.error)
              else Found(Assets.FindEtf(etfs, ticker))
  }

  /** The lookup of a treasury group: the LFT bond of the maturity, unless that query fails. */
  function BondLookup(bonds: seq<BondRow>, failure: Failure): Date -> Result<AssetId, DbError> {
    maturity => if failure.AtBondLookup? && failure.maturity == maturity then Err(failure.error)
                else Found(FindBond(bonds, maturity))
  }

  /** The `NewTrade` of one input trade. */
  function RowOf<K>(pid: PortfolioId, id: AssetId, tr: KeyedTrade<K>): TradeRow {
    TradeRow(pid, id, tr.date, tr.quantity, tr.price)
  }

  /** The rows pushed for one group, whose key resolved to `id`. */
  function RowsOf<K>(pid: PortfolioId, id: AssetId, group: seq<KeyedTrade<K>>): (rows: seq<TradeRow>)
    ensures |rows| == |group|
    ensures forall i :: 0 <= i < |group| ==> rows[i] == RowOf(pid, id, group[i])
  {
    if |group| == 0 then [] else [RowOf(pid, id, group[0])] + RowsOf(pid, id, group[1..])
  }

  /** Every trade's key has an asset. */
  predicate Resolvable<K>(ts: seq<KeyedTrade<K>>, lookup: K -> Result<AssetId, DbError>) {
    forall i :: 0 <= i < |ts| ==> lookup(ts[i].key).Ok?
  }

  /**
   * The reference the grouping is measured against: every trade resolved on
   * its own, in input order.
   */
  function ResolvedRows<K>(pid: PortfolioId, ts: seq<KeyedTrade<K>>, lookup: K -> Result<AssetId, DbError>): (rows: seq<TradeRow>)
    requires Resolvable(ts, lookup)
    ensures |rows| == |ts|
  {
    if |ts| == 0 then []
    else [RowOf(pid, lookup(ts[0].key).value, ts[0])] + ResolvedRows(pid, ts[1..], lookup)
  }

  /** The i-th resolved row is the i-th trade under the asset of its own key. */
  lemma {:induction false} ResolvedRowsAt<K>(pid: PortfolioId, ts: seq<KeyedTrade<K>>, lookup: K -> Result<AssetId, DbError>)
    requires Resolvable(ts, lookup)
    ensures forall i :: 0 <= i < |ts| ==> ResolvedRows(pid, ts, lookup)[i] == RowOf(pid, lookup(ts[i].key).value, ts[i])
  {
    if |ts| > 0 {
      ResolvedRowsAt(pid, ts[1..], lookup);
    }
  }

  /**
   * The rows of the groups `ks`, one group after the other; the first key
   * whose lookup fails makes the whole result that error (`.first()?`).
   */
  function GroupRows<K(==)>(ts: seq<KeyedTrade<K>>, ks: seq<K>, lookup: K -> Result<AssetId, DbError>, pid: PortfolioId)
    : Result<seq<TradeRow>, DbError>
  {
    if |ks| == 0 then Ok([])
    else match GroupRows(ts, ks[..|ks| - 1], lookup, pid)
      case Err(e) => Err(e)
      case Ok(rows) =>
        match lookup(ks[|ks| - 1])
        case Err(e) => Err(e)
        case Ok(id) => Ok(rows + RowsOf(pid, id, Select(ts, KeyOf, ks[|ks| - 1])))
  }

  /** The distinct tickers, ascending (`sorted_by_key` then `group_by`). */
  function EtfKeys(ts: seq<EtfTrade>): seq<string> {
    StringLessIsStrictTotalOrder();
    SortedKeys(ts, KeyOf, StringLess)
  }

  /** The distinct maturities, ascending. */
  function BondKeys(ts: seq<BondTrade>): seq<Date> {
    IntLessIsStrictTotalOrder();
    SortedKeys(ts, KeyOf, IntLess)
  }

  /**
   * The `new_trades` of both group loops: the ETF groups, then the treasury
   * groups, looked up in `etfs` and `treasury_bonds`.
   */
  function NewTradeRows(etfs: seq<EtfRow>, bonds: seq<BondRow>, etfTrades: seq<EtfTrade>, bondTrades: seq<BondTrade>,
                        pid: PortfolioId, failure: Failure)
    : Result<seq<TradeRow>, DbError>
  {
    match GroupRows(etfTrades, EtfKeys(etfTrades), EtfLookup(etfs, failure), pid)
    case Err(e) => Err(e)
    case Ok(etfRows) =>
      match GroupRows(bondTrades, BondKeys(bondTrades), BondLookup(bonds, failure), pid)
      case Err(e) => Err(e)
      case Ok(bondRows) => Ok(etfRows + bondRows)
  }

  /**
   * `register_trades` on the tables as a value. The lookups read the tables
   * as they were; `failure` says where, if anywhere, the storage engine
   * fails. A failed `portfolios` insert changes nothing; any later failure
   * rolls the transaction back, and the portfolio serial keeps the value it
   * had moved to.
   */
  function TradesRegistered(t: Tables, etfTrades: seq<EtfTrade>, bondTrades: seq<BondTrade>, failure: Failure)
    : (Tables, Result<PortfolioId, DbError>)
  {
    if failure.AtPortfolioInsert? then (t, Err(failure.error))
    else
      var pid := t.nextPortfolioId;
      var t1 := t.(portfolios := t.portfolios + [pid], nextPortfolioId := pid + 1);
      match NewTradeRows(t.etfs, t.treasuryBonds, etfTrades, bondTrades, pid, failure)
      case Err(e) => (Rollback(t, t1), Err(e))
      case Ok(rows) =>
        if failure.AtTradesInsert? then (Rollback(t, t1), Err(failure.error))
        else (t1.(trades := t1.trades + rows), Ok(pid))
  }

  /** Lookups that agree on every trade's key resolve the trades alike. */
  lemma {:induction false} ResolvedAgree<K>(pid: PortfolioId, ts: seq<KeyedTrade<K>>,
                                            l1: K -> Result<AssetId, DbError>, l2: K -> Result<AssetId, DbError>)
    requires forall i :: 0 <= i < |ts| ==> l1(ts[i].key) == l2(ts[i].key)
    requires Resolvable(ts, l1)
    ensures Resolvable(ts, l2)
    ensures ResolvedRows(pid, ts, l1) == ResolvedRows(pid, ts, l2)
  {
    if |ts| > 0 {
      assert forall i :: 0 <= i < |ts[1..]| ==> ts[1..][i] == ts[i + 1];
      ResolvedAgree(pid, ts[1..], l1, l2);
    }
  }

  lemma {:induction false} ResolvedAppend<K>(pid: PortfolioId, a: seq<KeyedTrade<K>>, b: seq<KeyedTrade<K>>, lookup: K -> Result<AssetId, DbError>)
    requires Resolvable(a, lookup) && Resolvable(b, lookup)
    ensures Resolvable(a + b, lookup)
    ensures ResolvedRows(pid, a + b, lookup) == ResolvedRows(pid, a, lookup) + ResolvedRows(pid, b, lookup)
  {
    var ab := a + b;
    forall i | 0 <= i < |ab| ensures lookup(ab[i].key).Ok? {
      if i < |a| { assert ab[i] == a[i]; } else { assert ab[i] == b[i - |a|]; }
    }
    if |a| == 0 {
      assert ab == b;
    } else {
      assert ab[1..] == a[1..] + b;
      assert Resolvable(a[1..], lookup) by {
        forall i | 0 <= i < |a[1..]| ensures lookup(a[1..][i].key).Ok? { assert a[1..][i] == a[i + 1]; }
      }
      ResolvedAppend(pid, a[1..], b, lookup);
    }
  }

  lemma ResolvablePermutation<K>(a: seq<KeyedTrade<K>>, b: seq<KeyedTrade<K>>, lookup: K -> Result<AssetId, DbError>)
    requires multiset(a) == multiset(b)
    requires Resolvable(a, lookup)
    ensures Resolvable(b, lookup)
  {
    forall i | 0 <= i < |b| ensures lookup(b[i].key).Ok? {
      assert b[i] in multiset(a);
    }
  }

  /** Resolving a permutation of the trades gives a permutation of the rows. */
  lemma {:induction false} ResolvedPermutation<K>(pid: PortfolioId, a: seq<KeyedTrade<K>>, b: seq<KeyedTrade<K>>, lookup: K -> Result<AssetId, DbError>)
    requires multiset(a) == multiset(b)
    requires Resolvable(a, lookup)
    ensures Resolvable(b, lookup)
    ensures multiset(ResolvedRows(pid, a, lookup)) == multiset(ResolvedRows(pid, b, lookup))
    decreases |a|
  {
    ResolvablePermutation(a, b, lookup);
    if |a| == 0 {
      assert |multiset(b)| == 0;
    } else {
      var x, rest := a[0], a[1..];
      assert x in multiset(b);
      var j :| 0 <= j < |b| && b[j] == x;
      var left, right := b[..j], b[j + 1..];
      assert b == left + [x] + right;
      assert a == [x] + rest;
      RemoveOne(a, b, j);
      SplitResolvable(b, j, lookup);
      ResolvedPermutation(pid, rest, left + right, lookup);
      assert Resolvable([x], lookup) && Resolvable(rest, lookup) by {
        forall i | 0 <= i < |rest| ensures lookup(rest[i].key).Ok? { assert rest[i] == a[i + 1]; }
      }
      PermutationStep(pid, x, rest, left, right, lookup);
    }
  }

  lemma PermutationStep<K>(pid: PortfolioId, x: KeyedTrade<K>, rest: seq<KeyedTrade<K>>,
                          left: seq<KeyedTrade<K>>, right: seq<KeyedTrade<K>>, lookup: K -> Result<AssetId, DbError>)
    requires Resolvable([x], lookup) && Resolvable(rest, lookup)
    requires Resolvable(left, lookup) && Resolvable(right, lookup)
    requires multiset(ResolvedRows(pid, rest, lookup)) == multiset(ResolvedRows(pid, left + right, lookup))
    ensures Resolvable(left + [x] + right, lookup)
    ensures multiset(ResolvedRows(pid, [x] + rest, lookup)) == multiset(ResolvedRows(pid, left + [x] + right, lookup))
  {
    ResolvedAppend(pid, left, [x], lookup);
    ResolvedAppend(pid, left + [x], right, lookup);
    ResolvedAppend(pid, left, right, lookup);
    ResolvedAppend(pid, [x], rest, lookup);
    var rx, rl, rr := ResolvedRows(pid, [x], lookup), ResolvedRows(pid, left, lookup), ResolvedRows(pid, right, lookup);
    calc {
      multiset(ResolvedRows(pid, left + [x] + right, lookup));
      multiset(rl + rx + rr);
      multiset(rx) + multiset(rl + rr);
      multiset(rx) + multiset(ResolvedRows(pid, rest, lookup));
      multiset(ResolvedRows(pid, [x] + rest, lookup));
    }
  }

  lemma SplitResolvable<K>(b: seq<KeyedTrade<K>>, j: nat, lookup: K -> Result<AssetId, DbError>)
    requires j < |b| && Resolvable(b, lookup)
    ensures Resolvable(b[..j], lookup) && Resolvable(b[j + 1..], lookup)
  {
    var left, right := b[..j], b[j + 1..];
    forall i | 0 <= i < |left| ensures lookup(left[i].key).Ok? { assert left[i] == b[i]; }
    forall i | 0 <= i < |right| ensures lookup(right[i].key).Ok? { assert right[i] == b[j + 1 + i]; }
  }

  /** Taking the same element out of two permutations leaves permutations. */
  lemma RemoveOne<T>(a: seq<T>, b: seq<T>, j: nat)
    requires multiset(a) == multiset(b)
    requires 0 < |a| && j < |b| && b[j] == a[0]
    ensures multiset(a[1..]) == multiset(b[..j] + b[j + 1..])
  {
    var x := a[0];
    assert a == [x] + a[1..];
    assert b == b[..j] + [x] + b[j + 1..];
    calc {
      multiset(a[1..]);
      multiset(a) - multiset{x};
      multiset(b) - multiset{x};
      multiset(b[..j]) + multiset(b[j + 1..]);
      multiset(b[..j] + b[j + 1..]);
    }
  }

  /**
   * The groups of `ks` resolve exactly when every key of `ks` has an asset,
   * and then their rows are the groups' trades, each resolved on its own;
   * otherwise the error is that of the first key whose lookup fails.
   */
  lemma {:induction false} GroupRowsIsResolved<K>(pid: PortfolioId, ts: seq<KeyedTrade<K>>, ks: seq<K>, lookup: K -> Result<AssetId, DbError>)
    ensures GroupRows(ts, ks, lookup, pid).Ok? <==> forall j :: 0 <= j < |ks| ==> lookup(ks[j]).Ok?
    ensures GroupRows(ts, ks, lookup, pid).Err? ==>
      exists j :: 0 <= j < |ks| && lookup(ks[j]).Err? && GroupRows(ts, ks, lookup, pid) == Err(lookup(ks[j]).error)
        && forall j' :: 0 <= j' < j ==> lookup(ks[j']).Ok?
    ensures GroupRows(ts, ks, lookup, pid).Ok? ==>
      && Resolvable(Grouped(ts, KeyOf, ks), lookup)
      && ResolvedRows(pid, Grouped(ts, KeyOf, ks), lookup) == GroupRows(ts, ks, lookup, pid).value
  {
    if |ks| > 0 {
      var front, k := ks[..|ks| - 1], ks[|ks| - 1];
      GroupRowsIsResolved(pid, ts, front, lookup);
      assert forall j :: 0 <= j < |front| ==> front[j] == ks[j];
      if GroupRows(ts, front, lookup, pid).Err? {
        var j :| 0 <= j < |front| && lookup(front[j]).Err? && GroupRows(ts, front, lookup, pid) == Err(lookup(front[j]).error)
          && forall j' :: 0 <= j' < j ==> lookup(front[j']).Ok?;
        assert GroupRows(ts, ks, lookup, pid) == Err(lookup(ks[j]).error);
      } else if lookup(k).Err? {
        assert GroupRows(ts, ks, lookup, pid) == Err(lookup(ks[|ks| - 1]).error);
      }
      if GroupRows(ts, ks, lookup, pid).Ok? {
        var group := Select(ts, KeyOf, k);
        GroupResolves(pid, ts, k, lookup);
        ResolvedAppend(pid, Grouped(ts, KeyOf, front), group, lookup);
      }
    }
  }

  /** A group whose key has an asset resolves, trade by trade, to the rows pushed for it. */
  lemma GroupResolves<K>(pid: PortfolioId, ts: seq<KeyedTrade<K>>, k: K, lookup: K -> Result<AssetId, DbError>)
    requires lookup(k).Ok?
    ensures Resolvable(Select(ts, KeyOf, k), lookup)
    ensures ResolvedRows(pid, Select(ts, KeyOf, k), lookup) == RowsOf(pid, lookup(k).value, Select(ts, KeyOf, k))
  {
    var group := Select(ts, KeyOf, k);
    SelectHasKey(ts, KeyOf, k);
    assert forall i :: 0 <= i < |group| ==> KeyOf(group[i]) == k;
    ResolvedRowsAt(pid, group, lookup);
  }

  /** The keys of `ks` all have an asset exactly when the trades' keys do, if both hold the same keys. */
  lemma KeysResolvable<K>(ts: seq<KeyedTrade<K>>, ks: seq<K>, lookup: K -> Result<AssetId, DbError>)
    requires forall i :: 0 <= i < |ts| ==> KeyOf(ts[i]) in ks
    requires forall k :: k in ks ==> exists i :: 0 <= i < |ts| && KeyOf(ts[i]) == k
    ensures Resolvable(ts, lookup) <==> forall j :: 0 <= j < |ks| ==> lookup(ks[j]).Ok?
  {
    if Resolvable(ts, lookup) {
      forall j | 0 <= j < |ks| ensures lookup(ks[j]).Ok? {
        assert ks[j] in ks;
        var i :| 0 <= i < |ts| && KeyOf(ts[i]) == ks[j];
      }
    }
  }

  /**
   * Grouping by the sorted distinct keys and resolving each group once gives
   * the rows of resolving every trade on its own, up to order; it fails
   * exactly when some trade's key does not resolve.
   */
  lemma GroupRowsMatchesResolved<K(!new)>(pid: PortfolioId, ts: seq<KeyedTrade<K>>, lookup: K -> Result<AssetId, DbError>, less: (K, K) -> bool)
    requires StrictTotalOrder(less)
    ensures var g := GroupRows(ts, SortedKeys(ts, KeyOf, less), lookup, pid);
      && (g.Ok? <==> Resolvable(ts, lookup))
      && (g.Ok? ==> multiset(g.value) == multiset(ResolvedRows(pid, ts, lookup)))
  {
    var ks := SortedKeys(ts, KeyOf, less);
    GroupRowsIsResolved(pid, ts, ks, lookup);
    SortedKeysMembers(ts, KeyOf, less);
    KeysResolvable(ts, ks, lookup);
    if GroupRows(ts, ks, lookup, pid).Ok? {
      GroupsCoverAll(ts, KeyOf, less);
      ResolvedPermutation(pid, Grouped(ts, KeyOf, ks), ts, lookup);
    }
  }

  /** A grouping that fails carries the error of some trade's own lookup. */
  lemma GroupRowsErrorIsLookup<K(!new)>(pid: PortfolioId, ts: seq<KeyedTrade<K>>, lookup: K -> Result<AssetId, DbError>, less: (K, K) -> bool)
    requires StrictTotalOrder(less)
    ensures var g := GroupRows(ts, SortedKeys(ts, KeyOf, less), lookup, pid);
      g.Err? ==> exists i :: 0 <= i < |ts| && lookup(ts[i].key).Err? && g == Err(lookup(ts[i].key).error)
  {
    var ks := SortedKeys(ts, KeyOf, less);
    GroupRowsIsResolved(pid, ts, ks, lookup);
    if GroupRows(ts, ks, lookup, pid).Err? {
      SortedKeysMembers(ts, KeyOf, less);
      var j :| 0 <= j < |ks| && lookup(ks[j]).Err? && GroupRows(ts, ks, lookup, pid) == Err(lookup(ks[j]).error)
        && forall j' :: 0 <= j' < j ==> lookup(ks[j']).Ok?;
      assert ks[j] in ks;
      var i :| 0 <= i < |ts| && KeyOf(ts[i]) == ks[j];
    }
  }

  /** The rows of a successful grouping: one per trade, all under `pid`. */
  lemma GroupRowsShape<K(!new)>(pid: PortfolioId, ts: seq<KeyedTrade<K>>, lookup: K -> Result<AssetId, DbError>, less: (K, K) -> bool)
    requires StrictTotalOrder(less)
    ensures var g := GroupRows(ts, SortedKeys(ts, KeyOf, less), lookup, pid);
      g.Ok? ==> |g.value| == |ts| && forall i :: 0 <= i < |g.value| ==> g.value[i].portfolioId == pid
  {
    var ks := SortedKeys(ts, KeyOf, less);
    GroupRowsIsResolved(pid, ts, ks, lookup);
    if GroupRows(ts, ks, lookup, pid).Ok? {
      GroupsCoverAll(ts, KeyOf, less);
      ResolvedRowsAt(pid, Grouped(ts, KeyOf, ks), lookup);
    }
  }

  /**
   * A failed `portfolios` insert changes nothing; otherwise the portfolio
   * serial moves on by one. On an error no table changes. On success the returned id is that serial, appended to
   * `portfolios`; the new trade rows are appended after the old ones, one
   * per input trade, all under that id, and no other table changes.
   */
  lemma RegisterTradesEffect(t: Tables, etfTrades: seq<EtfTrade>, bondTrades: seq<BondTrade>, failure: Failure)
    ensures var (t2, r) := TradesRegistered(t, etfTrades, bondTrades, failure);
      && (failure.AtPortfolioInsert? ==> t2 == t && r == Err(failure.error))
      && (!failure.AtPortfolioInsert? ==> t2.nextPortfolioId == t.nextPortfolioId + 1)
      && (r.Err? ==> t2.(nextPortfolioId := t.nextPortfolioId) == t)
      && (r.Ok? ==>
            && r.value == t.nextPortfolioId
            && t2.portfolios == t.portfolios + [r.value]
            && |t2.trades| == |t.trades| + |etfTrades| + |bondTrades|
            && t2.trades[..|t.trades|] == t.trades
            && (forall i :: |t.trades| <= i < |t2.trades| ==> t2.trades[i].portfolioId == r.value)
            && t2.(portfolios := t.portfolios, trades := t.trades, nextPortfolioId := t.nextPortfolioId) == t)
  {
    var (t2, r) := TradesRegistered(t, etfTrades, bondTrades, failure);
    var pid := t.nextPortfolioId;
    if r.Ok? {
      StringLessIsStrictTotalOrder();
      IntLessIsStrictTotalOrder();
      var etfRows := GroupRows(etfTrades, EtfKeys(etfTrades), EtfLookup(t.etfs, failure), pid).value;
      var bondRows := GroupRows(bondTrades, BondKeys(bondTrades), BondLookup(t.treasuryBonds, failure), pid).value;
      GroupRowsShape(pid, etfTrades, EtfLookup(t.etfs, failure), StringLess);
      GroupRowsShape(pid, bondTrades, BondLookup(t.treasuryBonds, failure), IntLess);
      AppendedInPortfolio(t.trades, etfRows, bondRows, pid);
      assert t2.trades == t.trades + (etfRows + bondRows);
    }
  }

  lemma AppendedInPortfolio(old_: seq<TradeRow>, rows1: seq<TradeRow>, rows2: seq<TradeRow>, pid: PortfolioId)
    requires forall i :: 0 <= i < |rows1| ==> rows1[i].portfolioId == pid
    requires forall i :: 0 <= i < |rows2| ==> rows2[i].portfolioId == pid
    ensures forall i :: |old_| <= i < |old_ + (rows1 + rows2)| ==> (old_ + (rows1 + rows2))[i].portfolioId == pid
    ensures (old_ + (rows1 + rows2))[..|old_|] == old_
  {
    var all := old_ + (rows1 + rows2);
    forall i | |old_| <= i < |all| ensures all[i].portfolioId == pid {
      var k := i - |old_|;
      if k < |rows1| { assert all[i] == rows1[k]; } else { assert all[i] == rows2[k - |rows1|]; }
    }
    assert all[..|old_|] == old_;
  }

  /** The registry stays consistent, and a successful registration's portfolio id is new. */
  lemma RegisterTradesKeepsConsistent(t: Tables, etfTrades: seq<EtfTrade>, bondTrades: seq<BondTrade>, failure: Failure)
    requires Consistent(t)
    ensures var (t2, r) := TradesRegistered(t, etfTrades, bondTrades, failure);
      && Consistent(t2)
      && (r.Ok? ==> r.value !in t.portfolios)
  {
    RegisterTradesEffect(t, etfTrades, bondTrades, failure);
    var (t2, r) := TradesRegistered(t, etfTrades, bondTrades, failure);
    if r.Ok? {
      var pid := r.value;
      assert pid !in t.portfolios;
      forall i | 0 <= i < |t2.trades| ensures t2.trades[i].portfolioId in t2.portfolios {
        if i < |t.trades| {
          assert t2.trades[i] == t2.trades[..|t.trades|][i];
        }
      }
    }
  }

  /**
   * The registration succeeds exactly when the storage engine does not fail
   * at any query it reaches and every trade's asset is found. With no
   * storage failure before the bulk insert, it succeeds exactly when there
   * is no failure at all and every ETF trade's ticker has an `etfs` row and
   * every treasury trade's maturity an LFT bond, and a missing one is
   * `NotFound`. Any error is `NotFound` or the storage engine's. On success
   * the new rows are, up to order, the trades each resolved to its own
   * asset: one row per trade, with the trade's date, price and quantity.
   */
  lemma RegisterTradesOutcome(t: Tables, etfTrades: seq<EtfTrade>, bondTrades: seq<BondTrade>, failure: Failure)
    ensures var (t2, r) := TradesRegistered(t, etfTrades, bondTrades, failure);
      var pid := t.nextPortfolioId;
      var etfLookup, bondLookup := EtfLookup(t.etfs, NoFailure), BondLookup(t.treasuryBonds, NoFailure);
      && (r.Ok? <==> && !failure.AtPortfolioInsert? && !failure.AtTradesInsert?
                     && Resolvable(etfTrades, EtfLookup(t.etfs, failure))
                     && Resolvable(bondTrades, BondLookup(t.treasuryBonds, failure)))
      && (NoEarlyFailure(failure) ==>
            (r.Ok? <==> failure.NoFailure? && Resolvable(etfTrades, etfLookup) && Resolvable(bondTrades, bondLookup)))
      && (NoEarlyFailure(failure) && (!Resolvable(etfTrades, etfLookup) || !Resolvable(bondTrades, bondLookup)) ==>
            r == Err(NotFound))
      && (r.Err? ==> r == Err(NotFound) || (!failure.NoFailure? && r == Err(failure.error)))
      && (r.Ok? ==> Resolvable(etfTrades, etfLookup) && Resolvable(bondTrades, bondLookup))
      && (r.Ok? ==>
            && |t.trades| <= |t2.trades|
            && multiset(t2.trades[|t.trades|..])
               == multiset(ResolvedRows(pid, etfTrades, etfLookup) + ResolvedRows(pid, bondTrades, bondLookup)))
  {
    var pid := t.nextPortfolioId;
    var ef, bf := EtfLookup(t.etfs, failure), BondLookup(t.treasuryBonds, failure);
    var ep, bp := EtfLookup(t.etfs, NoFailure), BondLookup(t.treasuryBonds, NoFailure);
    StringLessIsStrictTotalOrder();
    IntLessIsStrictTotalOrder();
    GroupRowsMatchesResolved(pid, etfTrades, ef, StringLess);
    GroupRowsMatchesResolved(pid, bondTrades, bf, IntLess);
    GroupRowsErrorIsLookup(pid, etfTrades, ef, StringLess);
    GroupRowsErrorIsLookup(pid, bondTrades, bf, IntLess);
    LookupFaultAgrees(t, etfTrades, bondTrades, failure);
    var (t2, r) := TradesRegistered(t, etfTrades, bondTrades, failure);
    if r.Ok? {
      ResolvedAgree(pid, etfTrades, ef, ep);
      ResolvedAgree(pid, bondTrades, bf, bp);
      var etfRows := GroupRows(etfTrades, EtfKeys(etfTrades), ef, pid);
      var bondRows := GroupRows(bondTrades, BondKeys(bondTrades), bf, pid);
      assert t2.trades == t.trades + (etfRows.value + bondRows.value);
      assert t2.trades[|t.trades|..] == etfRows.value + bondRows.value;
    }
  }

  /**
   * A lookup that succeeds despite `failure` finds what a lookup without it
   * finds; with no lookup failure, the two agree on every key.
   */
  lemma LookupFaultAgrees(t: Tables, etfTrades: seq<EtfTrade>, bondTrades: seq<BondTrade>, failure: Failure)
    ensures forall i :: 0 <= i < |etfTrades| && (EtfLookup(t.etfs, failure)(etfTrades[i].key).Ok? || !failure.AtEtfLookup?) ==>
      EtfLookup(t.etfs, failure)(etfTrades[i].key) == EtfLookup(t.etfs, NoFailure)(etfTrades[i].key)
    ensures forall i :: 0 <= i < |bondTrades| && (BondLookup(t.treasuryBonds, failure)(bondTrades[i].key).Ok? || !failure.AtBondLookup?) ==>
      BondLookup(t.treasuryBonds, failure)(bondTrades[i].key) == BondLookup(t.treasuryBonds, NoFailure)(bondTrades[i].key)
    ensures forall i :: 0 <= i < |etfTrades| && EtfLookup(t.etfs, failure)(etfTrades[i].key).Err? ==>
      EtfLookup(t.etfs, failure)(etfTrades[i].key).error == NotFound || (!failure.NoFailure? && EtfLookup(t.etfs, failure)(etfTrades[i].key).error == failure.error)
    ensures forall i :: 0 <= i < |bondTrades| && BondLookup(t.treasuryBonds, failure)(bondTrades[i].key).Err? ==>
      BondLookup(t.treasuryBonds, failure)(bondTrades[i].key).error == NotFound || (!failure.NoFailure? && BondLookup(t.treasuryBonds, failure)(bondTrades[i].key).error == failure.error)
  {
  }

  /**
   * A registration with a ticker or a maturity that has no asset fails and
   * leaves every table as it was, whatever the storage engine does; the
   * error is `NotFound` unless the storage engine failed before the bulk
   * insert.
   */
  lemma UnknownAssetPersistsNothing(t: Tables, etfTrades: seq<EtfTrade>, bondTrades: seq<BondTrade>, failure: Failure)
    requires (exists i :: 0 <= i < |etfTrades| && Assets.FindEtf(t.etfs, etfTrades[i].key).None?)
          || (exists i :: 0 <= i < |bondTrades| && FindBond(t.treasuryBonds, bondTrades[i].key).None?)
    ensures TradesRegistered(t, etfTrades, bondTrades, failure).1.Err?
    ensures NoEarlyFailure(failure) ==> TradesRegistered(t, etfTrades, bondTrades, failure).1 == Err(NotFound)
    ensures TradesRegistered(t, etfTrades, bondTrades, failure).0.(nextPortfolioId := t.nextPortfolioId) == t
  {
    RegisterTradesOutcome(t, etfTrades, bondTrades, failure);
    RegisterTradesEffect(t, etfTrades, bondTrades, failure);
    if exists i :: 0 <= i < |etfTrades| && Assets.FindEtf(t.etfs, etfTrades[i].key).None? {
      var i :| 0 <= i < |etfTrades| && Assets.FindEtf(t.etfs, etfTrades[i].key).None?;
      assert EtfLookup(t.etfs, NoFailure)(etfTrades[i].key).Err?;
    } else {
      var i :| 0 <= i < |bondTrades| && FindBond(t.treasuryBonds, bondTrades[i].key).None?;
      assert BondLookup(t.treasuryBonds, NoFailure)(bondTrades[i].key).Err?;
    }
  }

  /**
   * The group loops: for each key in order, resolve it once, then push one
   * row per trade of its group.
   */
  method CollectGroups<K(==)>(ts: seq<KeyedTrade<K>>, ks: seq<K>, lookup: K -> Result<AssetId, DbError>, pid: PortfolioId)
    returns (r: Result<seq<TradeRow>, DbError>)
    ensures r == GroupRows(ts, ks, lookup, pid)
  {
    var rows: seq<TradeRow> := [];
    for g := 0 to |ks|
      invariant GroupRows(ts, ks[..g], lookup, pid) == Ok(rows)
    {
      assert ks[..g + 1][..g] == ks[..g];
      var id := lookup(ks[g]);
      if id.Err? {
        GroupRowsErrorSticks(ts, ks, lookup, pid, g + 1);
        return Err(id.error);
      }
      rows := PushGroup(rows, pid, id.value, Select(ts, KeyOf, ks[g]));
    }
    assert ks[..|ks|] == ks;
    return Ok(rows);
  }

  /** The inner loop: one row per trade of the group, pushed in group order. */
  method PushGroup<K>(rows: seq<TradeRow>, pid: PortfolioId, id: AssetId, group: seq<KeyedTrade<K>>)
    returns (rows': seq<TradeRow>)
    ensures rows' == rows + RowsOf(pid, id, group)
  {
    rows' := rows;
    for j := 0 to |group|
      invariant rows' == rows + RowsOf(pid, id, group[..j])
    {
      RowsOfSnoc(pid, id, group[..j], group[j]);
      assert group[..j + 1] == group[..j] + [group[j]];
      rows' := rows' + [RowOf(pid, id, group[j])];
    }
    assert group[..|group|] == group;
  }

  lemma RowsOfSnoc<K>(pid: PortfolioId, id: AssetId, group: seq<KeyedTrade<K>>, tr: KeyedTrade<K>)
    ensures RowsOf(pid, id, group + [tr]) == RowsOf(pid, id, group) + [RowOf(pid, id, tr)]
  {
    var r, expected := RowsOf(pid, id, group + [tr]), RowsOf(pid, id, group) + [RowOf(pid, id, tr)];
    forall i | 0 <= i < |r| ensures r[i] == expected[i] {
      if i < |group| { assert (group + [tr])[i] == group[i]; }
    }
  }

  /** Once a prefix of the keys fails, the whole list fails with the same error. */
  lemma {:induction false} GroupRowsErrorSticks<K>(ts: seq<KeyedTrade<K>>, ks: seq<K>, lookup: K -> Result<AssetId, DbError>, pid: PortfolioId, n: nat)
    requires n <= |ks|
    requires GroupRows(ts, ks[..n], lookup, pid).Err?
    ensures GroupRows(ts, ks, lookup, pid) == GroupRows(ts, ks[..n], lookup, pid)
    decreases |ks| - n
  {
    if n < |ks| {
      var longer := ks[..n + 1];
      assert longer[..n] == ks[..n];
      GroupRowsErrorSticks(ts, ks, lookup, pid, n + 1);
    } else {
      assert ks[..n] == ks;
    }
  }

  /** Both group loops, the ETF groups first; a lookup that fails ends them. */
  method CollectRows(etfs: seq<EtfRow>, bonds: seq<BondRow>, etfTrades: seq<EtfTrade>, bondTrades: seq<BondTrade>,
                     pid: PortfolioId, failure: Failure)
    returns (r: Result<seq<TradeRow>, DbError>)
    ensures r == NewTradeRows(etfs, bonds, etfTrades, bondTrades, pid, failure)
  {
    var etfRows := CollectGroups(etfTrades, EtfKeys(etfTrades), EtfLookup(etfs, failure), pid);
    if etfRows.Err? {
      return Err(etfRows.error);
    }
    var bondRows := CollectGroups(bondTrades, BondKeys(bondTrades), BondLookup(bonds, failure), pid);
    if bondRows.Err? {
      return Err(bondRows.error);
    }
    return Ok(etfRows.value + bondRows.value);
  }

  /** `register_trades`. */
  method RegisterTrades(db: Database, etfTrades: seq<EtfTrade>, bondTrades: seq<BondTrade>, failure: Failure)
    returns (r: Result<PortfolioId, DbError>)
    modifies db
    requires db.Valid()
    ensures db.Valid()
    ensures (db.State(), r) == TradesRegistered(old(db.State()), etfTrades, bondTrades, failure)
  {
    var saved := db.State();
    ghost var expected := TradesRegistered(saved, etfTrades, bondTrades, failure);
    RegisterTradesKeepsConsistent(saved, etfTrades, bondTrades, failure);
    if failure.AtPortfolioInsert? {
      return Err(failure.error);
    }
    var pid := db.nextPortfolioId;
    db.nextPortfolioId := pid + 1;
    db.portfolios := db.portfolios + [pid];
    assert db.State() == saved.(portfolios := saved.portfolios + [pid], nextPortfolioId := pid + 1);
    var rows := CollectRows(saved.etfs, saved.treasuryBonds, etfTrades, bondTrades, pid, failure);
    if rows.Err? || failure.AtTradesInsert? {
      db.Restore(saved);
      r := Err(if rows.Err? then rows.error else failure.error);
      assert (db.State(), r) == expected;
      return;
    }
    db.trades := db.trades + rows.value;
    r := Ok(pid);
    assert (db.State(), r) == expected;
  }
}
