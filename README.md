# portifolio — a verified model of the valuation and import core

This project models, in Dafny, the server core of *portifolio*, a small
investment tracker written in Rust. It holds ETF and treasury trades in
portfolios and imports treasury prices from the Tesouro Direto CSV. The
parts modelled are:

- **Valuation**:
  - the daily valuation series of a portfolio (`get_portfolio_amounts`);
  - the position on a day (`positions::position`);
  - the transaction list (`get_transactions`).
- **Registry and storage**:
  - the asset registry, which finds or creates a treasury by maturity or an ETF by ticker (`models::assets`);
  - price replacement per asset (`models::prices`);
  - the registration of a portfolio with its trades (`models::trades`).
- **Imports**:
  - the two trade imports: the service in `services/import_trades.rs` and the web route in `web/routes/import_trades.rs`;
  - the two treasury price imports: the service in `services/import_treasury_bonds_prices.rs` and the route in `routes/import_treasury_prices.rs`.
- **Session cookie**: the `portfolio-id` cookie written by `web/cookies.rs` and read back from the `Cookie` header.

Modelling choices:

- **Types**: dates are day numbers (`int`) and `BigDecimal` amounts are `real`.
- **Database state**:
  - The database is one `Storage.Database` object. Its fields are the tables the operations write.
  - Each writing operation is a method that updates those fields in place.
  - Each such method is proved against a pure function on the `Tables` value, such as `Trades.TradesRegistered` or `Prices.TreasuryPricesRegistered`.
  - The lemmas about the operations are stated on those functions.
- **Transactions and serial ids**:
  - A rolled-back transaction puts every table back.
  - The serial counters keep their values, as PostgreSQL sequences do (`Storage.Rollback`).
  - A storage failure the model cannot predict, such as a lost connection or a constraint violation, is a parameter: `failure` or `failureOf`. For the trade registration, `Trades.Failure` also says where the engine fails: at the `portfolios` insert, at one group's lookup, or at the bulk insert of the trades.
- **Read queries**:
  - Each read query is an input.
  - Its `ORDER BY` clause becomes a precondition on that input, for example `PortfolioAmounts.ByDate`.
- **Other collaborators**: the CSV reader, `NaiveDate::parse_from_str`, `BigDecimal::from_str` and `Cookie::parse` are function parameters, and so are the collaborators whose code is not shown.
- **Grouping**: `sorted_by_key(..).group_by(..)` is `Keys.SortedKeys`, the distinct keys in ascending order, with `Keys.Select` giving each key's group in input order. This is a stable sort followed by grouping.

## Model

| member | source | states |
|---|---|---|
| Keys.SortedKeysMembers | server/src/models/trades.rs:48-51 | every element's key is among the sorted group keys and every group key is some element's key |
| Keys.SortedKeysUnique | server/src/services/get_portfolio_amounts.rs:34-40 | any strictly ascending sequence holding exactly the elements' keys is the sorted group-key sequence |
| Keys.GroupsCoverAll | server/src/models/trades.rs:48-51 | concatenating the groups over the sorted keys is a permutation of the input, with nothing lost or duplicated |
| Keys.GroupedIsPermutation | server/src/routes/import_treasury_prices.rs:83-86 | over distinct keys covering every element, the concatenated groups are a permutation of the input |
| Keys.SelectHasKey | server/src/services/import_treasury_bonds_prices.rs:114-115 | every element of a key's group has that key |
| Keys.StringIntLessIsStrictTotalOrder | server/src/services/import_treasury_bonds_prices.rs:114 | ordering by (key, maturity) pairs is a strict total order, so the group keys are well defined |
| Lines.ParseEachOk | server/src/routes/import_treasury_prices.rs:46-77 | the line-by-line parse succeeds iff every line parses, and then yields each line's value in order |
| Lines.ParseEachFirstError | server/src/web/routes/import_trades.rs:38-78 | the parse fails with the message of the first bad line, whatever follows it |
| Lines.ParseKeptSkip | server/src/services/import_treasury_bonds_prices.rs:69-71 | removing a line that parses to "skip" changes neither the outcome nor the result |
| Lines.CommaToDot | server/src/services/import_treasury_bonds_prices.rs:88 | every comma becomes a dot and nothing else changes, as `replace(",", ".")` does; also routes/import_treasury_prices.rs:57 |
| Lines.KeptOrigins | server/src/routes/import_treasury_prices.rs:72-76 | every kept value comes from some line; no more values than lines |
| PortfolioAmounts.DateSeries | server/src/services/get_portfolio_amounts.rs:88-101 | consecutive days from `first`, up to `last`; exactly one day (`first`) when `last` is earlier, since the loop pushes before testing |
| PortfolioAmounts.SortedAssetIds | server/src/services/get_portfolio_amounts.rs:34-40 | strictly ascending, holds every traded asset id and only those |
| PortfolioAmounts.Window | server/src/services/get_portfolio_amounts.rs:42-51 | definition; its properties are proved in PortfolioAmounts.WindowMembers, WindowSorted and WindowIgnoresOutside |
| PortfolioAmounts.WindowMembers | server/src/services/get_portfolio_amounts.rs:42-51 | a price row is loaded iff it is in the table, its asset is traded and its date is a day of the series |
| PortfolioAmounts.WindowSorted | server/src/services/get_portfolio_amounts.rs:50 | the loaded rows keep the order by asset then descending date |
| PortfolioAmounts.WindowIgnoresOutside | server/src/services/get_portfolio_amounts.rs:48-49 | a table row of another asset or outside the series' days does not change the loaded rows |
| PortfolioAmounts.AsOf | server/src/services/get_portfolio_amounts.rs:61-67 | definition; its properties are proved in PortfolioAmounts.AsOfIsLatest |
| PortfolioAmounts.AsOfIsLatest | server/src/services/get_portfolio_amounts.rs:61-67 | on rows by asset then descending date, the first row of the asset dated on or before the day is the latest such row; zero when there is none |
| PortfolioAmounts.Regroup | server/src/services/get_portfolio_amounts.rs:60-75 | summing per asset over the distinct traded ids equals summing over all trades |
| PortfolioAmounts.WorthOfAsset | server/src/services/get_portfolio_amounts.rs:69-74 | an asset's contribution to the gross total is its price that day times the net quantity traded on or before that day |
| PortfolioAmounts.GrossTotalByAsset | server/src/services/get_portfolio_amounts.rs:60-75 | the gross total is the sum over traded assets of price × quantity held |
| PortfolioAmounts.InvestedMonotone | server/src/services/get_portfolio_amounts.rs:69-75 | with no negative trade amounts, the invested total never decreases from one day to a later one |
| PortfolioAmounts.InvestedOnceAllTraded | server/src/services/get_portfolio_amounts.rs:69-75 | on a day after every trade, invested is the sum of all trade amounts |
| PortfolioAmounts.DayAmount | server/src/services/get_portfolio_amounts.rs:57-82 | the row computed by the per-asset loop is (gross total, invested, day) for that day |
| PortfolioAmounts.Run | server/src/services/get_portfolio_amounts.rs:12-86 | a failed query is returned; no trades gives an empty series; otherwise the series of every day from the first trade to today |
| PortfolioAmounts.SeriesLength | server/src/services/get_portfolio_amounts.rs:29-30 | the series has today − first + 1 rows, or one row dated on the first trade's day when today is earlier |
| PortfolioAmounts.LastRowInvestedAll | server/src/services/get_portfolio_amounts.rs:56-83 | when every trade is dated on or before today, the last row is today's and its invested total is the sum of all trade amounts |
| PortfolioAmounts.SeriesGrossByAsset | server/src/services/get_portfolio_amounts.rs:56-83 | each row's gross total is the value of the holdings on its day at the loaded prices |
| PortfolioAmounts.SeriesPriceIsLatest | server/src/services/get_portfolio_amounts.rs:42-67 | the price used for an asset on a day is its latest table row dated between the first trade's day and that day, or 0 when there is none |
| Positions.OnOrBefore | server/src/models/positions.rs:27-32 | definition; its properties are proved in Positions.OnOrBeforeKeeps |
| Positions.OnOrBeforeKeeps | server/src/models/positions.rs:27-32 | the date filter keeps exactly the trades on or before the day and keeps their asset order |
| Positions.GroupByAsset | server/src/models/positions.rs:34-40 | one entry per distinct asset id, ascending, each with the sum of that asset's quantities |
| Positions.Holdings | server/src/models/positions.rs:27-40 | the held assets are those traded on or before the day, each with its net quantity as of that day |
| Positions.HeldAssetsExactly | server/src/models/positions.rs:27-40 | the held assets are strictly ascending, and an asset is held iff some trade of it is dated on or before the day |
| Positions.LaterTradeIgnored | server/src/models/positions.rs:30 | a trade dated after the day changes neither the held assets nor any net quantity |
| Positions.Valuate | server/src/models/positions.rs:45-66 | each position is (variant, price, net quantity, price × quantity), in asset order, and the total is the sum of the amounts |
| Positions.Position | server/src/models/positions.rs:22-67 | a failed query, price lookup or variant lookup is returned in that order; otherwise the position of the held assets |
| Positions.PositionVariants | server/src/models/positions.rs:42-61 | one asset position per held asset, carrying that asset's variant, in strictly ascending id order |
| Transactions.AssetIdsOf | server/src/services/get_transactions.rs:29-35 | the asset id of every trade, in order, duplicates kept |
| Transactions.Zip | server/src/services/get_transactions.rs:37-47 | pairs trades and variants up to the shorter list; each amount is price × quantity |
| Transactions.Run | server/src/services/get_transactions.rs:17-48 | a failed query or variant lookup is returned; otherwise the trades zipped with their variants |
| Transactions.RunIsOnePerTrade | server/src/services/get_transactions.rs:17-48 | when the lookup returns one variant per id in order, there is exactly one transaction per trade, of that trade's asset, date, price and quantity |
| Transactions.RunKeepsOrder | server/src/services/get_transactions.rs:26 | transactions come newest first |
| Storage.Rollback | server/src/models/prices.rs:44 | definition; its properties are proved in Storage.RollbackKeepsConsistent |
| Storage.RollbackKeepsConsistent | server/src/models/prices.rs:44-48 | rolling back to a consistent state keeps it consistent, the counters having only moved forward |
| Storage.Database.Restore | server/src/models/trades.rs:41 | every table is put back as saved; the serial counters keep their current values |
| Assets.FindTreasury | server/src/models/assets.rs:50-53 | none iff no row has the maturity; otherwise the id of the first row with it |
| Assets.FindEtf | server/src/models/assets.rs:74-77 | none iff no row has the ticker; otherwise the id of the first row with it |
| Assets.TreasuryRegistered | server/src/models/assets.rs:49-71 | definition; its properties are proved in Assets.TreasuryRegisteredFindsOrCreates, TreasuryRegisteredIdempotent and TreasuryRegisteredKeepsConsistent |
| Assets.EtfRegistered | server/src/models/assets.rs:73-95 | definition; its properties are proved in Assets.EtfRegisteredFindsOrCreates, EtfRegisteredIdempotent and EtfRegisteredKeepsConsistent |
| Assets.TreasuryRegisteredFindsOrCreates | server/src/models/assets.rs:49-71 | an existing treasury is returned and nothing changes; otherwise a fresh id gets a "treasury" asset row and a treasury row, and nothing else changes; either way the id is then the one found for the maturity |
| Assets.EtfRegisteredFindsOrCreates | server/src/models/assets.rs:73-95 | the same for an ETF by ticker, with an "etf" asset row |
| Assets.TreasuryRegisteredIdempotent | server/src/models/assets.rs:49-71 | registering the same maturity again returns the same id and changes nothing |
| Assets.EtfRegisteredIdempotent | server/src/models/assets.rs:73-95 | registering the same ticker again returns the same id and changes nothing |
| Assets.TreasuryRegisteredKeepsConsistent | server/src/models/assets.rs:59-68 | the registry stays consistent: ids below the counter, each treasury backed by a "treasury" asset row, one treasury per maturity |
| Assets.EtfRegisteredKeepsConsistent | server/src/models/assets.rs:83-92 | the same for ETFs: one ETF per ticker, each backed by an "etf" asset row |
| Assets.RegisterTreasuryAsset | server/src/models/assets.rs:49-71 | the method's new state and returned id are those of the registration function; the registry stays consistent |
| Assets.RegisterEtfAsset | server/src/models/assets.rs:73-95 | the same for ETFs |
| Prices.NewRows | server/src/models/prices.rs:23-30 | one price row per (date, price) pair, in order, all for the asset |
| Prices.PricesReplaced | server/src/models/prices.rs:15-37 | definition; its properties are proved in Prices.PricesReplacedExactly, PricesReplacedKeepsConsistent and PricesReplacedIdempotent |
| Prices.PricesReplacedExactly | server/src/models/prices.rs:15-37 | afterwards the asset's price rows are exactly the new ones, every other asset keeps its rows, and no other table changes |
| Prices.PricesReplacedKeepsConsistent | server/src/models/prices.rs:15-37 | replacing an asset's prices keeps the registry consistent |
| Prices.PricesReplacedIdempotent | server/src/models/prices.rs:15-37 | replacing the same prices twice gives the state of replacing them once |
| Prices.ReplaceAssetPrices | server/src/models/prices.rs:15-37 | delete then insert: the new state is the replacement of the asset's rows |
| Prices.TreasuryPricesRegistered | server/src/models/prices.rs:39-49 | definition; its properties are proved in Prices.TreasuryPricesEffect and TreasuryPricesIdempotent |
| Prices.EtfPricesRegistered | server/src/models/prices.rs:51-61 | definition; its properties are proved in Prices.EtfPricesEffect and EtfPricesIdempotent |
| Prices.TreasuryPricesEffect | server/src/models/prices.rs:39-49 | on success the maturity has its treasury and that treasury's prices are exactly the new ones, other assets unchanged; on failure every table is as before except the asset counter; consistency kept |
| Prices.EtfPricesEffect | server/src/models/prices.rs:51-61 | the same for an ETF by ticker |
| Prices.TreasuryPricesIdempotent | server/src/models/prices.rs:39-49 | registering the same treasury prices twice leaves the state of registering them once |
| Prices.EtfPricesIdempotent | server/src/models/prices.rs:51-61 | registering the same ETF prices twice leaves the state of registering them once |
| Prices.RegisterTreasuryPrices | server/src/models/prices.rs:39-49 | the method's new state and result are those of the registration function; consistency kept |
| Prices.RegisterEtfPrices | server/src/models/prices.rs:51-61 | the method's new state and result are those of the registration function; consistency kept |
| Trades.FindBond | server/src/models/trades.rs:73-76 | none iff no "LFT" bond row has the maturity; otherwise the id of an "LFT" row with it |
| Trades.Found | server/src/models/trades.rs:53-55 | `.first()` on a query that itself succeeds: the row's id when there is one, otherwise NotFound |
| Trades.RowsOf | server/src/models/trades.rs:57-65 | one trade row per trade of the group, in the portfolio, for the group's asset, with the trade's date, quantity and price |
| Trades.GroupRows | server/src/models/trades.rs:48-66 | definition; its properties are proved in Trades.GroupRowsIsResolved, GroupRowsMatchesResolved and GroupRowsShape |
| Trades.NewTradeRows | server/src/models/trades.rs:46-87 | definition; its properties are proved in Trades.RegisterTradesOutcome |
| Trades.TradesRegistered | server/src/models/trades.rs:36-95 | definition; its properties are proved in Trades.RegisterTradesEffect, RegisterTradesKeepsConsistent, RegisterTradesOutcome and UnknownAssetPersistsNothing |
| Trades.GroupRowsIsResolved | server/src/models/trades.rs:48-66 | the rows are built iff every group key's lookup succeeds, else the error of the first key whose lookup fails; the rows are those of the trades taken group by group in key order, input order kept within a group |
| Trades.GroupRowsMatchesResolved | server/src/models/trades.rs:48-66 | grouping succeeds iff every trade's lookup succeeds; the rows are a permutation of the trades' rows in input order |
| Trades.GroupRowsErrorIsLookup | server/src/models/trades.rs:53-55 | a failed grouping returns the error of some trade's own lookup (`.first()?`) |
| Trades.GroupRowsShape | server/src/models/trades.rs:57-65 | one row per trade, all in the new portfolio |
| Trades.ResolvedPermutation | server/src/models/trades.rs:48-51 | reordering the trades reorders their rows and nothing more |
| Trades.RegisterTradesEffect | server/src/models/trades.rs:36-95 | a failed portfolio insert changes nothing and returns its error; otherwise the portfolio counter moves by one; on failure nothing else changes; on success the fresh id is a new portfolio with one new trade row per trade, all in it, old rows and other tables unchanged |
| Trades.RegisterTradesKeepsConsistent | server/src/models/trades.rs:36-95 | the registry stays consistent, so every trade is in an existing portfolio; the new id is not an existing portfolio |
| Trades.RegisterTradesOutcome | server/src/models/trades.rs:36-95 | succeeds iff no query the storage engine reaches fails and every ticker and LFT maturity is known; with no storage failure before the bulk insert, an unknown one gives NotFound; any error is NotFound or the storage engine's; the new rows are a permutation of the trades' rows |
| Trades.UnknownAssetPersistsNothing | server/src/models/trades.rs:53-55 | one trade of an unknown ETF or bond fails the whole registration, with NotFound unless the storage engine failed earlier, and at most the portfolio counter moves |
| Trades.CollectGroups | server/src/models/trades.rs:48-66 | the loop over groups returns the grouped rows, stopping at the first lookup that fails |
| Trades.PushGroup | server/src/models/trades.rs:57-65 | appends one row per trade of the group |
| Trades.CollectRows | server/src/models/trades.rs:46-87 | the ETF rows followed by the bond rows, or the first lookup error |
| Trades.RegisterTrades | server/src/models/trades.rs:36-95 | the method's new state and result are those of the registration function; consistency kept |
| ImportTrades.ParseLine | server/src/services/import_trades.rs:37-71 | a line parses iff it reads, its date, price and quantity parse, and it is an "ETF" or a "Tesouro" with a valid maturity; the values; each error message in the order of the checks |
| ImportTrades.Parse | server/src/services/import_trades.rs:31-79 | definition; its properties are proved in Lines.ParseSplitOutcome and Lines.ParseSplitFirstError |
| Lines.ParseSplitOutcome | server/src/services/import_trades.rs:31-79 | a parse into two lists succeeds iff there is a line and every line parses; then each line lands in exactly one list, in input order; no lines is the "no trades" error (the same loop is in web/routes/import_trades.rs:32-85) |
| Lines.ParseSplitFirstError | server/src/services/import_trades.rs:37-72 | the error is the first bad line's message, whatever follows it (likewise web/routes/import_trades.rs:38-78) |
| ImportTrades.ParseLines | server/src/services/import_trades.rs:31-79 | the loop returns the parse |
| ImportTrades.Run | server/src/services/import_trades.rs:81-87 | a parse error is a Parsing error; otherwise the registration's id or its error as a Writing error |
| ImportTrades.RunNeverWritesBadInput | server/src/services/import_trades.rs:81-87 | on a parse error the registration is never consulted |
| ImportTradesRoute.ParseLine | server/src/web/routes/import_trades.rs:38-77 | a line parses iff it reads, its date, price and quantity parse, and it is an "ETF" of an accepted ticker or an "LFT" with a valid maturity; the values; each fixed error message |
| ImportTradesRoute.Parse | server/src/web/routes/import_trades.rs:32-85 | definition; its properties are proved in Lines.ParseSplitOutcome, Lines.ParseSplitFirstError and ImportTradesRoute.ParsedTickersAccepted |
| ImportTradesRoute.ParsedTickersAccepted | server/src/web/routes/import_trades.rs:68-75 | every parsed ETF trade is of BOVA11, SMAL11 or IVVB11 |
| ImportTradesRoute.ParseLines | server/src/web/routes/import_trades.rs:32-85 | the loop returns the parse |
| ImportTradesRoute.Write | server/src/web/routes/import_trades.rs:87-89 | the trades are registered; any registration error becomes "writing trades failed" |
| ImportTradesRoute.Import | server/src/web/routes/import_trades.rs:100 | a parse error is returned and nothing is written; otherwise the registration's state and outcome |
| TreasuryBondPrices.KeyOf | server/src/services/import_treasury_bonds_prices.rs:73-86 | a key exactly for the six title names, each mapped to its own key |
| TreasuryBondPrices.ParseLine | server/src/services/import_treasury_bonds_prices.rs:65-102 | an unpriced line is skipped; otherwise the line parses iff its title is known and its price, date and maturity parse; the values; each error message in the order of the checks |
| TreasuryBondPrices.Parse | server/src/services/import_treasury_bonds_prices.rs:58-106 | definition; its properties are proved in Lines.ParseKeptOutcome and TreasuryBondPrices.SkippedLineIgnored |
| Lines.ParseKeptOutcome | server/src/services/import_treasury_bonds_prices.rs:58-106 | a parse that skips some lines succeeds iff every line parses; the result is the kept values in input order, each from some line (the same loop is in routes/import_treasury_prices.rs:39-80) |
| TreasuryBondPrices.SkippedLineIgnored | server/src/services/import_treasury_bonds_prices.rs:69-71 | an unpriced line anywhere changes neither the outcome nor the result |
| TreasuryBondPrices.ParseLines | server/src/services/import_treasury_bonds_prices.rs:58-106 | the loop returns the parse |
| TreasuryBondPrices.GroupKeys | server/src/services/import_treasury_bonds_prices.rs:112-115 | definition; its properties are proved in TreasuryBondPrices.WriteOneResultPerPair and Keys.SortedKeysMembers |
| TreasuryBondPrices.Write | server/src/services/import_treasury_bonds_prices.rs:108-124 | definition; its properties are proved in TreasuryBondPrices.WriteOneResultPerPair, WriteEachGroupRegistered and WriteFailureIsolated |
| TreasuryBondPrices.WriteGroups | server/src/services/import_treasury_bonds_prices.rs:112-123 | one result per group key |
| TreasuryBondPrices.WriteGroupsAt | server/src/services/import_treasury_bonds_prices.rs:117-122 | each result is the key with the registration of that group's (date, price) pairs |
| TreasuryBondPrices.WriteOneResultPerPair | server/src/services/import_treasury_bonds_prices.rs:108-124 | results are in ascending (key, maturity) order, one per distinct pair of the lines, and no other |
| TreasuryBondPrices.WriteEachGroupRegistered | server/src/services/import_treasury_bonds_prices.rs:117-122 | each result is the registration of exactly the lines of its pair |
| TreasuryBondPrices.WriteGroupsPartition | server/src/services/import_treasury_bonds_prices.rs:112-115 | the groups together are a permutation of the lines, and each group holds only lines of its pair |
| TreasuryBondPrices.WriteFailureIsolated | server/src/services/import_treasury_bonds_prices.rs:117-123 | a group's result depends only on its own registration; one failing does not affect the others |
| TreasuryBondPrices.Run | server/src/services/import_treasury_bonds_prices.rs:126-133 | a download error is returned; a parse error is a Parsing error; otherwise the per-group results |
| TreasuryPricesRoute.ParseLine | server/src/routes/import_treasury_prices.rs:46-76 | a non-Selic or unpriced line is skipped; otherwise it parses iff its price, date and maturity do; the values; each fixed error message |
| TreasuryPricesRoute.Parse | server/src/routes/import_treasury_prices.rs:39-80 | definition; its properties are proved in Lines.ParseKeptOutcome and TreasuryPricesRoute.SkippedLineIgnored |
| TreasuryPricesRoute.SkippedLineIgnored | server/src/routes/import_treasury_prices.rs:53-55 | a skipped line anywhere changes neither the outcome nor the result |
| TreasuryPricesRoute.ParseLines | server/src/routes/import_treasury_prices.rs:39-80 | the loop returns the parse |
| TreasuryPricesRoute.Groups | server/src/routes/import_treasury_prices.rs:83-88 | definition; its properties are proved in TreasuryPricesRoute.GroupsAscending, GroupsCoverMaturities and GroupsPartition |
| TreasuryPricesRoute.GroupsAscending | server/src/routes/import_treasury_prices.rs:83-86 | groups come in strictly ascending maturity order |
| TreasuryPricesRoute.GroupsCoverMaturities | server/src/routes/import_treasury_prices.rs:83-86 | one group per maturity of the prices, and no other |
| TreasuryPricesRoute.GroupsPartition | server/src/routes/import_treasury_prices.rs:83-88 | the groups together are a permutation of the prices, and each group holds only prices of its maturity |
| TreasuryPricesRoute.Written | server/src/routes/import_treasury_prices.rs:82-97 | definition; its properties are proved in TreasuryPricesRoute.WrittenOk, WrittenStopsAtFirstFailure and WrittenRegistersEveryMaturity |
| TreasuryPricesRoute.WrittenOk | server/src/routes/import_treasury_prices.rs:82-97 | the write succeeds iff no group's registration fails; any failure is "writing failed" |
| TreasuryPricesRoute.WrittenStopsAtFirstFailure | server/src/routes/import_treasury_prices.rs:91-93 | the first failing group ends the write: no later group is written, and the tables are as before that group except the asset counter |
| TreasuryPricesRoute.RegisteredKeepsTreasuries | server/src/models/prices.rs:39-49 | a successful registration keeps every treasury and adds the one for its maturity |
| TreasuryPricesRoute.WrittenRegistersEveryMaturity | server/src/routes/import_treasury_prices.rs:82-97 | after a successful write every maturity imported has its treasury |
| TreasuryPricesRoute.Write | server/src/routes/import_treasury_prices.rs:82-97 | the loop's new state and result are those of writing the groups in order; consistency kept |
| TreasuryPricesRoute.Import | server/src/routes/import_treasury_prices.rs:99-111 | a download or parse error is returned and nothing is written; otherwise the write's state and result |
| Cookies.Cookie.constructor | server/src/web/cookies.rs:9 | a cookie with this name and value and no attributes |
| Cookies.Cookie.SetSameSite | server/src/web/cookies.rs:10 | sets SameSite and nothing else |
| Cookies.Cookie.SetDomain | server/src/web/cookies.rs:11 | sets the domain and nothing else |
| Cookies.Cookie.SetHttpOnly | server/src/web/cookies.rs:12 | sets HttpOnly and nothing else |
| Cookies.Cookie.MakePermanent | server/src/web/cookies.rs:13 | makes the cookie permanent and nothing else |
| Cookies.PortfolioIdCookie | server/src/web/cookies.rs:8-15 | a new "portfolio-id" cookie holding the id in decimal, SameSite Strict, domain portifolio.lsunsi.com, HttpOnly, permanent; its `name=value` pair is the one the round-trip lemmas read back |
| Cookies.DigitsOf | server/src/web/cookies.rs:9 | decimal digits, at least one, no leading zero |
| Cookies.ValueOfDigitsOf | server/src/web/cookies.rs:9 | reading back the decimal digits of n gives n |
| Cookies.FormatInt | server/src/web/cookies.rs:9 | a non-empty string of digits with an optional leading minus |
| Cookies.ParseI32 | server/src/web/cookies.rs:30 | a parsed value is in the i32 range and comes from an optional sign followed by digits |
| Cookies.ParseFormatRoundTrip | server/src/web/cookies.rs:9 | every i32 written by `to_string` parses back to itself |
| Cookies.Split | server/src/web/cookies.rs:26 | at least one piece and no piece contains the separator |
| Cookies.JoinSplit | server/src/web/cookies.rs:26 | joining the pieces with the separator gives back the header |
| Cookies.SplitJoin | server/src/web/cookies.rs:26 | splitting a join of separator-free pieces gives back the pieces |
| Cookies.FindPortfolioId | server/src/web/cookies.rs:26-35 | definition; its properties are proved in Cookies.FindFirstMatch, FindBadSegment and FindOkHasMatch |
| Cookies.FindFirstMatch | server/src/web/cookies.rs:26-33 | the scan answers from the first segment named portfolio-id: its value as an i32, or an error |
| Cookies.FindBadSegment | server/src/web/cookies.rs:27 | a segment that does not parse before any match fails the whole scan |
| Cookies.FindOkHasMatch | server/src/web/cookies.rs:26-33 | a successful scan found its id in the first portfolio-id segment |
| Cookies.TryFrom | server/src/web/cookies.rs:22-36 | no header or a header that is not visible ASCII is an error; a success is the value of the first portfolio-id segment and lies in the i32 range |
| Cookies.TryFromScans | server/src/web/cookies.rs:22-36 | on a visible-ASCII header the result is the scan of its `;`-separated segments |
| Cookies.PairIsOneSegment | server/src/web/cookies.rs:8-15 | the written `portfolio-id=<id>` pair holds no `;` and is visible ASCII |
| Cookies.CookieRoundTrip | server/src/web/cookies.rs:8-36 | a header holding just the written pair reads back the same id |
| Cookies.CookieRoundTripAmongOthers | server/src/web/cookies.rs:8-36 | the written pair reads back the same id when preceded by other well-formed cookies of other names and followed by any segments, as long as the header is visible ASCII |

## Left out

- HTTP: fetching the CSVs (`fetch`), the status check, the 16 MiB payload limit, request bodies and response shaping are not modelled. The download's outcome is an input `Result`.
- SQL and Diesel: read queries are inputs and their `ORDER BY` clauses preconditions. Writes are methods on `Storage.Database`. Transaction mechanics are reduced to `Storage.Rollback`.
- Parsing collaborators: the CSV reader, `NaiveDate::parse_from_str`, `BigDecimal::from_str`, `str::replace` apart from `Lines.CommaToDot`, and `Cookie::parse` are parameters. The model does not fix their formats, so only their success or failure and their values matter.
- Code that is not shown: `latest_prices`, `retrieve_assetables` and `register_treasury_bond_prices` are not part of this model. They are parameters with the contract the callers rely on (`Common.OnePerId`, `Common.InIdOrder`, `Positions.PricesPerId`). The services' treasury-bond registration is a stateless function of its arguments.
- Registration in the trade-import service: `services/import_trades.rs` calls a `register_trades` that takes trade structs with a treasury key. That is not the one in `models/trades.rs`, so the service's registration is a parameter. The web route uses `Trades.RegisterTrades`.
- Arithmetic: `BigDecimal` is exact, like `real`. Rounding and floating point are not modelled.
- Dates: dates are day numbers, and `Duration::days(1)` is `+ 1`.
- Serial ids: `i32` serial overflow of the id counters is not modelled.
- Trades.TradesRegistered: a failure of the `portfolios` insert (`Trades.AtPortfolioInsert`) leaves the portfolio counter where it was. PostgreSQL may already have drawn the serial when the insert fails, and the model does not capture that case.
- ETF price imports: `services/import_etfs_prices.rs` and `routes/import_etf_prices.rs` are not part of this model. They scrape HTML and then call the price registration that `Prices.RegisterEtfPrices` models.
- Other left-out behaviour: `println!` in `routes/import_treasury_prices.rs`, the client, `FromRequest` and the other context routes.
- Assets.RegisterTreasuryAsset: does not model a failure of any of its queries, neither the select nor either insert. Those failures only happen inside a transaction that rolls back, and the callers' `failure` parameter stands for them.
- Assets.RegisterEtfAsset: does not model a failure of any of its queries either; its callers' transaction stands for them, as for Assets.RegisterTreasuryAsset.
- Bond table: `models/trades.rs` looks LFT bonds up in a table with `key` and `maturity` columns (`treasury_bonds`), but the schema in `server/src/schema.rs` has no such table. Nothing in the modelled code writes to it, so its rows are an input (`Storage.Database.constructor`).
- Per-maturity prices: there is no lemma that the final prices of each maturity are exactly its group's, because that needs treasury ids to be distinct across rows, which `Storage.Consistent` does not state. `Prices.TreasuryPricesEffect` gives the single-registration version.
- String order: Rust orders `str` by bytes, while `Keys.StringLess` compares characters. The two agree on the ASCII titles and tickers involved.
- The model keeps these behaviours of the code, which a reader might not expect:
  - The price query of `get_portfolio_amounts` only loads rows dated on a day of the series (`date IN dates`). So a price recorded before the first trade is never used. `PortfolioAmounts.SeriesPriceIsLatest` states this.
  - A trade's own price is not a price observation. Without a price row, the gross total of an asset is 0 even on the day it was bought.
  - `date_series` always emits the first trade's day, even when today is earlier.
  - The service import accepts any ETF ticker. Only the web route restricts them to three.
  - The service reads the price from a column named `PreÃ§o`, which is "Preço" mis-decoded, while the web route reads `Preço`. The CSV reader is a parameter, so the model does not depend on the header.
