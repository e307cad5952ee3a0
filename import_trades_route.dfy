/**
 * The trade import endpoint (`web::routes::import_trades`): a CSV of trades
 * (columns Data, Preço, Quantidade, TipoAtivo, DadoAtivo) is split into LFT
 * treasury trades and ETF trades of three accepted tickers, then written with
 * the trade registration.
 *
 * `parseDate` stands for `NaiveDate::parse_from_str` with the format
 * "%Y-%m-%d" and `parseDecimal` for `BigDecimal::from_str`; only whether
 * they succeed matters here, since every error message is fixed.
 */
module ImportTradesRoute {
  import opened Common
  import opened Lines
  import opened Storage
  import Trades

  /** A deserialised CSV line. */
  datatype Line = Line(date: string, price: string, quantity: string, assetKind: string, assetProp: string)

  /** The only tickers the endpoint accepts. */
  const Tickers: seq<string> := ["BOVA11", "SMAL11", "IVVB11"]

  const NoTrades: string := "there were no trades"

  const WritingFailed: string := "writing trades failed"

  /**
   * One line, checked in the order of the source. "LFT" is a treasury trade
   * maturing at DadoAtivo; "ETF" is an ETF trade of ticker DadoAtivo, which
   * must be one of `Tickers`; any other kind is an error.
   */
  function ParseLine(line: Result<Line, string>, parseDate: string -> Result<Date, string>, parseDecimal: string -> Result<Decimal, string>)
    : (r: Result<Classified<Trades.EtfTrade, Trades.BondTrade>, string>)
    ensures r.Ok? <==>
      && line.Ok?
      && parseDate(line.value.date).Ok? && parseDecimal(line.value.price).Ok? && parseDecimal(line.value.quantity).Ok?
      && ((line.value.assetKind == "ETF" && line.value.assetProp in Tickers)
          || (line.value.assetKind == "LFT" && parseDate(line.value.assetProp).Ok?))
    ensures r.Ok? && line.value.assetKind == "ETF" ==>
      r.value == First(Trades.KeyedTrade(line.value.assetProp, parseDate(line.value.date).value,
                                         parseDecimal(line.value.price).value, parseDecimal(line.value.quantity).value))
    ensures r.Ok? && line.value.assetKind == "LFT" ==>
      r.value == Second(Trades.KeyedTrade(parseDate(line.value.assetProp).value, parseDate(line.value.date).value,
                                          parseDecimal(line.value.price).value, parseDecimal(line.value.quantity).value))
    ensures line.Err? ==> r == Err("some line is bad")
    ensures line.Ok? ==>
      var l := line.value;
      && (parseDate(l.date).Err? ==> r == Err("some line's date is bad"))
      && (parseDate(l.date).Ok? && parseDecimal(l.price).Err? ==> r == Err("some line's price is bad"))
      && (parseDate(l.date).Ok? && parseDecimal(l.price).Ok? && parseDecimal(l.quantity).Err? ==>
            r == Err("some line's quantity is bad"))
      && (parseDate(l.date).Ok? && parseDecimal(l.price).Ok? && parseDecimal(l.quantity).Ok? ==>
            && (l.assetKind == "LFT" && parseDate(l.assetProp).Err? ==> r == Err("some line's treasury asset prop is bad"))
            && (l.assetKind == "ETF" && l.assetProp !in Tickers ==> r == Err("some line's etf asset prop is bad"))
            && (l.assetKind != "ETF" && l.assetKind != "LFT" ==> r == Err("some line's asset kind is bad")))
  {
    match line
    case Err(_) => Err("some line is bad")
    case Ok(l) =>
      match parseDate(l.date)
      case Err(_) => Err("some line's date is bad")
      case Ok(date) =>
        match parseDecimal(l.price)
        case Err(_) => Err("some line's price is bad")
        case Ok(price) =>
          match parseDecimal(l.quantity)
          case Err(_) => Err("some line's quantity is bad")
          case Ok(quantity) =>
            if l.assetKind == "LFT" then
              match parseDate(l.assetProp)
              case Err(_) => Err("some line's treasury asset prop is bad")
              case Ok(maturity) => Ok(Second(Trades.KeyedTrade(maturity, date, price, quantity)))
            else if l.assetKind == "ETF" then
              if l.assetProp in Tickers then Ok(First(Trades.KeyedTrade(l.assetProp, date, price, quantity)))
              else Err("some line's etf asset prop is bad")
            else
              Err("some line's asset kind is bad")
  }

  function LineParser(parseDate: string -> Result<Date, string>, parseDecimal: string -> Result<Decimal, string>)
    : Result<Line, string> -> Result<Classified<Trades.EtfTrade, Trades.BondTrade>, string>
  {
    line => ParseLine(line, parseDate, parseDecimal)
  }

  /**
   * `parse`: both lists, or the first bad line's message, or the error of an
   * import with no trades (`Lines.ParseSplitOutcome`, `Lines.ParseSplitFirstError`).
   */
  function Parse(lines: seq<Result<Line, string>>, parseDate: string -> Result<Date, string>, parseDecimal: string -> Result<Decimal, string>)
    : Result<(seq<Trades.EtfTrade>, seq<Trades.BondTrade>), string>
  {
    ParseSplit(lines, LineParser(parseDate, parseDecimal), NoTrades)
  }

  /** Only the accepted tickers get through: every parsed ETF trade is of one of `Tickers`. */
  lemma ParsedTickersAccepted(lines: seq<Result<Line, string>>, parseDate: string -> Result<Date, string>, parseDecimal: string -> Result<Decimal, string>)
    requires Parse(lines, parseDate, parseDecimal).Ok?
    ensures forall k :: 0 <= k < |Parse(lines, parseDate, parseDecimal).value.0| ==>
      Parse(lines, parseDate, parseDecimal).value.0[k].key in Tickers
  {
    var parser := LineParser(parseDate, parseDecimal);
    ParseEachOk(lines, parser);
    var cs := ParseEach(lines, parser).value;
    ClassifiedOrigins(cs);
    forall k | 0 <= k < |Firsts(cs)| ensures Firsts(cs)[k].key in Tickers {
      var i :| 0 <= i < |cs| && cs[i] == First(Firsts(cs)[k]);
      assert ParseLine(lines[i], parseDate, parseDecimal).Ok?;
    }
  }

  /** `parse`: the loop over the lines, pushing into the two lists and returning at the first bad line. */
  method ParseLines(lines: seq<Result<Line, string>>, parseDate: string -> Result<Date, string>, parseDecimal: string -> Result<Decimal, string>)
    returns (r: Result<(seq<Trades.EtfTrade>, seq<Trades.BondTrade>), string>)
    ensures r == Parse(lines, parseDate, parseDecimal)
  {
    var parser := LineParser(parseDate, parseDecimal);
    var etfTrades: seq<Trades.EtfTrade> := [];
    var treasuryTrades: seq<Trades.BondTrade> := [];
    ghost var cs: seq<Classified<Trades.EtfTrade, Trades.BondTrade>> := [];
    for i := 0 to |lines|
      invariant ParseEach(lines[..i], parser) == Ok(cs)
      invariant etfTrades == Firsts(cs) && treasuryTrades == Seconds(cs)
    {
      ParseEachStep(lines, parser, i);
      var parsed := ParseLine(lines[i], parseDate, parseDecimal);
      if parsed.Err? {
        ParseEachErrorSticks(lines, parser, i + 1);
        return Err(parsed.error);
      }
      match parsed.value {
        case First(trade) => etfTrades := etfTrades + [trade];
        case Second(trade) => treasuryTrades := treasuryTrades + [trade];
      }
      assert (cs + [parsed.value])[..|cs|] == cs;
      cs := cs + [parsed.value];
    }
    assert lines[..|lines|] == lines;
    if |etfTrades| + |treasuryTrades| == 0 {
      return Err(NoTrades);
    }
    return Ok((etfTrades, treasuryTrades));
  }

  /** `write`: the trade registration, with any of its errors reported as one fixed message. */
  method Write(db: Database, etfTrades: seq<Trades.EtfTrade>, treasuryTrades: seq<Trades.BondTrade>, failure: Trades.Failure)
    returns (r: Result<PortfolioId, string>)
    modifies db
    requires db.Valid()
    ensures db.Valid()
    ensures var (t, registered) := Trades.TradesRegistered(old(db.State()), etfTrades, treasuryTrades, failure);
      && db.State() == t
      && r == if registered.Ok? then Ok(registered.value) else Err(WritingFailed)
  {
    var registered := Trades.RegisterTrades(db, etfTrades, treasuryTrades, failure);
    if registered.Err? {
      return Err(WritingFailed);
    }
    return Ok(registered.value);
  }

  /**
   * The endpoint's `parse(..).and_then(write)`: a parsing error is returned
   * and nothing is written; otherwise the trades are registered.
   */
  method Import(db: Database, lines: seq<Result<Line, string>>, parseDate: string -> Result<Date, string>,
                parseDecimal: string -> Result<Decimal, string>, failure: Trades.Failure)
    returns (r: Result<PortfolioId, string>)
    modifies db
    requires db.Valid()
    ensures db.Valid()
    ensures Parse(lines, parseDate, parseDecimal).Err? ==>
      r == Err(Parse(lines, parseDate, parseDecimal).error) && db.State() == old(db.State())
    ensures Parse(lines, parseDate, parseDecimal).Ok? ==>
      var (etfTrades, treasuryTrades) := Parse(lines, parseDate, parseDecimal).value;
      var (t, registered) := Trades.TradesRegistered(old(db.State()), etfTrades, treasuryTrades, failure);
      && db.State() == t
      && r == if registered.Ok? then Ok(registered.value) else Err(WritingFailed)
  {
    var parsed := ParseLines(lines, parseDate, parseDecimal);
    if parsed.Err? {
      return Err(parsed.error);
    }
    r := Write(db, parsed.value.0, parsed.value.1, failure);
  }
}
