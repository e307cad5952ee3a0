/**
 * The trade import service (`services::import_trades`): a CSV of trades
 * (columns Data, PreÃ§o, Quantidade, TipoAtivo, DadoAtivo1, DadoAtivo2) is
 * split into ETF trades and treasury bond trades, then handed to the trade
 * registration. The price column's name is "Preço" written in UTF-8 and read
 * back as Latin-1, so the service only reads a file whose header is spelled
 * that way; the CSV reader is a parameter, so the model does not depend on it.
 *
 * `parseDate` stands for `NaiveDate::parse_from_str` with the format
 * "%d/%m/%Y" and `parseDecimal` for `BigDecimal::from_str`; both give a value
 * or their error message. The registration this version of the service calls
 * takes the trades with their treasury key and is a parameter here.
 */
module ImportTrades {
  import opened Common
  import opened Lines

  /** A deserialised CSV line. */
  datatype Line = Line(date: string, price: string, quantity: string, assetKind: string, assetProp1: string, assetProp2: string)

  datatype EtfTrade = EtfTrade(ticker: string, date: Date, price: Decimal, quantity: Decimal)

  datatype BondTrade = BondTrade(key: string, maturity: Date, date: Date, price: Decimal, quantity: Decimal)

  datatype Error = Writing(writing: DbError) | Parsing(parsing: string)

  const NoTrades: string := "There were no trades to import"

  /**
   * One line, checked in the order of the source: the line itself, its date,
   * price and quantity, then its kind. "Tesouro" is a treasury bond trade
   * keyed by DadoAtivo1 and maturing at DadoAtivo2; "ETF" is an ETF trade of
   * ticker DadoAtivo1, whatever the ticker; any other kind is an error.
   */
  function ParseLine(line: Result<Line, string>, parseDate: string -> Result<Date, string>, parseDecimal: string -> Result<Decimal, string>)
    : (r: Result<Classified<EtfTrade, BondTrade>, string>)
    ensures r.Ok? <==>
      && line.Ok?
      && parseDate(line.value.date).Ok? && parseDecimal(line.value.price).Ok? && parseDecimal(line.value.quantity).Ok?
      && (line.value.assetKind == "ETF" || (line.value.assetKind == "Tesouro" && parseDate(line.value.assetProp2).Ok?))
    ensures r.Ok? && line.value.assetKind == "ETF" ==>
      r.value == First(EtfTrade(line.value.assetProp1, parseDate(line.value.date).value,
                                parseDecimal(line.value.price).value, parseDecimal(line.value.quantity).value))
    ensures r.Ok? && line.value.assetKind == "Tesouro" ==>
      r.value == Second(BondTrade(line.value.assetProp1, parseDate(line.value.assetProp2).value, parseDate(line.value.date).value,
                                  parseDecimal(line.value.price).value, parseDecimal(line.value.quantity).value))
    ensures line.Err? ==> r == Err("Some line is bad: " + line.error)
    ensures line.Ok? ==>
      var l := line.value;
      && (parseDate(l.date).Err? ==> r == Err("Some line's date is bad: " + parseDate(l.date).error))
      && (parseDate(l.date).Ok? && parseDecimal(l.price).Err? ==>
            r == Err("Some line's price is bad: " + parseDecimal(l.price).error))
      && (parseDate(l.date).Ok? && parseDecimal(l.price).Ok? && parseDecimal(l.quantity).Err? ==>
            r == Err("Some line's quantity is bad: " + parseDecimal(l.quantity).error))
      && (parseDate(l.date).Ok? && parseDecimal(l.price).Ok? && parseDecimal(l.quantity).Ok? ==>
            && (l.assetKind == "Tesouro" && parseDate(l.assetProp2).Err? ==>
                  r == Err("Some line's treasury maturity is bad: " + parseDate(l.assetProp2).error))
            && (l.assetKind != "Tesouro" && l.assetKind != "ETF" ==>
                  r == Err("Some line's asset kind is bad: " + l.assetKind)))
  {
    match line
    case Err(e) => Err("Some line is bad: " + e)
    case Ok(l) =>
      match parseDate(l.date)
      case Err(e) => Err("Some line's date is bad: " + e)
      case Ok(date) =>
        match parseDecimal(l.price)
        case Err(e) => Err("Some line's price is bad: " + e)
        case Ok(price) =>
          match parseDecimal(l.quantity)
          case Err(e) => Err("Some line's quantity is bad: " + e)
          case Ok(quantity) =>
            if l.assetKind == "Tesouro" then
              match parseDate(l.assetProp2)
              case Err(e) => Err("Some line's treasury maturity is bad: " + e)
              case Ok(maturity) => Ok(Second(BondTrade(l.assetProp1, maturity, date, price, quantity)))
            else if l.assetKind == "ETF" then
              Ok(First(EtfTrade(l.assetProp1, date, price, quantity)))
            else
              Err("Some line's asset kind is bad: " + l.assetKind)
  }

  function LineParser(parseDate: string -> Result<Date, string>, parseDecimal: string -> Result<Decimal, string>)
    : Result<Line, string> -> Result<Classified<EtfTrade, BondTrade>, string>
  {
    line => ParseLine(line, parseDate, parseDecimal)
  }

  /**
   * `parse`: both lists, or the first bad line's message, or the error of an
   * import with no trades (`Lines.ParseSplitOutcome`, `Lines.ParseSplitFirstError`).
   */
  function Parse(lines: seq<Result<Line, string>>, parseDate: string -> Result<Date, string>, parseDecimal: string -> Result<Decimal, string>)
    : Result<(seq<EtfTrade>, seq<BondTrade>), string>
  {
    ParseSplit(lines, LineParser(parseDate, parseDecimal), NoTrades)
  }

  /** `parse`: the loop over the lines, pushing into the two lists and returning at the first bad line. */
  method ParseLines(lines: seq<Result<Line, string>>, parseDate: string -> Result<Date, string>, parseDecimal: string -> Result<Decimal, string>)
    returns (r: Result<(seq<EtfTrade>, seq<BondTrade>), string>)
    ensures r == Parse(lines, parseDate, parseDecimal)
  {
    var parser := LineParser(parseDate, parseDecimal);
    var etfTrades: seq<EtfTrade> := [];
    var bondTrades: seq<BondTrade> := [];
    ghost var cs: seq<Classified<EtfTrade, BondTrade>> := [];
    for i := 0 to |lines|
      invariant ParseEach(lines[..i], parser) == Ok(cs)
      invariant etfTrades == Firsts(cs) && bondTrades == Seconds(cs)
    {
      ParseEachStep(lines, parser, i);
      var parsed := ParseLine(lines[i], parseDate, parseDecimal);
      if parsed.Err? {
        ParseEachErrorSticks(lines, parser, i + 1);
        return Err(parsed.error);
      }
      match parsed.value {
        case First(trade) => etfTrades := etfTrades + [trade];
        case Second(trade) => bondTrades := bondTrades + [trade];
      }
      assert (cs + [parsed.value])[..|cs|] == cs;
      cs := cs + [parsed.value];
    }
    assert lines[..|lines|] == lines;
    if |etfTrades| + |bondTrades| == 0 {
      return Err(NoTrades);
    }
    return Ok((etfTrades, bondTrades));
  }

  /** `run`: a parsing error is returned as such; otherwise the registration's outcome. */
  function Run(lines: seq<Result<Line, string>>, parseDate: string -> Result<Date, string>, parseDecimal: string -> Result<Decimal, string>,
               register: (seq<EtfTrade>, seq<BondTrade>) -> Result<PortfolioId, DbError>)
    : (r: Result<PortfolioId, Error>)
    ensures Parse(lines, parseDate, parseDecimal).Err? ==> r == Err(Parsing(Parse(lines, parseDate, parseDecimal).error))
    ensures Parse(lines, parseDate, parseDecimal).Ok? ==>
      var (etfTrades, bondTrades) := Parse(lines, parseDate, parseDecimal).value;
      && (register(etfTrades, bondTrades).Err? ==> r == Err(Writing(register(etfTrades, bondTrades).error)))
      && (register(etfTrades, bondTrades).Ok? ==> r == Ok(register(etfTrades, bondTrades).value))
  {
    match Parse(lines, parseDate, parseDecimal)
    case Err(e) => Err(Parsing(e))
    case Ok((etfTrades, bondTrades)) =>
      match register(etfTrades, bondTrades)
      case Err(e) => Err(Writing(e))
      case Ok(id) => Ok(id)
  }

  /** When parsing fails the registration is never consulted: any two registrations give the same outcome. */
  lemma RunNeverWritesBadInput(lines: seq<Result<Line, string>>, parseDate: string -> Result<Date, string>, parseDecimal: string -> Result<Decimal, string>,
                               register: (seq<EtfTrade>, seq<BondTrade>) -> Result<PortfolioId, DbError>,
                               otherRegister: (seq<EtfTrade>, seq<BondTrade>) -> Result<PortfolioId, DbError>)
    requires Parse(lines, parseDate, parseDecimal).Err?
    ensures Run(lines, parseDate, parseDecimal, register) == Run(lines, parseDate, parseDecimal, otherRegister)
    ensures Run(lines, parseDate, parseDecimal, register).Err? && Run(lines, parseDate, parseDecimal, register).error.Parsing?
  {
  }
}
