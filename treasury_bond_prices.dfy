/**
 * The treasury bond price import service
 * (`services::import_treasury_bonds_prices`): the public price file of the
 * Brazilian treasury (semicolon-separated, columns Tipo Titulo, Data
 * Vencimento, Data Base and PU Base Manha) is parsed into priced bonds, which
 * are then registered one (title, maturity) group at a time.
 *
 * The download is not modelled: `Run` receives what the download and the CSV
 * reader produced. `parseDate` stands for `NaiveDate::parse_from_str` with
 * the format "%d/%m/%Y", `parseDecimal` for `BigDecimal::from_str`, and
 * `register` for the bond price registration the service calls, which gives
 * the number of rows written or a storage error.
 */
module TreasuryBondPrices {
  import opened Common
  import opened Keys
  import opened Lines

  /** A deserialised CSV line. */
  datatype Line = Line(kind: string, maturity: string, date: string, price: string)

  /** A priced bond: its title key, its maturity, and the price on a date. */
  datatype ParsedLine = ParsedLine(key: string, maturity: Date, date: Date, price: Decimal)

  /** Why the import stopped before writing. */
  datatype ReadingError = Network | Status(code: int) | Payload | Parsing(parsing: string)

  /** The six titles the file lists, and the key each is registered under. */
  const Titles: seq<string> := [
    "Tesouro Selic", "Tesouro IPCA+", "Tesouro IPCA+ com Juros Semestrais",
    "Tesouro Prefixado", "Tesouro Prefixado com Juros Semestrais", "Tesouro IGPM+ com Juros Semestrais"]

  const BondKeys: seq<string> := ["LFT", "NTN-B", "NTN-B Principal", "LTN", "NTN-F", "NTN-C"]

  /** A line with no price, or a zero price, carries nothing to import. */
  predicate Unpriced(price: string) {
    price == "" || price == "0,00"
  }

  /** The title-to-key table: the i-th title has the i-th key; any other title has none. */
  function KeyOf(kind: string): (r: Option<string>)
    ensures r.Some? <==> kind in Titles
    ensures forall i :: 0 <= i < |Titles| && kind == Titles[i] ==> r == Some(BondKeys[i])
  {
    if kind == "Tesouro Selic" then Some("LFT")
    else if kind == "Tesouro IPCA+" then Some("NTN-B")
    else if kind == "Tesouro IPCA+ com Juros Semestrais" then Some("NTN-B Principal")
    else if kind == "Tesouro Prefixado" then Some("LTN")
    else if kind == "Tesouro Prefixado com Juros Semestrais" then Some("NTN-F")
    else if kind == "Tesouro IGPM+ com Juros Semestrais" then Some("NTN-C")
    else None
  }

  /**
   * One line. An unpriced line is skipped before its title is looked at; then
   * the title, the price (read with a decimal comma), the date and the
   * maturity are checked in that order, and the first that fails is the
   * error.
   */
  function ParseLine(line: Result<Line, string>, parseDate: string -> Result<Date, string>, parseDecimal: string -> Result<Decimal, string>)
    : (r: Result<Option<ParsedLine>, string>)
    ensures r == Ok(None) <==> line.Ok? && Unpriced(line.value.price)
    ensures r.Ok? <==>
      line.Ok? && (Unpriced(line.value.price) ||
        (KeyOf(line.value.kind).Some? && parseDecimal(CommaToDot(line.value.price)).Ok?
         && parseDate(line.value.date).Ok? && parseDate(line.value.maturity).Ok?))
    ensures r.Ok? && r.value.Some? ==>
      && line.Ok? && KeyOf(line.value.kind).Some? && parseDecimal(CommaToDot(line.value.price)).Ok?
      && parseDate(line.value.date).Ok? && parseDate(line.value.maturity).Ok?
      && r.value.value == ParsedLine(KeyOf(line.value.kind).value, parseDate(line.value.maturity).value,
                                     parseDate(line.value.date).value, parseDecimal(CommaToDot(line.value.price)).value)
    ensures line.Err? ==> r == Err("Some line is bad: " + line.error)
    ensures line.Ok? && !Unpriced(line.value.price) ==>
      var l := line.value;
      && (KeyOf(l.kind).None? ==> r == Err("Some line type is bad: " + l.kind))
      && (KeyOf(l.kind).Some? && parseDecimal(CommaToDot(l.price)).Err? ==>
            r == Err("Some line price is bad: " + parseDecimal(CommaToDot(l.price)).error))
      && (KeyOf(l.kind).Some? && parseDecimal(CommaToDot(l.price)).Ok? && parseDate(l.date).Err? ==>
            r == Err("Some line date is bad: " + parseDate(l.date).error))
      && (KeyOf(l.kind).Some? && parseDecimal(CommaToDot(l.price)).Ok? && parseDate(l.date).Ok? && parseDate(l.maturity).Err? ==>
            r == Err("Some line maturity is bad: " + parseDate(l.maturity).error))
  {
    match line
    case Err(e) => Err("Some line is bad: " + e)
    case Ok(l) =>
      if Unpriced(l.price) then Ok(None)
      else match KeyOf(l.kind)
        case None => Err("Some line type is bad: " + l.kind)
        case Some(key) =>
          match parseDecimal(CommaToDot(l.price))
          case Err(e) => Err("Some line price is bad: " + e)
          case Ok(price) =>
            match parseDate(l.date)
            case Err(e) => Err("Some line date is bad: " + e)
            case Ok(date) =>
              match parseDate(l.maturity)
              case Err(e) => Err("Some line maturity is bad: " + e)
              case Ok(maturity) => Ok(Some(ParsedLine(key, maturity, date, price)))
  }

  function LineParser(parseDate: string -> Result<Date, string>, parseDecimal: string -> Result<Decimal, string>)
    : Result<Line, string> -> Result<Option<ParsedLine>, string>
  {
    line => ParseLine(line, parseDate, parseDecimal)
  }

  /** `parse`: the priced bonds of the lines not skipped, or the first bad line's message (`Lines.ParseKeptOutcome`). */
  function Parse(lines: seq<Result<Line, string>>, parseDate: string -> Result<Date, string>, parseDecimal: string -> Result<Decimal, string>)
    : Result<seq<ParsedLine>, string>
  {
    ParseKept(lines, LineParser(parseDate, parseDecimal))
  }

  /** A skipped line may be dropped from the file, wherever it stands, without changing the outcome. */
  lemma SkippedLineIgnored(before: seq<Result<Line, string>>, line: Line, after: seq<Result<Line, string>>,
                           parseDate: string -> Result<Date, string>, parseDecimal: string -> Result<Decimal, string>)
    requires Unpriced(line.price)
    ensures Parse(before + [Ok(line)] + after, parseDate, parseDecimal) == Parse(before + after, parseDate, parseDecimal)
  {
    ParseKeptSkip(before, Ok(line), after, LineParser(parseDate, parseDecimal));
  }

  /** `parse`: the loop over the lines, skipping the unpriced ones and returning at the first bad line. */
  method ParseLines(lines: seq<Result<Line, string>>, parseDate: string -> Result<Date, string>, parseDecimal: string -> Result<Decimal, string>)
    returns (r: Result<seq<ParsedLine>, string>)
    ensures r == Parse(lines, parseDate, parseDecimal)
  {
    var parser := LineParser(parseDate, parseDecimal);
    var treasuryPrices: seq<ParsedLine> := [];
    ghost var xs: seq<Option<ParsedLine>> := [];
    for i := 0 to |lines|
      invariant ParseEach(lines[..i], parser) == Ok(xs)
      invariant treasuryPrices == Kept(xs)
    {
      ParseEachStep(lines, parser, i);
      var parsed := ParseLine(lines[i], parseDate, parseDecimal);
      if parsed.Err? {
        ParseEachErrorSticks(lines, parser, i + 1);
        return Err(parsed.error);
      }
      if parsed.value.Some? {
        treasuryPrices := treasuryPrices + [parsed.value.value];
      }
      assert (xs + [parsed.value])[..|xs|] == xs;
      xs := xs + [parsed.value];
    }
    assert lines[..|lines|] == lines;
    return Ok(treasuryPrices);
  }

  /** The group a priced bond belongs to. */
  function PairOf(line: ParsedLine): (string, Date) {
    (line.key, line.maturity)
  }

  /** The (date, price) pairs of a group, in its order. */
  function DatePrices(group: seq<ParsedLine>): seq<(Date, Decimal)> {
    seq(|group|, i requires 0 <= i < |group| => (group[i].date, group[i].price))
  }

  /** The distinct (key, maturity) pairs in ascending order: `sorted_by_key` followed by `group_by`. */
  function GroupKeys(lines: seq<ParsedLine>): seq<(string, Date)> {
    StringIntLessIsStrictTotalOrder();
    SortedKeys(lines, PairOf, StringIntLess)
  }

  /** The registration of groups `ks`, one result per group, each group registered whatever became of the others. */
  function WriteGroups(lines: seq<ParsedLine>, ks: seq<(string, Date)>,
                       register: (string, Date, seq<(Date, Decimal)>) -> Result<nat, DbError>)
    : (r: seq<((string, Date), Result<nat, DbError>)>)
    ensures |r| == |ks|
  {
    if |ks| == 0 then []
    else
      var k := ks[|ks| - 1];
      WriteGroups(lines, ks[..|ks| - 1], register) + [(k, register(k.0, k.1, DatePrices(Select(lines, PairOf, k))))]
  }

  /** `write`. */
  function Write(lines: seq<ParsedLine>, register: (string, Date, seq<(Date, Decimal)>) -> Result<nat, DbError>)
    : seq<((string, Date), Result<nat, DbError>)>
  {
    WriteGroups(lines, GroupKeys(lines), register)
  }

  /** The i-th result is group `ks[i]`'s registration, made with exactly that group's prices. */
  lemma {:induction false} WriteGroupsAt(lines: seq<ParsedLine>, ks: seq<(string, Date)>,
                                        register: (string, Date, seq<(Date, Decimal)>) -> Result<nat, DbError>)
    ensures forall i :: 0 <= i < |ks| ==>
      WriteGroups(lines, ks, register)[i] == (ks[i], register(ks[i].0, ks[i].1, DatePrices(Select(lines, PairOf, ks[i]))))
  {
    if |ks| > 0 {
      WriteGroupsAt(lines, ks[..|ks| - 1], register);
    }
  }

  lemma {:induction false} WriteGroupsKeys(lines: seq<ParsedLine>, ks: seq<(string, Date)>,
                                          register: (string, Date, seq<(Date, Decimal)>) -> Result<nat, DbError>)
    ensures forall i :: 0 <= i < |ks| ==> WriteGroups(lines, ks, register)[i].0 == ks[i]
  {
    if |ks| > 0 {
      WriteGroupsKeys(lines, ks[..|ks| - 1], register);
    }
  }

  /** `write` gives one result per distinct (key, maturity) pair of the input, in ascending order. */
  lemma WriteOneResultPerPair(lines: seq<ParsedLine>, register: (string, Date, seq<(Date, Decimal)>) -> Result<nat, DbError>)
    ensures var r := Write(lines, register);
      && (forall i, j :: 0 <= i < j < |r| ==> StringIntLess(r[i].0, r[j].0))
      && (forall i :: 0 <= i < |lines| ==> exists j :: 0 <= j < |r| && r[j].0 == PairOf(lines[i]))
      && (forall j :: 0 <= j < |r| ==> exists i :: 0 <= i < |lines| && r[j].0 == PairOf(lines[i]))
  {
    var ks := GroupKeys(lines);
    StringIntLessIsStrictTotalOrder();
    SortedKeysMembers(lines, PairOf, StringIntLess);
    WriteGroupsKeys(lines, ks, register);
    var r := Write(lines, register);
    forall j | 0 <= j < |r| ensures exists i :: 0 <= i < |lines| && r[j].0 == PairOf(lines[i]) {
      assert r[j].0 == ks[j] && ks[j] in ks;
      var i :| 0 <= i < |lines| && PairOf(lines[i]) == ks[j];
    }
  }

  /** Every group is registered, whatever became of the others, with exactly the (date, price) pairs of its bonds. */
  lemma WriteEachGroupRegistered(lines: seq<ParsedLine>, register: (string, Date, seq<(Date, Decimal)>) -> Result<nat, DbError>)
    ensures var r := Write(lines, register);
      forall j :: 0 <= j < |r| ==> r[j].1 == register(r[j].0.0, r[j].0.1, DatePrices(Select(lines, PairOf, r[j].0)))
  {
    WriteGroupsAt(lines, GroupKeys(lines), register);
  }

  /** The groups hold every bond of the input exactly once, each group only bonds of its own pair. */
  lemma WriteGroupsPartition(lines: seq<ParsedLine>)
    ensures multiset(Grouped(lines, PairOf, GroupKeys(lines))) == multiset(lines)
    ensures forall k, i :: 0 <= i < |Select(lines, PairOf, k)| ==>
      (Select(lines, PairOf, k)[i].key, Select(lines, PairOf, k)[i].maturity) == k
  {
    StringIntLessIsStrictTotalOrder();
    GroupsCoverAll(lines, PairOf, StringIntLess);
    forall k {
      SelectHasKey(lines, PairOf, k);
    }
  }

  /**
   * A failing group does not affect another: group j's result depends on its
   * own registration only. This rests on the registration being a function of
   * its arguments, as it is modelled here; a registration whose outcome hung
   * on what earlier groups wrote is outside this statement.
   */
  lemma WriteFailureIsolated(lines: seq<ParsedLine>, register: (string, Date, seq<(Date, Decimal)>) -> Result<nat, DbError>,
                             other: (string, Date, seq<(Date, Decimal)>) -> Result<nat, DbError>, j: nat)
    requires j < |GroupKeys(lines)|
    requires var k := GroupKeys(lines)[j];
      register(k.0, k.1, DatePrices(Select(lines, PairOf, k))) == other(k.0, k.1, DatePrices(Select(lines, PairOf, k)))
    ensures Write(lines, register)[j] == Write(lines, other)[j]
  {
    WriteGroupsAt(lines, GroupKeys(lines), register);
    WriteGroupsAt(lines, GroupKeys(lines), other);
  }

  /** `run`: a download or parsing error stops the import; otherwise every group's registration result. */
  function Run(fetched: Result<seq<Result<Line, string>>, ReadingError>,
               parseDate: string -> Result<Date, string>, parseDecimal: string -> Result<Decimal, string>,
               register: (string, Date, seq<(Date, Decimal)>) -> Result<nat, DbError>)
    : (r: Result<seq<((string, Date), Result<nat, DbError>)>, ReadingError>)
    ensures fetched.Err? ==> r == Err(fetched.error)
    ensures fetched.Ok? && Parse(fetched.value, parseDate, parseDecimal).Err? ==>
      r == Err(Parsing(Parse(fetched.value, parseDate, parseDecimal).error))
    ensures fetched.Ok? && Parse(fetched.value, parseDate, parseDecimal).Ok? ==>
      r == Ok(Write(Parse(fetched.value, parseDate, parseDecimal).value, register))
  {
    match fetched
    case Err(e) => Err(e)
    case Ok(lines) =>
      match Parse(lines, parseDate, parseDecimal)
      case Err(e) => Err(Parsing(e))
      case Ok(parsed) => Ok(Write(parsed, register))
  }
}
