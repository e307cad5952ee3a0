/**
 * The treasury price import endpoint (`routes::import_treasury_prices`): the
 * public price file of the Brazilian treasury is parsed, keeping only the
 * priced Tesouro Selic lines, and the prices are registered maturity by
 * maturity, stopping at the first maturity whose registration fails.
 *
 * The download is not modelled: `Import` receives what the download and the
 * CSV reader produced, or the download's error message. `parseDate` stands
 * for `NaiveDate::parse_from_str` with the format "%d/%m/%Y" and
 * `parseDecimal` for `BigDecimal::from_str`; only whether they succeed
 * matters here, since every error message is fixed. Whether the registration
 * of a maturity fails is given by `failureOf`.
 */
module TreasuryPricesRoute {
  import opened Common
  import opened Keys
  import opened Lines
  import opened Storage
  import opened Assets
  import opened Prices

  /** A deserialised CSV line. */
  datatype Line = Line(kind: string, maturityDate: string, date: string, price: string)

  /** A Tesouro Selic price: the bond's maturity and its price on a date. */
  datatype TreasuryPrice = TreasuryPrice(maturityDate: Date, date: Date, price: Decimal)

  const WritingFailed: string := "writing failed"

  /** Only priced Tesouro Selic lines are imported. */
  predicate Skipped(line: Line) {
    line.kind != "Tesouro Selic" || line.price == ""
  }

  /**
   * One line. A skipped line is not parsed any further; otherwise the price
   * (read with a decimal comma), the date and the maturity are checked in
   * that order, each failure with its own message.
   */
  function ParseLine(line: Result<Line, string>, parseDate: string -> Result<Date, string>, parseDecimal: string -> Result<Decimal, string>)
    : (r: Result<Option<TreasuryPrice>, string>)
    ensures r == Ok(None) <==> line.Ok? && Skipped(line.value)
    ensures r.Ok? && r.value.Some? ==>
      && line.Ok? && line.value.kind == "Tesouro Selic"
      && parseDecimal(CommaToDot(line.value.price)).Ok? && parseDate(line.value.date).Ok? && parseDate(line.value.maturityDate).Ok?
      && r.value.value == TreasuryPrice(parseDate(line.value.maturityDate).value, parseDate(line.value.date).value,
                                        parseDecimal(CommaToDot(line.value.price)).value)
    ensures line.Err? ==> r == Err("some line is bad")
    ensures line.Ok? && !Skipped(line.value) ==>
      var l := line.value;
      && (parseDecimal(CommaToDot(l.price)).Err? ==> r == Err("some line price is bad"))
      && (parseDecimal(CommaToDot(l.price)).Ok? && parseDate(l.date).Err? ==> r == Err("some line date is bad"))
      && (parseDecimal(CommaToDot(l.price)).Ok? && parseDate(l.date).Ok? && parseDate(l.maturityDate).Err? ==>
            r == Err("some line maturity date is bad"))
      && (parseDecimal(CommaToDot(l.price)).Ok? && parseDate(l.date).Ok? && parseDate(l.maturityDate).Ok? ==> r.Ok?)
  {
    match line
    case Err(_) => Err("some line is bad")
    case Ok(l) =>
      if Skipped(l) then Ok(None)
      else match parseDecimal(CommaToDot(l.price))
        case Err(_) => Err("some line price is bad")
        case Ok(price) =>
          match parseDate(l.date)
          case Err(_) => Err("some line date is bad")
          case Ok(date) =>
            match parseDate(l.maturityDate)
            case Err(_) => Err("some line maturity date is bad")
            case Ok(maturityDate) => Ok(Some(TreasuryPrice(maturityDate, date, price)))
  }

  function LineParser(parseDate: string -> Result<Date, string>, parseDecimal: string -> Result<Decimal, string>)
    : Result<Line, string> -> Result<Option<TreasuryPrice>, string>
  {
    line => ParseLine(line, parseDate, parseDecimal)
  }

  /** `parse`: the prices of the lines not skipped, or the first bad line's message (`Lines.ParseKeptOutcome`). */
  function Parse(lines: seq<Result<Line, string>>, parseDate: string -> Result<Date, string>, parseDecimal: string -> Result<Decimal, string>)
    : Result<seq<TreasuryPrice>, string>
  {
    ParseKept(lines, LineParser(parseDate, parseDecimal))
  }

  /** A line of another title, or without a price, may be dropped from the file without changing the outcome. */
  lemma SkippedLineIgnored(before: seq<Result<Line, string>>, line: Line, after: seq<Result<Line, string>>,
                           parseDate: string -> Result<Date, string>, parseDecimal: string -> Result<Decimal, string>)
    requires Skipped(line)
    ensures Parse(before + [Ok(line)] + after, parseDate, parseDecimal) == Parse(before + after, parseDate, parseDecimal)
  {
    ParseKeptSkip(before, Ok(line), after, LineParser(parseDate, parseDecimal));
  }

  /** `parse`: the loop over the lines, skipping the ones not imported and returning at the first bad line. */
  method ParseLines(lines: seq<Result<Line, string>>, parseDate: string -> Result<Date, string>, parseDecimal: string -> Result<Decimal, string>)
    returns (r: Result<seq<TreasuryPrice>, string>)
    ensures r == Parse(lines, parseDate, parseDecimal)
  {
    var parser := LineParser(parseDate, parseDecimal);
    var treasuryPrices: seq<TreasuryPrice> := [];
    ghost var xs: seq<Option<TreasuryPrice>> := [];
    for i := 0 to |lines|
      invariant ParseEach(lines[..i], parser) == Ok(xs)
      invariant treasuryPrices == Kept(xs)
    {
      ParseEachStep(lines, parser, i);
      var parsed := ParseLine(lines[i], parseDate, parseDecimal);
      if parsed.Err? {
        ParseEachErrorSticks(lines, parser, i + 1);
        return Err(parsed.error);
      }
      if parsed.value.Some? {
        treasuryPrices := treasuryPrices + [parsed.value.value];
      }
      assert (xs + [parsed.value])[..|xs|] == xs;
      xs := xs + [parsed.value];
    }
    assert lines[..|lines|] == lines;
    return Ok(treasuryPrices);
  }

  function MaturityOf(p: TreasuryPrice): Date {
    p.maturityDate
  }

  /** The (date, price) pairs of a group, in its order. */
  function DatePrices(group: seq<TreasuryPrice>): seq<(Date, Decimal)> {
    seq(|group|, i requires 0 <= i < |group| => (group[i].date, group[i].price))
  }

  /** The distinct maturities, ascending. */
  function Maturities(prices: seq<TreasuryPrice>): seq<Date> {
    IntLessIsStrictTotalOrder();
    SortedKeys(prices, MaturityOf, IntLess)
  }

  /**
   * `sorted_by_key` followed by `group_by` on the maturity: one entry per
   * distinct maturity, ascending, with the (date, price) pairs of that
   * maturity's prices.
   */
  function Groups(prices: seq<TreasuryPrice>): seq<(Date, seq<(Date, Decimal)>)> {
    var ks := Maturities(prices);
    seq(|ks|, i requires 0 <= i < |ks| => (ks[i], DatePrices(Select(prices, MaturityOf, ks[i]))))
  }

  /** The groups come in strictly ascending maturity. */
  lemma GroupsAscending(prices: seq<TreasuryPrice>)
    ensures var gs := Groups(prices);
      forall i, j :: 0 <= i < j < |gs| ==> gs[i].0 < gs[j].0
  {
    var ks := Maturities(prices);
    var gs := Groups(prices);
    forall i, j | 0 <= i < j < |gs| ensures gs[i].0 < gs[j].0 {
      assert gs[i].0 == ks[i] && gs[j].0 == ks[j];
      assert IntLess(ks[i], ks[j]);
    }
  }

  /** There is a group for every maturity of the input, and for no other. */
  lemma GroupsCoverMaturities(prices: seq<TreasuryPrice>)
    ensures var gs := Groups(prices);
      && (forall i :: 0 <= i < |prices| ==> exists j :: 0 <= j < |gs| && gs[j].0 == prices[i].maturityDate)
      && (forall j :: 0 <= j < |gs| ==> exists i :: 0 <= i < |prices| && gs[j].0 == prices[i].maturityDate)
  {
    var ks := Maturities(prices);
    var gs := Groups(prices);
    IntLessIsStrictTotalOrder();
    SortedKeysMembers(prices, MaturityOf, IntLess);
    forall i | 0 <= i < |prices| ensures exists j :: 0 <= j < |gs| && gs[j].0 == prices[i].maturityDate {
      assert MaturityOf(prices[i]) in ks;
      var j :| 0 <= j < |ks| && ks[j] == MaturityOf(prices[i]);
      assert gs[j].0 == ks[j];
    }
    forall j | 0 <= j < |gs| ensures exists i :: 0 <= i < |prices| && gs[j].0 == prices[i].maturityDate {
      assert gs[j].0 == ks[j] && ks[j] in ks;
      var i :| 0 <= i < |prices| && MaturityOf(prices[i]) == ks[j];
    }
  }

  /** The groups hold every price of the input exactly once, each group only prices of its own maturity. */
  lemma GroupsPartition(prices: seq<TreasuryPrice>)
    ensures multiset(Grouped(prices, MaturityOf, Maturities(prices))) == multiset(prices)
    ensures forall m, i :: 0 <= i < |Select(prices, MaturityOf, m)| ==> Select(prices, MaturityOf, m)[i].maturityDate == m
  {
    IntLessIsStrictTotalOrder();
    GroupsCoverAll(prices, MaturityOf, IntLess);
    forall m {
      SelectHasKey(prices, MaturityOf, m);
    }
  }

  /**
   * `write` on the tables as a value: the groups registered in order, each in
   * its own transaction, until the first one that fails.
   */
  function Written(t: Tables, groups: seq<(Date, seq<(Date, Decimal)>)>, failureOf: Date -> Option<DbError>)
    : (Tables, Result<(), string>)
  {
    if |groups| == 0 then (t, Ok(()))
    else
      var (t1, r1) := Written(t, groups[..|groups| - 1], failureOf);
      if r1.Err? then (t1, r1)
      else
        var (maturity, prices) := groups[|groups| - 1];
        var (t2, r2) := TreasuryPricesRegistered(t1, maturity, prices, failureOf(maturity));
        (t2, if r2.Err? then Err(WritingFailed) else Ok(()))
  }

  /** Once a group fails, the groups after it change nothing. */
  lemma {:induction false} WrittenErrorSticks(t: Tables, groups: seq<(Date, seq<(Date, Decimal)>)>, failureOf: Date -> Option<DbError>, n: nat)
    requires n <= |groups| && Written(t, groups[..n], failureOf).1.Err?
    ensures Written(t, groups, failureOf) == Written(t, groups[..n], failureOf)
    decreases |groups| - n
  {
    if n < |groups| {
      assert groups[..n + 1][..n] == groups[..n];
      WrittenErrorSticks(t, groups, failureOf, n + 1);
    } else {
      assert groups[..n] == groups;
    }
  }

  /** `write` succeeds exactly when no group's registration fails; a failure is the one fixed message. */
  lemma {:induction false} WrittenOk(t: Tables, groups: seq<(Date, seq<(Date, Decimal)>)>, failureOf: Date -> Option<DbError>)
    ensures Written(t, groups, failureOf).1.Ok? <==> forall i :: 0 <= i < |groups| ==> failureOf(groups[i].0).None?
    ensures Written(t, groups, failureOf).1.Err? ==> Written(t, groups, failureOf).1 == Err(WritingFailed)
  {
    if |groups| > 0 {
      var front := groups[..|groups| - 1];
      WrittenOk(t, front, failureOf);
      assert forall i :: 0 <= i < |front| ==> front[i] == groups[i];
    }
  }

  /**
   * The first failing group ends `write` with an error: the tables are as
   * they were before that group (only the asset serial counter may have
   * moved), and no later group is written.
   */
  lemma WrittenStopsAtFirstFailure(t: Tables, groups: seq<(Date, seq<(Date, Decimal)>)>, failureOf: Date -> Option<DbError>, i: nat)
    requires i < |groups| && failureOf(groups[i].0).Some?
    requires forall j :: 0 <= j < i ==> failureOf(groups[j].0).None?
    ensures Written(t, groups, failureOf) == Written(t, groups[..i + 1], failureOf)
    ensures Written(t, groups, failureOf).1 == Err(WritingFailed)
    ensures var before := Written(t, groups[..i], failureOf).0;
      Written(t, groups, failureOf).0.(nextAssetId := before.nextAssetId) == before
  {
    var prefix := groups[..i + 1];
    assert prefix[..i] == groups[..i];
    WrittenOk(t, groups[..i], failureOf);
    WrittenErrorSticks(t, groups, failureOf, i + 1);
  }

  /** A registration that succeeds keeps every treasury and adds the one for `maturity`. */
  lemma RegisteredKeepsTreasuries(t: Tables, maturity: Date, prices: seq<(Date, Decimal)>)
    ensures var t2 := TreasuryPricesRegistered(t, maturity, prices, None).0;
      && FindTreasury(t2.treasuries, maturity).Some?
      && forall m :: FindTreasury(t.treasuries, m).Some? ==> FindTreasury(t2.treasuries, m).Some?
  {
    var (t1, id) := TreasuryRegistered(t, maturity);
    if FindTreasury(t.treasuries, maturity).None? {
      forall m ensures FindTreasury(t1.treasuries, m) ==
        if FindTreasury(t.treasuries, m).Some? then FindTreasury(t.treasuries, m) else if maturity == m then Some(id) else None
      {
        FindTreasuryAppend(t.treasuries, TreasuryRow(id, maturity), m);
      }
    }
  }

  /** One more group written successfully keeps the treasuries found so far and adds that group's. */
  lemma WrittenStepKeepsTreasuries(t: Tables, groups: seq<(Date, seq<(Date, Decimal)>)>, failureOf: Date -> Option<DbError>)
    requires |groups| > 0 && Written(t, groups, failureOf).1.Ok?
    ensures var front := Written(t, groups[..|groups| - 1], failureOf);
      && front.1.Ok?
      && FindTreasury(Written(t, groups, failureOf).0.treasuries, groups[|groups| - 1].0).Some?
      && forall m :: FindTreasury(front.0.treasuries, m).Some? ==> FindTreasury(Written(t, groups, failureOf).0.treasuries, m).Some?
  {
    var t1 := Written(t, groups[..|groups| - 1], failureOf).0;
    var maturity, prices := groups[|groups| - 1].0, groups[|groups| - 1].1;
    RegisteredKeepsTreasuries(t1, maturity, prices);
  }

  /** Treasuries found in `a` stay found in `b`, which also holds the last group's: then `b` covers all groups. */
  lemma CoverStep(a: seq<TreasuryRow>, b: seq<TreasuryRow>, front: seq<(Date, seq<(Date, Decimal)>)>, groups: seq<(Date, seq<(Date, Decimal)>)>)
    requires |groups| > 0 && front == groups[..|groups| - 1]
    requires forall i :: 0 <= i < |front| ==> FindTreasury(a, front[i].0).Some?
    requires forall m :: FindTreasury(a, m).Some? ==> FindTreasury(b, m).Some?
    requires FindTreasury(b, groups[|groups| - 1].0).Some?
    ensures forall i :: 0 <= i < |groups| ==> FindTreasury(b, groups[i].0).Some?
  {
    forall i | 0 <= i < |front| ensures FindTreasury(b, groups[i].0).Some? {
      assert front[i] == groups[i];
    }
  }

  /** After a `write` that succeeds, every group's maturity has its treasury. */
  lemma {:induction false} WrittenRegistersEveryMaturity(t: Tables, groups: seq<(Date, seq<(Date, Decimal)>)>, failureOf: Date -> Option<DbError>)
    requires Written(t, groups, failureOf).1.Ok?
    ensures forall i :: 0 <= i < |groups| ==> FindTreasury(Written(t, groups, failureOf).0.treasuries, groups[i].0).Some?
  {
    if |groups| > 0 {
      var front := groups[..|groups| - 1];
      WrittenStepKeepsTreasuries(t, groups, failureOf);
      WrittenRegistersEveryMaturity(t, front, failureOf);
      CoverStep(Written(t, front, failureOf).0.treasuries, Written(t, groups, failureOf).0.treasuries, front, groups);
    }
  }

  /** `write`: the loop over the maturity groups, returning at the first registration that fails. */
  method Write(db: Database, prices: seq<TreasuryPrice>, failureOf: Date -> Option<DbError>) returns (r: Result<(), string>)
    modifies db
    requires db.Valid()
    ensures db.Valid()
    ensures (db.State(), r) == Written(old(db.State()), Groups(prices), failureOf)
  {
    ghost var start := db.State();
    var groups := Groups(prices);
    for g := 0 to |groups|
      invariant db.Valid()
      invariant (db.State(), Ok(())) == Written(start, groups[..g], failureOf)
    {
      assert groups[..g + 1][..g] == groups[..g];
      var (maturity, treasuryPrices) := groups[g];
      var registered := RegisterTreasuryPrices(db, maturity, treasuryPrices, failureOf(maturity));
      if registered.Err? {
        WrittenErrorSticks(start, groups, failureOf, g + 1);
        return Err(WritingFailed);
      }
    }
    assert groups[..|groups|] == groups;
    return Ok(());
  }

  /**
   * The endpoint: a download or parsing error is returned and nothing is
   * written; otherwise the prices are written.
   */
  method Import(db: Database, fetched: Result<seq<Result<Line, string>>, string>, parseDate: string -> Result<Date, string>,
                parseDecimal: string -> Result<Decimal, string>, failureOf: Date -> Option<DbError>)
    returns (r: Result<(), string>)
    modifies db
    requires db.Valid()
    ensures db.Valid()
    ensures fetched.Err? ==> r == Err(fetched.error) && db.State() == old(db.State())
    ensures fetched.Ok? && Parse(fetched.value, parseDate, parseDecimal).Err? ==>
      r == Err(Parse(fetched.value, parseDate, parseDecimal).error) && db.State() == old(db.State())
    ensures fetched.Ok? && Parse(fetched.value, parseDate, parseDecimal).Ok? ==>
      (db.State(), r) == Written(old(db.State()), Groups(Parse(fetched.value, parseDate, parseDecimal).value), failureOf)
  {
    if fetched.Err? {
      return Err(fetched.error);
    }
    var parsed := ParseLines(fetched.value, parseDate, parseDecimal);
    if parsed.Err? {
      return Err(parsed.error);
    }
    r := Write(db, parsed.value, failureOf);
  }
}
