/**
 * What the CSV importers have in common: every line is parsed in turn and
 * the first bad line aborts the whole import with its message; a parsed
 * line lands in one of two lists, or is skipped.
 *
 * The CSV reader and the date and decimal parsers are not modelled: a line
 * comes from the reader already deserialised or as the reader's error
 * message, and the parsers are function parameters returning either a value
 * or an error message.
 */
module Lines {
  import opened Common

  /** All lines parsed, in order; the first line that fails decides the error. */
  function ParseEach<L, T>(lines: seq<L>, parseLine: L -> Result<T, string>): Result<seq<T>, string> {
    if |lines| == 0 then Ok([])
    else match ParseEach(lines[..|lines| - 1], parseLine)
      case Err(e) => Err(e)
      case Ok(xs) =>
        match parseLine(lines[|lines| - 1])
        case Err(e) => Err(e)
        case Ok(x) => Ok(xs + [x])
  }

  /** Parsing succeeds exactly when every line does, and then gives each line's value in order. */
  lemma {:induction false} ParseEachOk<L, T>(lines: seq<L>, parseLine: L -> Result<T, string>)
    ensures ParseEach(lines, parseLine).Ok? <==> forall i :: 0 <= i < |lines| ==> parseLine(lines[i]).Ok?
    ensures ParseEach(lines, parseLine).Ok? ==>
      && |ParseEach(lines, parseLine).value| == |lines|
      && forall i :: 0 <= i < |lines| ==> ParseEach(lines, parseLine).value[i] == parseLine(lines[i]).value
  {
    if |lines| > 0 {
      var front := lines[..|lines| - 1];
      ParseEachOk(front, parseLine);
      assert forall i :: 0 <= i < |front| ==> front[i] == lines[i];
    }
  }

  /** The error is that of the first bad line. */
  lemma {:induction false} ParseEachFirstError<L, T>(lines: seq<L>, parseLine: L -> Result<T, string>, i: nat)
    requires i < |lines| && parseLine(lines[i]).Err?
    requires forall j :: 0 <= j < i ==> parseLine(lines[j]).Ok?
    ensures ParseEach(lines, parseLine) == Err(parseLine(lines[i]).error)
  {
    var front := lines[..|lines| - 1];
    if i < |front| {
      assert forall j :: 0 <= j <= i ==> front[j] == lines[j];
      ParseEachFirstError(front, parseLine, i);
    } else {
      ParseEachOk(front, parseLine);
      assert forall j :: 0 <= j < |front| ==> front[j] == lines[j];
    }
  }

  /** Once a prefix fails, so does the whole input, with the same error. */
  lemma {:induction false} ParseEachErrorSticks<L, T>(lines: seq<L>, parseLine: L -> Result<T, string>, n: nat)
    requires n <= |lines| && ParseEach(lines[..n], parseLine).Err?
    ensures ParseEach(lines, parseLine) == ParseEach(lines[..n], parseLine)
    decreases |lines| - n
  {
    if n < |lines| {
      assert lines[..n + 1][..n] == lines[..n];
      ParseEachErrorSticks(lines, parseLine, n + 1);
    } else {
      assert lines[..n] == lines;
    }
  }

  /** Parsing two runs of lines one after the other: the first error wins, otherwise the values are concatenated. */
  lemma {:induction false} ParseEachAppend<L, T>(a: seq<L>, b: seq<L>, parseLine: L -> Result<T, string>)
    ensures ParseEach(a + b, parseLine)
         == match ParseEach(a, parseLine)
            case Err(e) => Err(e)
            case Ok(xs) => (match ParseEach(b, parseLine) case Err(e) => Err(e) case Ok(ys) => Ok(xs + ys))
  {
    if |b| == 0 {
      assert a + b == a;
      if ParseEach(a, parseLine).Ok? {
        assert ParseEach(a, parseLine).value + [] == ParseEach(a, parseLine).value;
      }
    } else {
      var front := b[..|b| - 1];
      assert (a + b)[..|a + b| - 1] == a + front;
      assert (a + b)[|a + b| - 1] == b[|b| - 1];
      ParseEachAppend(a, front, parseLine);
      if ParseEach(a, parseLine).Ok? && ParseEach(front, parseLine).Ok? && parseLine(b[|b| - 1]).Ok? {
        var xs, ys, y := ParseEach(a, parseLine).value, ParseEach(front, parseLine).value, parseLine(b[|b| - 1]).value;
        assert xs + ys + [y] == xs + (ys + [y]);
      }
    }
  }

  /** One step of a parse loop: the prefix grows by one line. */
  lemma ParseEachStep<L, T>(lines: seq<L>, parseLine: L -> Result<T, string>, i: nat)
    requires i < |lines|
    ensures ParseEach(lines[..i + 1], parseLine)
         == match ParseEach(lines[..i], parseLine)
            case Err(e) => Err(e)
            case Ok(xs) => (match parseLine(lines[i]) case Err(e) => Err(e) case Ok(x) => Ok(xs + [x]))
  {
    assert lines[..i + 1][..i] == lines[..i];
  }

  /** A line that goes to the first (ETF) list or to the second (treasury) list. */
  datatype Classified<E, B> = First(first: E) | Second(second: B)

  function Firsts<E, B>(cs: seq<Classified<E, B>>): seq<E> {
    if |cs| == 0 then []
    else Firsts(cs[..|cs| - 1]) + (if cs[|cs| - 1].First? then [cs[|cs| - 1].first] else [])
  }

  function Seconds<E, B>(cs: seq<Classified<E, B>>): seq<B> {
    if |cs| == 0 then []
    else Seconds(cs[..|cs| - 1]) + (if cs[|cs| - 1].Second? then [cs[|cs| - 1].second] else [])
  }

  /** Every classified line lands in exactly one of the two lists. */
  lemma {:induction false} ClassifiedSizes<E, B>(cs: seq<Classified<E, B>>)
    ensures |Firsts(cs)| + |Seconds(cs)| == |cs|
  {
    if |cs| > 0 {
      ClassifiedSizes(cs[..|cs| - 1]);
    }
  }

  /** The lists keep input order: a first-list element is the value of some line, and the same for the second. */
  lemma {:induction false} ClassifiedOrigins<E, B>(cs: seq<Classified<E, B>>)
    ensures forall k :: 0 <= k < |Firsts(cs)| ==> exists i :: 0 <= i < |cs| && cs[i] == First(Firsts(cs)[k])
    ensures forall k :: 0 <= k < |Seconds(cs)| ==> exists i :: 0 <= i < |cs| && cs[i] == Second(Seconds(cs)[k])
  {
    if |cs| > 0 {
      var front := cs[..|cs| - 1];
      ClassifiedOrigins(front);
      forall k | 0 <= k < |Firsts(cs)| ensures exists i :: 0 <= i < |cs| && cs[i] == First(Firsts(cs)[k]) {
        if k < |Firsts(front)| {
          assert Firsts(cs)[k] == Firsts(front)[k];
          var i :| 0 <= i < |front| && front[i] == First(Firsts(front)[k]);
          assert cs[i] == front[i];
        } else {
          assert cs[|cs| - 1] == First(Firsts(cs)[k]);
        }
      }
      forall k | 0 <= k < |Seconds(cs)| ensures exists i :: 0 <= i < |cs| && cs[i] == Second(Seconds(cs)[k]) {
        if k < |Seconds(front)| {
          assert Seconds(cs)[k] == Seconds(front)[k];
          var i :| 0 <= i < |front| && front[i] == Second(Seconds(front)[k]);
          assert cs[i] == front[i];
        } else {
          assert cs[|cs| - 1] == Second(Seconds(cs)[k]);
        }
      }
    } else {
      assert Firsts(cs) == [] && Seconds(cs) == [];
    }
  }

  /**
   * A parse that sends every line to one of two lists: both lists, in input
   * order, or the first bad line's message, or `empty` when there were no
   * lines at all.
   */
  function ParseSplit<L, E, B>(lines: seq<L>, parseLine: L -> Result<Classified<E, B>, string>, empty: string)
    : Result<(seq<E>, seq<B>), string>
  {
    match ParseEach(lines, parseLine)
    case Err(e) => Err(e)
    case Ok(cs) =>
      if |Firsts(cs)| + |Seconds(cs)| == 0 then Err(empty)
      else Ok((Firsts(cs), Seconds(cs)))
  }

  /**
   * The split parses exactly when there is at least one line and every line
   * parses; then every line is in exactly one of the lists, each list in
   * input order. No lines is the `empty` error.
   */
  lemma ParseSplitOutcome<L, E, B>(lines: seq<L>, parseLine: L -> Result<Classified<E, B>, string>, empty: string)
    ensures ParseSplit(lines, parseLine, empty).Ok? <==>
      |lines| > 0 && forall i :: 0 <= i < |lines| ==> parseLine(lines[i]).Ok?
    ensures |lines| == 0 ==> ParseSplit(lines, parseLine, empty) == Err(empty)
    ensures ParseSplit(lines, parseLine, empty).Ok? ==>
      var cs := seq(|lines|, i requires 0 <= i < |lines| => parseLine(lines[i]).value);
      && ParseSplit(lines, parseLine, empty).value == (Firsts(cs), Seconds(cs))
      && |Firsts(cs)| + |Seconds(cs)| == |lines|
  {
    ParseEachOk(lines, parseLine);
    var r := ParseEach(lines, parseLine);
    if r.Ok? {
      ClassifiedSizes(r.value);
      if forall i :: 0 <= i < |lines| ==> parseLine(lines[i]).Ok? {
        var cs := seq(|lines|, i requires 0 <= i < |lines| => parseLine(lines[i]).value);
        assert r.value == cs;
      }
    }
  }

  /** The split fails with the message of the first bad line, however many lines follow it. */
  lemma ParseSplitFirstError<L, E, B>(lines: seq<L>, parseLine: L -> Result<Classified<E, B>, string>, empty: string, i: nat)
    requires i < |lines| && parseLine(lines[i]).Err?
    requires forall j :: 0 <= j < i ==> parseLine(lines[j]).Ok?
    ensures ParseSplit(lines, parseLine, empty) == Err(parseLine(lines[i]).error)
  {
    ParseEachFirstError(lines, parseLine, i);
  }

  /** The lines that were not skipped, in order. */
  function Kept<T>(xs: seq<Option<T>>): seq<T> {
    if |xs| == 0 then []
    else Kept(xs[..|xs| - 1]) + (if xs[|xs| - 1].Some? then [xs[|xs| - 1].value] else [])
  }

  lemma {:induction false} KeptAppend<T>(xs: seq<Option<T>>, ys: seq<Option<T>>)
    ensures Kept(xs + ys) == Kept(xs) + Kept(ys)
  {
    if |ys| == 0 {
      assert xs + ys == xs;
    } else {
      var front := ys[..|ys| - 1];
      assert (xs + ys)[..|xs + ys| - 1] == xs + front;
      assert (xs + ys)[|xs + ys| - 1] == ys[|ys| - 1];
      KeptAppend(xs, front);
    }
  }

  /** All lines parsed, keeping the values of the lines not skipped; the first line that fails decides the error. */
  function ParseKept<L, T>(lines: seq<L>, parseLine: L -> Result<Option<T>, string>): Result<seq<T>, string> {
    match ParseEach(lines, parseLine)
    case Err(e) => Err(e)
    case Ok(xs) => Ok(Kept(xs))
  }

  /** A skipped line may be dropped, wherever it stands, without changing the outcome. */
  lemma ParseKeptSkip<L, T>(before: seq<L>, line: L, after: seq<L>, parseLine: L -> Result<Option<T>, string>)
    requires parseLine(line) == Ok(None)
    ensures ParseKept(before + [line] + after, parseLine) == ParseKept(before + after, parseLine)
  {
    var one := [line];
    var skipped: seq<Option<T>> := [None];
    assert ParseEach(one, parseLine) == Ok(skipped) by {
      assert one[..0] == [] && one[0] == line;
      assert [] + skipped == skipped;
    }
    var a, b := ParseEach(before, parseLine), ParseEach(after, parseLine);
    if a.Err? {
      assert ParseEach(before + one + after, parseLine) == Err(a.error) by {
        ParseEachAppend(before, one, parseLine);
        ParseEachAppend(before + one, after, parseLine);
      }
      assert ParseEach(before + after, parseLine) == Err(a.error) by {
        ParseEachAppend(before, after, parseLine);
      }
    } else if b.Err? {
      assert ParseEach(before + one + after, parseLine) == Err(b.error) by {
        ParseEachAppend(before, one, parseLine);
        ParseEachAppend(before + one, after, parseLine);
      }
      assert ParseEach(before + after, parseLine) == Err(b.error) by {
        ParseEachAppend(before, after, parseLine);
      }
    } else {
      assert ParseEach(before + one + after, parseLine) == Ok(a.value + skipped + b.value) by {
        ParseEachAppend(before, one, parseLine);
        ParseEachAppend(before + one, after, parseLine);
      }
      assert ParseEach(before + after, parseLine) == Ok(a.value + b.value) by {
        ParseEachAppend(before, after, parseLine);
      }
      assert Kept(a.value + skipped + b.value) == Kept(a.value + b.value) by {
        assert Kept(skipped) == [] by {
          assert skipped[..0] == [];
        }
        KeptAppend(a.value + skipped, b.value);
        KeptAppend(a.value, skipped);
        KeptAppend(a.value, b.value);
      }
    }
  }

  /** Every kept value is some line's, and as many are kept as lines not skipped. */
  lemma {:induction false} KeptOrigins<T>(xs: seq<Option<T>>)
    ensures forall k :: 0 <= k < |Kept(xs)| ==> exists i :: 0 <= i < |xs| && xs[i] == Some(Kept(xs)[k])
    ensures |Kept(xs)| <= |xs|
    ensures (forall i :: 0 <= i < |xs| ==> xs[i].Some?) ==> |Kept(xs)| == |xs|
  {
    if |xs| > 0 {
      var front := xs[..|xs| - 1];
      KeptOrigins(front);
      assert forall i :: 0 <= i < |front| ==> front[i] == xs[i];
      forall k | 0 <= k < |Kept(xs)| ensures exists i :: 0 <= i < |xs| && xs[i] == Some(Kept(xs)[k]) {
        if k < |Kept(front)| {
          assert Kept(xs)[k] == Kept(front)[k];
          var i :| 0 <= i < |front| && front[i] == Some(Kept(front)[k]);
          assert xs[i] == front[i];
        } else {
          assert xs[|xs| - 1] == Some(Kept(xs)[k]);
        }
      }
    } else {
      assert Kept(xs) == [];
    }
  }

  /**
   * The kept parse succeeds exactly when every line parses; then it holds the
   * values of the lines not skipped, in input order, each the value of some
   * line.
   */
  lemma ParseKeptOutcome<L, T>(lines: seq<L>, parseLine: L -> Result<Option<T>, string>)
    ensures ParseKept(lines, parseLine).Ok? <==> forall i :: 0 <= i < |lines| ==> parseLine(lines[i]).Ok?
    ensures ParseKept(lines, parseLine).Ok? ==>
      var xs := seq(|lines|, i requires 0 <= i < |lines| => parseLine(lines[i]).value);
      && ParseKept(lines, parseLine).value == Kept(xs)
      && |Kept(xs)| <= |lines|
      && forall k :: 0 <= k < |Kept(xs)| ==> exists i :: 0 <= i < |lines| && parseLine(lines[i]) == Ok(Some(Kept(xs)[k]))
  {
    ParseEachOk(lines, parseLine);
    var r := ParseEach(lines, parseLine);
    if r.Ok? {
      var xs := seq(|lines|, i requires 0 <= i < |lines| => parseLine(lines[i]).value);
      assert r.value == xs;
      KeptOrigins(xs);
    }
  }

  /** `str::replace(",", ".")`: every comma becomes a dot, as the treasury price files use a decimal comma. */
  function CommaToDot(s: string): (r: string)
    ensures |r| == |s| && ',' !in r
    ensures forall i :: 0 <= i < |s| ==> r[i] == if s[i] == ',' then '.' else s[i]
  {
    seq(|s|, i requires 0 <= i < |s| => if s[i] == ',' then '.' else s[i])
  }
}
