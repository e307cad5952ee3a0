/**
 * The portfolio id cookie (`web::cookies`): the server hands out the id of
 * the portfolio just created as a cookie, and reads it back from the Cookie
 * header of later requests.
 *
 * The cookie library's parser of one `name=value` segment is a parameter
 * (`parseCookie`), giving the segment's name and value, or nothing when the
 * segment is not a cookie. Ids are Rust's `i32`: written in decimal and read
 * back with `str::parse::<i32>`, both modelled here.
 */
module Cookies {
  import opened Common

  const PortfolioIdName: string := "portfolio-id"

  const CookieDomain: string := "portifolio.lsunsi.com"

  datatype SameSite = Strict | Lax | Unrestricted

  /** A cookie being built: its name and value, and the attributes the builder sets. */
  class Cookie {
    var name: string
    var value: string
    var sameSite: Option<SameSite>
    var domain: Option<string>
    var httpOnly: bool
    var permanent: bool

    /** `Cookie::new`: a name and a value, no attribute set. */
    constructor (name: string, value: string)
      ensures this.name == name && this.value == value
      ensures sameSite.None? && domain.None? && !httpOnly && !permanent
    {
      this.name, this.value := name, value;
      sameSite, domain, httpOnly, permanent := None, None, false, false;
    }

    /** What a browser sends back of this cookie: `name=value`. */
    function Pair(): string
      reads this
    {
      name + "=" + value
    }

    method SetSameSite(s: SameSite)
      modifies this
      ensures sameSite == Some(s)
      ensures name == old(name) && value == old(value) && domain == old(domain)
      ensures httpOnly == old(httpOnly) && permanent == old(permanent)
    {
      sameSite := Some(s);
    }

    method SetDomain(d: string)
      modifies this
      ensures domain == Some(d)
      ensures name == old(name) && value == old(value) && sameSite == old(sameSite)
      ensures httpOnly == old(httpOnly) && permanent == old(permanent)
    {
      domain := Some(d);
    }

    method SetHttpOnly(b: bool)
      modifies this
      ensures httpOnly == b
      ensures name == old(name) && value == old(value) && sameSite == old(sameSite)
      ensures domain == old(domain) && permanent == old(permanent)
    {
      httpOnly := b;
    }

    /** `make_permanent`: the cookie outlives the browser session (the library sets a far expiry). */
    method MakePermanent()
      modifies this
      ensures permanent
      ensures name == old(name) && value == old(value) && sameSite == old(sameSite)
      ensures domain == old(domain) && httpOnly == old(httpOnly)
    {
      permanent := true;
    }
  }

  predicate IsDigit(c: char) {
    '0' <= c <= '9'
  }

  predicate AllDigits(s: string) {
    forall i :: 0 <= i < |s| ==> IsDigit(s[i])
  }

  function DigitChar(d: nat): char
    requires d < 10
  {
    ('0' as int + d) as char
  }

  /** The decimal digits of `n`, most significant first, without leading zeros. */
  function DigitsOf(n: nat): (s: string)
    ensures |s| >= 1 && AllDigits(s)
    ensures s[0] == '0' ==> n == 0
    decreases n
  {
    if n < 10 then [DigitChar(n)] else DigitsOf(n / 10) + [DigitChar(n % 10)]
  }

  /** The number a string of decimal digits denotes. */
  function ValueOf(s: string): nat
    requires AllDigits(s)
  {
    if |s| == 0 then 0 else ValueOf(s[..|s| - 1]) * 10 + (s[|s| - 1] as int - '0' as int)
  }

  lemma {:induction false} ValueOfDigitsOf(n: nat)
    ensures ValueOf(DigitsOf(n)) == n
    decreases n
  {
    if n >= 10 {
      ValueOfDigitsOf(n / 10);
      var s := DigitsOf(n);
      assert s[..|s| - 1] == DigitsOf(n / 10);
    }
  }

  /** `i32::to_string`: an optional minus sign, then the digits. */
  function FormatInt(n: int): (s: string)
    ensures |s| >= 1
    ensures forall i :: 0 <= i < |s| ==> IsDigit(s[i]) || (i == 0 && s[i] == '-')
  {
    if n < 0 then "-" + DigitsOf(-n) else DigitsOf(n)
  }

  /** The number a non-empty string of decimal digits denotes, or nothing. */
  function Unsigned(digits: string): Option<nat> {
    if |digits| == 0 || !AllDigits(digits) then None else Some(ValueOf(digits))
  }

  /**
   * `str::parse::<i32>`: an optional sign, then at least one decimal digit,
   * and a value within the range of `i32`.
   */
  function ParseI32(s: string): (r: Option<int>)
    ensures r.Some? ==> IsI32(r.value)
    ensures r.Some? ==> |s| >= 1 && forall i :: 1 <= i < |s| ==> IsDigit(s[i])
  {
    if |s| == 0 then None
    else
      var magnitude := Unsigned(if s[0] == '-' || s[0] == '+' then s[1..] else s);
      if magnitude.None? then None
      else
        var v: int := if s[0] == '-' then -(magnitude.value as int) else magnitude.value;
        if IsI32(v) then Some(v) else None
  }

  /** Every `i32` reads back as itself from its decimal form. */
  lemma ParseFormatRoundTrip(n: int)
    requires IsI32(n)
    ensures ParseI32(FormatInt(n)) == Some(n)
  {
    var s := FormatInt(n);
    if n < 0 {
      ValueOfDigitsOf(-n);
      assert s[0] == '-' && s[1..] == DigitsOf(-n);
      assert Unsigned(s[1..]) == Some(-n);
    } else {
      ValueOfDigitsOf(n);
      assert s == DigitsOf(n) && IsDigit(s[0]);
      assert Unsigned(s) == Some(n);
    }
  }

  /** `portfolio_id_cookie`: the id's cookie, same-site strict, for the site's domain, hidden from scripts, permanent. */
  method PortfolioIdCookie(id: int) returns (c: Cookie)
    ensures fresh(c)
    ensures c.name == PortfolioIdName && c.value == FormatInt(id)
    ensures c.sameSite == Some(Strict) && c.domain == Some(CookieDomain) && c.httpOnly && c.permanent
    ensures c.Pair() == PortfolioIdName + "=" + FormatInt(id)
  {
    c := new Cookie(PortfolioIdName, FormatInt(id));
    c.SetSameSite(Strict);
    c.SetDomain(CookieDomain);
    c.SetHttpOnly(true);
    c.MakePermanent();
  }

  /** `HeaderValue::to_str` succeeds only on visible ASCII and tabs. */
  predicate Visible(s: string) {
    forall i :: 0 <= i < |s| ==> s[i] == '\t' || (' ' <= s[i] <= '~')
  }

  /** `str::split`: the pieces between the separators, empty pieces included. */
  function Split(s: string, sep: char): (parts: seq<string>)
    ensures |parts| >= 1
    ensures forall i :: 0 <= i < |parts| ==> sep !in parts[i]
  {
    if |s| == 0 then [""]
    else
      var rest := Split(s[1..], sep);
      if s[0] == sep then [""] + rest
      else [[s[0]] + rest[0]] + rest[1..]
  }

  /** The pieces put back together, separated by `sep`. */
  function Join(parts: seq<string>, sep: char): string
    requires |parts| >= 1
  {
    if |parts| == 1 then parts[0] else parts[0] + [sep] + Join(parts[1..], sep)
  }

  /** Splitting loses nothing: joining the pieces gives the string back. */
  lemma {:induction false} JoinSplit(s: string, sep: char)
    ensures Join(Split(s, sep), sep) == s
  {
    if |s| > 0 {
      var rest := Split(s[1..], sep);
      JoinSplit(s[1..], sep);
      if s[0] == sep {
        assert ([""] + rest)[1..] == rest;
        assert s == [s[0]] + s[1..];
      } else {
        var parts := [[s[0]] + rest[0]] + rest[1..];
        if |rest| > 1 {
          assert parts[1..] == rest[1..];
          assert Join(rest, sep) == rest[0] + [sep] + Join(rest[1..], sep);
        }
        assert s == [s[0]] + s[1..];
      }
    }
  }

  /** Pieces without the separator are what splitting their join gives. */
  lemma {:induction false} SplitJoin(parts: seq<string>, sep: char)
    requires |parts| >= 1
    requires forall i :: 0 <= i < |parts| ==> sep !in parts[i]
    ensures Split(Join(parts, sep), sep) == parts
    decreases |parts|, |parts[0]|
  {
    if |parts| == 1 {
      SplitPiece(parts[0], sep);
    } else {
      var tail := Join(parts[1..], sep);
      SplitJoin(parts[1..], sep);
      SplitPrefix(parts[0], [sep] + tail, sep);
      assert parts[0] + [sep] + tail == parts[0] + ([sep] + tail);
      assert ([sep] + tail)[0] == sep && ([sep] + tail)[1..] == tail;
      var r := Split([sep] + tail, sep);
      assert r == [""] + parts[1..];
      assert r[0] == "" && r[1..] == parts[1..];
      assert parts[0] + r[0] == parts[0];
      assert [parts[0]] + parts[1..] == parts;
    }
  }

  /** A piece without the separator splits into itself. */
  lemma {:induction false} SplitPiece(piece: string, sep: char)
    requires sep !in piece
    ensures Split(piece, sep) == [piece]
  {
    if |piece| > 0 {
      SplitPiece(piece[1..], sep);
      assert [piece[0]] + piece[1..] == piece;
    }
  }

  /** A piece without the separator in front of the rest joins the first piece of the rest. */
  lemma {:induction false} SplitPrefix(piece: string, rest: string, sep: char)
    requires sep !in piece
    ensures var r := Split(rest, sep);
      Split(piece + rest, sep) == [piece + r[0]] + r[1..]
  {
    if |piece| > 0 {
      SplitPrefix(piece[1..], rest, sep);
      assert (piece + rest)[1..] == piece[1..] + rest;
      assert [piece[0]] + (piece[1..] + Split(rest, sep)[0]) == piece + Split(rest, sep)[0];
    } else {
      assert piece + rest == rest;
      var r := Split(rest, sep);
      assert piece + r[0] == r[0];
      assert [r[0]] + r[1..] == r;
    }
  }

  /**
   * `segment` is the first one named `portfolio-id`: every segment before it
   * is a cookie of another name.
   */
  predicate FirstMatch(segments: seq<string>, parseCookie: string -> Option<(string, string)>, i: int) {
    && 0 <= i < |segments|
    && parseCookie(segments[i]).Some? && parseCookie(segments[i]).value.0 == PortfolioIdName
    && forall j :: 0 <= j < i ==> parseCookie(segments[j]).Some? && parseCookie(segments[j]).value.0 != PortfolioIdName
  }

  /** The header scan: the first segment named `portfolio-id` decides, and a segment that is not a cookie before it is an error. */
  function FindPortfolioId(segments: seq<string>, parseCookie: string -> Option<(string, string)>): Result<int, ()>
  {
    if |segments| == 0 then Err(())
    else
      match parseCookie(segments[0])
      case None => Err(())
      case Some((name, value)) =>
        if name == PortfolioIdName then
          match ParseI32(value)
          case None => Err(())
          case Some(id) => Ok(id)
        else FindPortfolioId(segments[1..], parseCookie)
  }

  /** The first segment named `portfolio-id` decides: its value read as an `i32`, whatever comes after it. */
  lemma {:induction false} FindFirstMatch(segments: seq<string>, parseCookie: string -> Option<(string, string)>, i: int)
    requires FirstMatch(segments, parseCookie, i)
    ensures var found := ParseI32(parseCookie(segments[i]).value.1);
      FindPortfolioId(segments, parseCookie) == if found.Some? then Ok(found.value) else Err(())
  {
    if i > 0 {
      assert FirstMatch(segments[1..], parseCookie, i - 1) by {
        assert forall j :: 0 <= j < i - 1 ==> segments[1..][j] == segments[j + 1];
      }
      FindFirstMatch(segments[1..], parseCookie, i - 1);
    }
  }

  /** A segment that is not a cookie, before any segment named `portfolio-id`, is an error. */
  lemma {:induction false} FindBadSegment(segments: seq<string>, parseCookie: string -> Option<(string, string)>, i: int)
    requires 0 <= i < |segments| && parseCookie(segments[i]).None?
    requires forall j :: 0 <= j < i ==> parseCookie(segments[j]).Some? && parseCookie(segments[j]).value.0 != PortfolioIdName
    ensures FindPortfolioId(segments, parseCookie) == Err(())
  {
    if i > 0 {
      assert forall j :: 0 <= j < i - 1 ==> segments[1..][j] == segments[j + 1];
      FindBadSegment(segments[1..], parseCookie, i - 1);
    }
  }

  /** An id is found only through the first segment named `portfolio-id`, whose value it is. */
  lemma {:induction false} FindOkHasMatch(segments: seq<string>, parseCookie: string -> Option<(string, string)>)
    requires FindPortfolioId(segments, parseCookie).Ok?
    ensures exists i ::
      FirstMatch(segments, parseCookie, i) && ParseI32(parseCookie(segments[i]).value.1) == Some(FindPortfolioId(segments, parseCookie).value)
  {
    var (name, value) := parseCookie(segments[0]).value;
    if name == PortfolioIdName {
      assert FirstMatch(segments, parseCookie, 0);
    } else {
      FindOkHasMatch(segments[1..], parseCookie);
      var i :| FirstMatch(segments[1..], parseCookie, i)
        && ParseI32(parseCookie(segments[1..][i]).value.1) == Some(FindPortfolioId(segments[1..], parseCookie).value);
      assert FirstMatch(segments, parseCookie, i + 1) by {
        forall j | 0 <= j < i + 1
          ensures parseCookie(segments[j]).Some? && parseCookie(segments[j]).value.0 != PortfolioIdName
        {
          if j > 0 {
            assert segments[j] == segments[1..][j - 1];
          }
        }
      }
    }
  }

  /**
   * `PortfolioId::try_from`: a missing Cookie header, or one that is not
   * visible ASCII, is an error; otherwise the header is split on ';' and
   * scanned. An id found is that of the first `portfolio-id` segment.
   */
  function TryFrom(header: Option<string>, parseCookie: string -> Option<(string, string)>): (r: Result<int, ()>)
    ensures header.None? ==> r.Err?
    ensures header.Some? && !Visible(header.value) ==> r.Err?
    ensures r.Ok? ==> exists i ::
      FirstMatch(Split(header.value, ';'), parseCookie, i) && ParseI32(parseCookie(Split(header.value, ';')[i]).value.1) == Some(r.value)
    ensures r.Ok? ==> IsI32(r.value)
  {
    match header
    case None => Err(())
    case Some(value) =>
      if !Visible(value) then Err(())
      else
        var r := FindPortfolioId(Split(value, ';'), parseCookie);
        if r.Ok? then
          FindOkHasMatch(Split(value, ';'), parseCookie);
          r
        else r
  }

  /** The `name=value` pair of the id's cookie is visible ASCII without a ';'. */
  lemma PairIsOneSegment(id: int)
    ensures var pair := PortfolioIdName + "=" + FormatInt(id);
      ';' !in pair && Visible(pair)
  {
    var pair := PortfolioIdName + "=" + FormatInt(id);
    assert forall i :: |PortfolioIdName| + 1 <= i < |pair| ==> pair[i] == FormatInt(id)[i - |PortfolioIdName| - 1];
    assert forall i :: 0 <= i < |pair| ==> pair[i] != ';';
  }

  /**
   * Round trip: a Cookie header holding only the `name=value` pair of
   * `portfolio_id_cookie(id)` (its `Pair()`, as `PortfolioIdCookie`
   * ensures), read by a cookie parser that reads that pair
   * back, gives `id`.
   */
  lemma CookieRoundTrip(id: int, parseCookie: string -> Option<(string, string)>)
    requires IsI32(id)
    requires parseCookie(PortfolioIdName + "=" + FormatInt(id)) == Some((PortfolioIdName, FormatInt(id)))
    ensures TryFrom(Some(PortfolioIdName + "=" + FormatInt(id)), parseCookie) == Ok(id)
  {
    var header := PortfolioIdName + "=" + FormatInt(id);
    PairIsOneSegment(id);
    SplitPiece(header, ';');
    assert FirstMatch([header], parseCookie, 0);
    FindFirstMatch([header], parseCookie, 0);
    ParseFormatRoundTrip(id);
  }

  /**
   * The same among other cookies: the pair after cookies of other names, and
   * before anything at all, still gives `id`.
   */
  lemma CookieRoundTripAmongOthers(id: int, others: seq<string>, rest: seq<string>, parseCookie: string -> Option<(string, string)>)
    requires IsI32(id)
    requires parseCookie(PortfolioIdName + "=" + FormatInt(id)) == Some((PortfolioIdName, FormatInt(id)))
    requires forall i :: 0 <= i < |others| ==>
      ';' !in others[i] && parseCookie(others[i]).Some? && parseCookie(others[i]).value.0 != PortfolioIdName
    requires forall i :: 0 <= i < |rest| ==> ';' !in rest[i]
    requires Visible(Join(others + [PortfolioIdName + "=" + FormatInt(id)] + rest, ';'))
    ensures TryFrom(Some(Join(others + [PortfolioIdName + "=" + FormatInt(id)] + rest, ';')), parseCookie) == Ok(id)
  {
    var segments := others + [PortfolioIdName + "=" + FormatInt(id)] + rest;
    var header := Join(segments, ';');
    SegmentsSurviveJoin(id, others, rest);
    FindAmongOthers(id, others, rest, parseCookie);
    TryFromScans(header, parseCookie);
  }

  /** Segments without a ';' joined into a header split back into themselves. */
  lemma SegmentsSurviveJoin(id: int, others: seq<string>, rest: seq<string>)
    requires forall i :: 0 <= i < |others| ==> ';' !in others[i]
    requires forall i :: 0 <= i < |rest| ==> ';' !in rest[i]
    ensures var segments := others + [PortfolioIdName + "=" + FormatInt(id)] + rest;
      Split(Join(segments, ';'), ';') == segments
  {
    var segments := others + [PortfolioIdName + "=" + FormatInt(id)] + rest;
    PairIsOneSegment(id);
    forall i | 0 <= i < |segments| ensures ';' !in segments[i] {
      if i > |others| {
        assert segments[i] == rest[i - |others| - 1];
      }
    }
    SplitJoin(segments, ';');
  }

  /** The scan passes over cookies of other names and stops at the id's pair. */
  lemma FindAmongOthers(id: int, others: seq<string>, rest: seq<string>, parseCookie: string -> Option<(string, string)>)
    requires IsI32(id)
    requires parseCookie(PortfolioIdName + "=" + FormatInt(id)) == Some((PortfolioIdName, FormatInt(id)))
    requires forall i :: 0 <= i < |others| ==> parseCookie(others[i]).Some? && parseCookie(others[i]).value.0 != PortfolioIdName
    ensures FindPortfolioId(others + [PortfolioIdName + "=" + FormatInt(id)] + rest, parseCookie) == Ok(id)
  {
    var segments := others + [PortfolioIdName + "=" + FormatInt(id)] + rest;
    assert FirstMatch(segments, parseCookie, |others|) by {
      assert segments[|others|] == PortfolioIdName + "=" + FormatInt(id);
      assert forall j :: 0 <= j < |others| ==> segments[j] == others[j];
    }
    FindFirstMatch(segments, parseCookie, |others|);
    ParseFormatRoundTrip(id);
  }

  /** A visible header is split on ';' and scanned. */
  lemma TryFromScans(header: string, parseCookie: string -> Option<(string, string)>)
    requires Visible(header)
    ensures TryFrom(Some(header), parseCookie) == FindPortfolioId(Split(header, ';'), parseCookie)
  {
  }
}
