/** Clue values: the date-based multiplier read from the game title, the
    expected value of a board position, and JavaScript's `parseInt` for the
    printed value. */
module Values {
  import opened Base

  /** A JavaScript number as the clue value holds it: an integer, or NaN. */
  datatype Number = Num(n: int) | NaN

  /** A calendar day; `month` counts from 1. */
  datatype Date = Date(year: int, month: int, day: int)

  /** The first show with doubled clue values, `new Date(2001, 11 - 1, 26)`. */
  const VALUE_DOUBLING_DATE: Date := Date(2001, 11, 26)

  /** `a < b` on two dates at local midnight. */
  predicate Before(a: Date, b: Date)
  {
    a.year < b.year
    || (a.year == b.year && a.month < b.month)
    || (a.year == b.year && a.month == b.month && a.day < b.day)
  }

  type Multiplier = m: int | m == 1 || m == 2 witness 1

  // ---------------------------------------------------------------------
  // TITLE_REGEX = /#\d+ - \w+, (\w+ \d+, \d+)/

  /** Where the capture of a match of TITLE_REGEX at `p` starts: after `#`,
      digits, ` - `, a word and `, `.  Every `\d+` and `\w+` of the pattern
      is followed by a character it cannot match, so each takes its longest
      run and the match is unique. */
  function HeaderEnd(s: string, p: nat): (start: Option<nat>)
    requires p <= |s|
    ensures start.Some? ==> p < |s| && s[p] == '#' && start.value <= |s|
  {
    if !(p < |s| && s[p] == '#') then None
    else
      var d1 := DigitRun(s, p + 1);
      var a := p + 1 + d1;
      if d1 == 0 || !LiteralAt(s, a, " - ") then None
      else
        var w1 := WordRun(s, a + 3);
        var b := a + 3 + w1;
        if w1 == 0 || !LiteralAt(s, b, ", ") then None else Some(b + 2)
  }

  /** Where the capture `(\w+ \d+, \d+)` read from `start` ends; the final
      `\d+` is greedy. */
  function DateEnd(s: string, start: nat): (end: Option<nat>)
    requires start <= |s|
    ensures end.Some? ==> start < end.value <= |s|
  {
    var w2 := WordRun(s, start);
    var c := start + w2;
    if w2 == 0 || !LiteralAt(s, c, " ") then None
    else
      var d2 := DigitRun(s, c + 1);
      var e := c + 1 + d2;
      if d2 == 0 || !LiteralAt(s, e, ", ") then None
      else
        var d3 := DigitRun(s, e + 2);
        if d3 == 0 then None else Some(e + 2 + d3)
  }

  /** The capture group of a match of TITLE_REGEX starting at `p`. */
  function TitleMatchAt(s: string, p: nat): (cap: Option<string>)
    requires p <= |s|
    ensures cap.Some? ==> p < |s| && s[p] == '#'
  {
    match HeaderEnd(s, p)
    case None => None
    case Some(start) =>
      match DateEnd(s, start)
      case None => None
      case Some(end) => Some(s[start..end])
  }

  /** `s.match(TITLE_REGEX)?.[1]`: the leftmost match wins. */
  function TitleCapture(s: string, from: nat := 0): Option<string>
    requires from <= |s|
    decreases |s| - from
  {
    if from == |s| then None
    else match TitleMatchAt(s, from)
      case Some(cap) => Some(cap)
      case None => TitleCapture(s, from + 1)
  }

  /** A title without `#` never matches; in particular the error placeholder
      that replaces a missing title does not. */
  lemma {:induction false} NoHashNoMatch(s: string, from: nat)
    requires from <= |s|
    requires forall q :: from <= q < |s| ==> s[q] != '#'
    ensures TitleCapture(s, from).None?
    decreases |s| - from
  {
    if from < |s| {
      NoHashNoMatch(s, from + 1);
    }
  }

  /** `#`, a digit run up to `a`, ` - `, a word run up to `b` and `, `
      make a header whose capture starts at `b + 2`. */
  lemma HeaderEndOf(s: string, p: nat, a: nat, b: nat)
    requires p < a <= |s| && s[p] == '#'
    requires DigitRun(s, p + 1) == a - p - 1 > 0
    requires LiteralAt(s, a, " - ")
    requires WordRun(s, a + 3) == b - a - 3 > 0
    requires LiteralAt(s, b, ", ")
    ensures HeaderEnd(s, p) == Some(b + 2)
  {
  }

  /** A word run up to `c`, ` `, a digit run up to `e`, `, ` and a digit run
      up to `f` make a capture that ends at `f`. */
  lemma DateEndOf(s: string, start: nat, c: nat, e: nat, f: nat)
    requires start <= c <= |s| && WordRun(s, start) == c - start > 0
    requires LiteralAt(s, c, " ")
    requires DigitRun(s, c + 1) == e - c - 1 > 0
    requires LiteralAt(s, e, ", ")
    requires DigitRun(s, e + 2) == f - e - 2 > 0
    ensures DateEnd(s, start) == Some(f)
  {
  }

  /** `#`, digits up to `a`, ` - `, word characters up to `b` and `, ` are
      a header whose capture starts at `b + 2`. */
  lemma HeaderEndComplete(s: string, p: nat, a: nat, b: nat)
    requires p + 1 < a && a + 3 < b && b + 1 < |s|
    requires s[p] == '#'
    requires forall q :: p + 1 <= q < a ==> IsDigit(s[q])
    requires s[a] == ' ' && s[a + 1] == '-' && s[a + 2] == ' '
    requires forall q :: a + 3 <= q < b ==> IsWordChar(s[q])
    requires s[b] == ',' && s[b + 1] == ' '
    ensures HeaderEnd(s, p) == Some(b + 2)
  {
    DigitRunIs(s, p + 1, a - p - 1);
    TripleAt(s, a, ' ', '-', ' ');
    WordRunIs(s, a + 3, b - a - 3);
    PairAt(s, b, ',', ' ');
    HeaderEndOf(s, p, a, b);
  }

  /** Word characters up to `c`, ` `, digits up to `e`, `, ` and digits up
      to `f`, where the last run stops, are a capture ending at `f`. */
  lemma DateEndComplete(s: string, start: nat, c: nat, e: nat, f: nat)
    requires start < c && c + 1 < e && e + 2 < f <= |s|
    requires forall q :: start <= q < c ==> IsWordChar(s[q])
    requires s[c] == ' '
    requires forall q :: c + 1 <= q < e ==> IsDigit(s[q])
    requires s[e] == ',' && s[e + 1] == ' '
    requires forall q :: e + 2 <= q < f ==> IsDigit(s[q])
    requires f == |s| || !IsDigit(s[f])
    ensures DateEnd(s, start) == Some(f)
  {
    WordRunIs(s, start, c - start);
    CharAt(s, c, ' ');
    DigitRunIs(s, c + 1, e - c - 1);
    PairAt(s, e, ',', ' ');
    DigitRunIs(s, e + 2, f - e - 2);
    DateEndOf(s, start, c, e, f);
  }

  /** A header found at `p` and a capture read from where it ends make
      the match at `p`. */
  lemma TitleMatchOf(s: string, p: nat, b: nat, f: nat)
    requires p <= b + 2 <= f <= |s|
    requires HeaderEnd(s, p) == Some(b + 2) && DateEnd(s, b + 2) == Some(f)
    ensures TitleMatchAt(s, p) == Some(s[b + 2..f])
  {
  }

  /** A position without `#` does not start a match, so the search moves on. */
  lemma TitleCaptureStep(s: string, from: nat)
    requires from < |s| && s[from] != '#'
    ensures TitleCapture(s, from) == TitleCapture(s, from + 1)
  {
    assert TitleMatchAt(s, from).None?;
  }

  /** Positions without `#` never start a match, so the search skips them. */
  lemma {:induction false} TitleCaptureSkips(s: string, from: nat, p: nat)
    requires from <= p <= |s|
    requires forall q :: from <= q < p ==> s[q] != '#'
    ensures TitleCapture(s, from) == TitleCapture(s, p)
    decreases p - from
  {
    if from < p {
      TitleCaptureStep(s, from);
      TitleCaptureSkips(s, from + 1, p);
    }
  }

  /** The search reaches the first `#`: when the pattern matches there, that
      is the capture `match` returns. */
  lemma TitleCaptureAtFirstHash(s: string, from: nat, p: nat)
    requires from <= p < |s|
    requires forall q :: from <= q < p ==> s[q] != '#'
    requires TitleMatchAt(s, p).Some?
    ensures TitleCapture(s, from) == TitleMatchAt(s, p)
  {
    TitleCaptureSkips(s, from, p);
  }

  /** The show number `3966` and the weekday `Monday` of the archive's title
      `Show #3966 - Monday, November 26, 2001`. */
  lemma ShowTitleNumber()
    ensures forall q :: 6 <= q < 10 ==> IsDigit("Show #3966 - Monday, November 26, 2001"[q])
  {
  }

  lemma ShowTitleWeekday()
    ensures forall q :: 13 <= q < 19 ==> IsWordChar("Show #3966 - Monday, November 26, 2001"[q])
  {
  }

  /** The header of that title ends at the `N` of the month. */
  lemma ShowTitleHeader()
    ensures HeaderEnd("Show #3966 - Monday, November 26, 2001", 5) == Some(21)
  {
    ShowTitleNumber();
    ShowTitleWeekday();
    HeaderEndComplete("Show #3966 - Monday, November 26, 2001", 5, 10, 19);
  }

  /** Its capture runs from there to the end of the year. */
  lemma ShowTitleDate()
    ensures DateEnd("Show #3966 - Monday, November 26, 2001", 21) == Some(38)
  {
    var s := "Show #3966 - Monday, November 26, 2001";
    assert forall q :: 21 <= q < 29 ==> IsWordChar(s[q]);
    assert forall q :: 30 <= q < 32 ==> IsDigit(s[q]);
    assert forall q :: 34 <= q < 38 ==> IsDigit(s[q]);
    DateEndComplete(s, 21, 29, 32, 38);
  }

  /** `Show ` holds no `#`, so the search starts looking at position 5. */
  lemma ShowTitlePrefix()
    ensures TitleCapture("Show #3966 - Monday, November 26, 2001")
         == TitleCapture("Show #3966 - Monday, November 26, 2001", 5)
  {
    var s := "Show #3966 - Monday, November 26, 2001";
    assert s[0] == 'S' && s[1] == 'h' && s[2] == 'o' && s[3] == 'w' && s[4] == ' ';
    TitleCaptureSkips(s, 0, 5);
  }

  /** The text between is the date. */
  lemma ShowTitleCapture()
    ensures "Show #3966 - Monday, November 26, 2001"[21..38] == "November 26, 2001"
  {
  }

  /** The archive's own title matches, and the capture is the date. */
  lemma ShowTitleMatches()
    ensures TitleCapture("Show #3966 - Monday, November 26, 2001") == Some("November 26, 2001")
  {
    var s := "Show #3966 - Monday, November 26, 2001";
    ShowTitleHeader();
    ShowTitleDate();
    TitleMatchOf(s, 5, 19, 38);
    ShowTitleCapture();
    ShowTitlePrefix();
  }

  lemma ErrorPlaceholderDoesNotMatch()
    ensures TitleCapture(ERROR_PLACEHOLDER).None?
  {
    NoHashNoMatch(ERROR_PLACEHOLDER, 0);
  }

  /** getClueValueMultiplier: None is the thrown "could not parse title".
      `parseDate` stands for `Date.parse` on the captured text; None is an
      Invalid Date, which compares false and so gives 2. */
  function ClueValueMultiplier(title: string, parseDate: string -> Option<Date>): (r: Option<Multiplier>)
    ensures r.None? <==> TitleCapture(title).None?
    ensures r == Some(1) <==>
              TitleCapture(title).Some? && parseDate(TitleCapture(title).value).Some?
              && Before(parseDate(TitleCapture(title).value).value, VALUE_DOUBLING_DATE)
  {
    match TitleCapture(title)
    case None => None
    case Some(cap) =>
      match parseDate(cap)
      case Some(date) => if Before(date, VALUE_DOUBLING_DATE) then Some(1) else Some(2)
      case None => Some(2)
  }

  /** The cut-over day itself already has doubled values; the day before does not. */
  lemma CutoverDayIsDoubled()
    ensures !Before(VALUE_DOUBLING_DATE, VALUE_DOUBLING_DATE)
    ensures Before(Date(2001, 11, 25), VALUE_DOUBLING_DATE)
  {
  }

  // ---------------------------------------------------------------------

  /** getExpectedClueValue */
  function ExpectedClueValue(i: int, round: int, multiplier: Multiplier): int
  {
    100 * (i + 1) * (round + 1) * multiplier
  }

  /** On a standard board (rows 0..4, rounds 0 and 1) the expected value is
      positive and at most 2000. */
  lemma ExpectedClueValueBounds(i: nat, round: nat, m: Multiplier)
    requires i < 5 && round < 2
    ensures 0 < ExpectedClueValue(i, round, m) <= 2000
  {
    var step := 100 * (i + 1);
    assert 100 <= step <= 500;
    var scaled := step * (round + 1);
    assert step <= scaled <= 2 * step;
    assert scaled <= scaled * m <= 2 * scaled;
  }

  // ---------------------------------------------------------------------
  // parseInt(string) with no radix

  /** StrWhiteSpaceChar: the white space and line terminators trimmed first. */
  predicate IsJsSpace(c: char)
  {
    var u := c as int;
    (0x09 <= u <= 0x0D) || u == 0x20 || u == 0xA0 || u == 0x1680 || (0x2000 <= u <= 0x200A)
    || u == 0x2028 || u == 0x2029 || u == 0x202F || u == 0x205F || u == 0x3000 || u == 0xFEFF
  }

  function TrimStart(s: string): (t: string)
    ensures |t| <= |s|
    ensures t == s[|s| - |t|..]
    ensures |t| > 0 ==> !IsJsSpace(t[0])
    ensures forall q :: 0 <= q < |s| - |t| ==> IsJsSpace(s[q])
  {
    if s != [] && IsJsSpace(s[0]) then
      var t := TrimStart(s[1..]);
      assert forall q :: 1 <= q < |s| ==> s[q] == s[1..][q - 1];
      t
    else s
  }

  predicate IsRadixDigit(c: char, hex: bool)
  {
    IsDigit(c) || (hex && (('a' <= c <= 'f') || ('A' <= c <= 'F')))
  }

  function DigitValue(c: char): nat
  {
    if IsDigit(c) then c as nat - '0' as nat
    else if 'a' <= c <= 'f' then c as nat - 'a' as nat + 10
    else if 'A' <= c <= 'F' then c as nat - 'A' as nat + 10
    else 0
  }

  /** The length of the longest prefix of `s` made of digits of the radix. */
  function DigitPrefix(s: string, hex: bool): (n: nat)
    ensures n <= |s|
    ensures forall q :: 0 <= q < n ==> IsRadixDigit(s[q], hex)
    ensures n < |s| ==> !IsRadixDigit(s[n], hex)
  {
    if s != [] && IsRadixDigit(s[0], hex) then 1 + DigitPrefix(s[1..], hex) else 0
  }

  /** The mathematical value of a digit string. */
  function DigitsValue(ds: string, radix: nat): nat
  {
    if ds == [] then 0
    else DigitsValue(ds[..|ds| - 1], radix) * radix + DigitValue(ds[|ds| - 1])
  }

  /** The longest run of digits at the start of `body`; no digit at all is NaN. */
  function ParseDigits(body: string, hex: bool): Number
  {
    var n := DigitPrefix(body, hex);
    if n == 0 then NaN else Num(DigitsValue(body[..n], if hex then 16 else 10))
  }

  /** An optional `0x` or `0X` prefix selects radix 16. */
  function ParseUnsigned(u: string): Number
  {
    if |u| >= 2 && u[0] == '0' && (u[1] == 'x' || u[1] == 'X') then ParseDigits(u[2..], true)
    else ParseDigits(u, false)
  }

  function Negate(v: Number): Number
  {
    match v
    case NaN => NaN
    case Num(n) => Num(-n)
  }

  /** Text that does not start with white space is not trimmed. */
  lemma TrimStartNoSpace(s: string)
    requires s == [] || !IsJsSpace(s[0])
    ensures TrimStart(s) == s
  {
  }

  /** Leading white space, an optional sign, an optional `0x` prefix, then
      the longest run of digits. */
  function ParseInt(s: string): Number
  {
    var t := TrimStart(s);
    if |t| > 0 && t[0] == '-' then Negate(ParseUnsigned(t[1..]))
    else if |t| > 0 && t[0] == '+' then ParseUnsigned(t[1..])
    else ParseUnsigned(t)
  }

  lemma {:induction false} DigitPrefixAll(ds: string, hex: bool)
    requires forall q :: 0 <= q < |ds| ==> IsRadixDigit(ds[q], hex)
    ensures DigitPrefix(ds, hex) == |ds|
  {
    if ds != [] {
      DigitPrefixAll(ds[1..], hex);
    }
  }

  /** A string of decimal digits, not starting with `0x`, parses to its value. */
  lemma ParseUnsignedDigits(ds: string)
    requires |ds| > 0 && forall q :: 0 <= q < |ds| ==> IsDigit(ds[q])
    ensures ParseUnsigned(ds) == Num(DigitsValue(ds, 10))
  {
    assert !(|ds| >= 2 && (ds[1] == 'x' || ds[1] == 'X'));
    DigitPrefixAll(ds, false);
    assert ds[..|ds|] == ds;
  }

  /** A non-empty string of decimal digits parses to its value; the empty
      string, or one starting with anything but space, sign or digit, is NaN. */
  lemma ParseIntDigits(ds: string)
    requires forall q :: 0 <= q < |ds| ==> IsDigit(ds[q])
    ensures ds == [] ==> ParseInt(ds) == NaN
    ensures ds != [] ==> ParseInt(ds) == Num(DigitsValue(ds, 10))
  {
    if ds != [] {
      assert !IsJsSpace(ds[0]) && ds[0] != '-' && ds[0] != '+';
      TrimStartNoSpace(ds);
      assert ParseInt(ds) == ParseUnsigned(ds);
      ParseUnsignedDigits(ds);
    }
  }

  lemma ParseIntNoDigit(s: string)
    requires s != [] && !IsJsSpace(s[0]) && !IsDigit(s[0]) && s[0] != '-' && s[0] != '+'
    ensures ParseInt(s) == NaN
  {
    TrimStartNoSpace(s);
  }

  /** The printed value is not guaranteed to be non-negative: a leading minus
      sign before the digits is accepted and negates their value. */
  lemma ParseIntNegative(ds: string)
    requires |ds| > 0 && forall q :: 0 <= q < |ds| ==> IsDigit(ds[q])
    ensures ParseInt(['-'] + ds) == Negate(ParseInt(ds))
    ensures ParseInt(ds).Num? && ParseInt(ds).n >= 0
  {
    var s := ['-'] + ds;
    assert s[0] == '-' && s[1..] == ds;
    assert !IsJsSpace(s[0]);
    TrimStartNoSpace(s);
    assert ParseInt(s) == Negate(ParseUnsigned(ds));
    ParseIntDigits(ds);
    ParseUnsignedDigits(ds);
  }
}
