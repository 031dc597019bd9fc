/** The anchored regular expressions of the validators, written as patterns of
    fixed-width atoms, and what `Date` does with the strings the date pattern
    accepts. The UUID pattern is the textual form of RFC 4122 section 3 (version
    and variant are not checked); the date check accepts the `full-date` of
    RFC 3339 section 5.6 with the day limits of its section 5.7. */
module Formats {
  import opened Common
  import opened Text

  /** `[0-9a-f]` under the `i` flag. */
  predicate IsHexDigit(c: char) {
    '0' <= c <= '9' || 'a' <= c <= 'f' || 'A' <= c <= 'F'
  }

  /** One position of a fixed-width pattern: a hex digit, `\d`, or a literal. */
  datatype Atom = HexDigit | Digit | Literal(c: char)

  predicate AtomMatches(a: Atom, c: char) {
    match a
    case HexDigit => IsHexDigit(c)
    case Digit => IsDigitChar(c)
    case Literal(x) => c == x
  }

  /** `a{n}` */
  function Repeat(a: Atom, n: nat): (r: seq<Atom>)
    ensures |r| == n && forall i :: 0 <= i < n ==> r[i] == a
  {
    if n == 0 then [] else [a] + Repeat(a, n - 1)
  }

  /** `/^p$/.test(s)`: the pattern consumes the string one atom per character
      and both end together. */
  predicate Matches(p: seq<Atom>, s: string) {
    if p == [] then s == []
    else s != [] && AtomMatches(p[0], s[0]) && Matches(p[1..], s[1..])
  }

  /** A fixed-width pattern matches exactly the strings of its length whose
      every character matches the atom at the same position. */
  lemma {:induction false} MatchesPointwise(p: seq<Atom>, s: string)
    ensures Matches(p, s) <==> |p| == |s| && forall i :: 0 <= i < |s| ==> AtomMatches(p[i], s[i])
    decreases |p|
  {
    if p != [] && s != [] {
      MatchesPointwise(p[1..], s[1..]);
      if |p| == |s| && forall i :: 0 <= i < |s| ==> AtomMatches(p[i], s[i]) {
        forall i | 0 <= i < |s| - 1 ensures AtomMatches(p[1..][i], s[1..][i]) {
          assert AtomMatches(p[i + 1], s[i + 1]);
        }
      }
    }
  }

  /** `/^[0-9a-f]{8}-[0-9a-f]{4}-[0-9a-f]{4}-[0-9a-f]{4}-[0-9a-f]{12}$/i` */
  function UuidPattern(): seq<Atom> {
    Repeat(HexDigit, 8) + [Literal('-')] + Repeat(HexDigit, 4) + [Literal('-')]
    + Repeat(HexDigit, 4) + [Literal('-')] + Repeat(HexDigit, 4) + [Literal('-')]
    + Repeat(HexDigit, 12)
  }

  predicate IsUuidDash(i: int) {
    i == 8 || i == 13 || i == 18 || i == 23
  }

  /** 36 characters, '-' at positions 8, 13, 18 and 23, and a hex digit of
      either case at every other position. */
  predicate IsUuidText(s: string) {
    |s| == 36 && forall i :: 0 <= i < 36 ==> if IsUuidDash(i) then s[i] == '-' else IsHexDigit(s[i])
  }

  lemma UuidPatternPositions()
    ensures |UuidPattern()| == 36
    ensures forall i :: 0 <= i < 36 ==> UuidPattern()[i] == if IsUuidDash(i) then Literal('-') else HexDigit
  {
  }

  /** The UUID regular expression accepts exactly the 8-4-4-4-12 hex form. */
  lemma UuidRegexIsUuidText(s: string)
    ensures Matches(UuidPattern(), s) <==> IsUuidText(s)
  {
    MatchesPointwise(UuidPattern(), s);
    UuidPatternPositions();
    if IsUuidText(s) {
      forall i | 0 <= i < |s| ensures AtomMatches(UuidPattern()[i], s[i]) {
        assert UuidPattern()[i] == if IsUuidDash(i) then Literal('-') else HexDigit;
      }
    }
    if Matches(UuidPattern(), s) {
      forall i | 0 <= i < 36 ensures if IsUuidDash(i) then s[i] == '-' else IsHexDigit(s[i]) {
        assert AtomMatches(UuidPattern()[i], s[i]);
      }
    }
  }

  /** `/^\d{4}-\d{2}-\d{2}$/` */
  function DatePattern(): seq<Atom> {
    Repeat(Digit, 4) + [Literal('-')] + Repeat(Digit, 2) + [Literal('-')] + Repeat(Digit, 2)
  }

  /** `YYYY-MM-DD` with ASCII digits. */
  predicate IsDateText(s: string) {
    |s| == 10 && s[4] == '-' && s[7] == '-'
    && AllDigits(s[..4]) && AllDigits(s[5..7]) && AllDigits(s[8..])
  }

  lemma DatePatternIsDateText(s: string)
    ensures Matches(DatePattern(), s) <==> IsDateText(s)
  {
    MatchesPointwise(DatePattern(), s);
    var p := DatePattern();
    assert |p| == 10;
    assert forall i :: 0 <= i < 10 && i != 4 && i != 7 ==> p[i] == Digit;
    assert p[4] == Literal('-') && p[7] == Literal('-');
    if IsDateText(s) {
      forall i | 0 <= i < 10 ensures AtomMatches(p[i], s[i]) {
        if i < 4 {
          assert s[..4][i] == s[i];
        } else if 4 < i < 7 {
          assert s[5..7][i - 5] == s[i];
        } else if 7 < i {
          assert s[8..][i - 8] == s[i];
        }
      }
    }
    if Matches(DatePattern(), s) {
      assert forall i :: 0 <= i < 10 && i != 4 && i != 7 ==> IsDigitChar(s[i]) by {
        forall i | 0 <= i < 10 && i != 4 && i != 7 ensures IsDigitChar(s[i]) {
          assert AtomMatches(p[i], s[i]);
        }
      }
    }
  }

  /** Gregorian leap years (RFC 3339 section 5.7). */
  predicate IsLeapYear(year: int) {
    year % 4 == 0 && (year % 100 != 0 || year % 400 == 0)
  }

  function DaysInMonth(year: int, month: int): (n: int)
    requires 1 <= month <= 12
    ensures 28 <= n <= 31
  {
    if month == 2 then (if IsLeapYear(year) then 29 else 28)
    else if month == 4 || month == 6 || month == 9 || month == 11 then 30
    else 31
  }

  datatype CalendarDate = CalendarDate(year: int, month: int, day: int)

  /** A day of the proleptic Gregorian calendar with a four-digit year. */
  predicate IsRealDate(d: CalendarDate) {
    0 <= d.year <= 9999 && 1 <= d.month <= 12 && 1 <= d.day <= DaysInMonth(d.year, d.month)
  }

  /** `n` written with exactly `width` digits, zero-padded on the left. */
  function PadDigits(n: nat, width: nat): (r: string)
    requires n < Pow10(width)
    ensures |r| == width && AllDigits(r)
    ensures DecimalValue(r) == n
  {
    if width == 0 then ""
    else
      var prefix := PadDigits(n / 10, width - 1);
      var r := prefix + [DigitChar(n % 10)];
      assert r[..|r| - 1] == prefix;
      r
  }

  /** Reading a digit string and writing it back at the same width gives the
      same string. */
  lemma {:induction false} PadDecimalValue(s: string)
    requires AllDigits(s)
    ensures PadDigits(DecimalValue(s), |s|) == s
    decreases |s|
  {
    if s != [] {
      var prefix := s[..|s| - 1];
      PadDecimalValue(prefix);
      var v := DecimalValue(s);
      assert v / 10 == DecimalValue(prefix);
      assert v % 10 == s[|s| - 1] as int - '0' as int;
      assert s == prefix + [s[|s| - 1]];
    }
  }

  /** The three numbers of a `YYYY-MM-DD` string. */
  function DateFields(s: string): (d: CalendarDate)
    requires IsDateText(s)
    ensures 0 <= d.year < 10000 && 0 <= d.month < 100 && 0 <= d.day < 100
  {
    CalendarDate(DecimalValue(s[..4]), DecimalValue(s[5..7]), DecimalValue(s[8..]))
  }

  /** `new Date(s)` on a string of the date pattern: the date-only ISO form,
      read as a UTC calendar date. A month or a day out of range gives an
      invalid date (`None`). */
  function ParseIsoDate(s: string): (r: Option<CalendarDate>)
    requires IsDateText(s)
    ensures r.Some? ==> IsRealDate(r.value) && r.value == DateFields(s)
  {
    var d := DateFields(s);
    if 1 <= d.month <= 12 && 1 <= d.day <= DaysInMonth(d.year, d.month) then Some(d) else None
  }

  /** `date.toISOString().slice(0, 10)` for a date with a four-digit year. */
  function FormatIsoDate(d: CalendarDate): (r: string)
    requires IsRealDate(d)
    ensures IsDateText(r)
  {
    var r := PadDigits(d.year, 4) + "-" + PadDigits(d.month, 2) + "-" + PadDigits(d.day, 2);
    assert r[..4] == PadDigits(d.year, 4);
    assert r[5..7] == PadDigits(d.month, 2);
    assert r[8..] == PadDigits(d.day, 2);
    r
  }

  /** The check shared by `isValidDate` and `isDateString` once the pattern has
      matched: `new Date(s)` is a valid date whose ISO form is `s` again. */
  predicate DateRoundTrips(s: string)
    requires IsDateText(s)
  {
    match ParseIsoDate(s)
    case None => false
    case Some(d) => FormatIsoDate(d) == s
  }

  /** `full-date` of RFC 3339 (sections 5.6 and 5.7): `YYYY-MM-DD` whose month is
      01 to 12 and whose day exists in that month of that year. */
  predicate IsFullDate(s: string) {
    IsDateText(s)
    && var d := DateFields(s);
    1 <= d.month <= 12 && 1 <= d.day <= DaysInMonth(d.year, d.month)
  }

  /** Every date the parser accepts formats back to the text it came from, so
      the round trip decides nothing beyond the calendar check. */
  lemma ParsedDateRoundTrips(s: string)
    requires IsDateText(s) && ParseIsoDate(s).Some?
    ensures FormatIsoDate(ParseIsoDate(s).value) == s
  {
    var d := ParseIsoDate(s).value;
    PadDecimalValue(s[..4]);
    PadDecimalValue(s[5..7]);
    PadDecimalValue(s[8..]);
    assert s == s[..4] + "-" + s[5..7] + "-" + s[8..];
  }

  /** The pattern test followed by the round trip accepts exactly the RFC 3339
      full dates. */
  lemma DateCheckIsFullDate(s: string)
    ensures (IsDateText(s) && DateRoundTrips(s)) <==> IsFullDate(s)
  {
    if IsFullDate(s) {
      ParsedDateRoundTrips(s);
    }
  }

  /** Writing a real date and reading it back gives the same date. */
  lemma FormatParseRoundTrip(d: CalendarDate)
    requires IsRealDate(d)
    ensures IsFullDate(FormatIsoDate(d))
    ensures ParseIsoDate(FormatIsoDate(d)) == Some(d)
  {
    var s := FormatIsoDate(d);
    assert s[..4] == PadDigits(d.year, 4);
    assert s[5..7] == PadDigits(d.month, 2);
    assert s[8..] == PadDigits(d.day, 2);
    assert DateFields(s) == d;
  }
}
