/** The security validators of src/app/lib/utils/validation.ts. */
module Validation {
  import opened Common
  import opened Text
  import opened Formats
  import Constants

  /** `isValidUUID`: `null`, `undefined` and "" are rejected before the UUID
      pattern is tried. */
  predicate IsValidUuid(value: Option<string>) {
    if value.None? || value.value == "" then false
    else Matches(UuidPattern(), value.value)
  }

  /** A UUID is valid exactly when it is present and has the 8-4-4-4-12 hex form. */
  lemma IsValidUuidIsUuidText(value: Option<string>)
    ensures IsValidUuid(value) <==> value.Some? && IsUuidText(value.value)
  {
    if value.Some? {
      UuidRegexIsUuidText(value.value);
    }
  }

  /** `isValidDate`: "" is rejected, then the `YYYY-MM-DD` pattern, then the
      string must name a real day whose ISO form is the string itself. */
  predicate IsValidDate(dateString: string) {
    if dateString == "" then false
    else if !Matches(DatePattern(), dateString) then false
    else
      DatePatternIsDateText(dateString);
      DateRoundTrips(dateString)
  }

  /** `isValidDate` accepts exactly the RFC 3339 full dates. */
  lemma IsValidDateIsFullDate(dateString: string)
    ensures IsValidDate(dateString) <==> IsFullDate(dateString)
  {
    DatePatternIsDateText(dateString);
    DateCheckIsFullDate(dateString);
  }

  /** The value of a two-digit and of a four-digit string, digit by digit. */
  lemma DecimalValueShort(s: string)
    requires AllDigits(s) && (|s| == 2 || |s| == 4)
    ensures |s| == 2 ==> DecimalValue(s) == (s[0] as int - '0' as int) * 10 + (s[1] as int - '0' as int)
    ensures |s| == 4 ==> DecimalValue(s) == (s[0] as int - '0' as int) * 1000 + (s[1] as int - '0' as int) * 100
                                          + (s[2] as int - '0' as int) * 10 + (s[3] as int - '0' as int)
  {
    assert s[..1][..0] == [];
    if |s| == 4 {
      assert s[..3][..2] == s[..2] && s[..2][..1] == s[..1];
    } else {
      assert s[..2] == s && s[..1] == s[..1];
    }
  }

  /** The fields of a date text whose digits are given one by one. */
  lemma DateFieldsOf(s: string)
    requires IsDateText(s)
    ensures DateFields(s).year == (s[0] as int - '0' as int) * 1000 + (s[1] as int - '0' as int) * 100
                                  + (s[2] as int - '0' as int) * 10 + (s[3] as int - '0' as int)
    ensures DateFields(s).month == (s[5] as int - '0' as int) * 10 + (s[6] as int - '0' as int)
    ensures DateFields(s).day == (s[8] as int - '0' as int) * 10 + (s[9] as int - '0' as int)
  {
    DecimalValueShort(s[..4]);
    DecimalValueShort(s[5..7]);
    DecimalValueShort(s[8..]);
  }

  /** A leap day exists in 2024. */
  lemma IsValidDateLeapDay()
    ensures IsValidDate("2024-02-29")
  {
    FullDateLeapDay();
    IsValidDateIsFullDate("2024-02-29");
  }

  lemma FullDateLeapDay()
    ensures IsFullDate("2024-02-29")
  {
    var s := "2024-02-29";
    assert IsDateText(s) by {
      assert s[..4] == "2024" && s[5..7] == "02" && s[8..] == "29";
    }
    DateFieldsOf(s);
    assert DateFields(s) == CalendarDate(2024, 2, 29);
    assert DaysInMonth(2024, 2) == 29;
  }

  /** No leap day in 2023. */
  lemma IsValidDateNoLeapDay()
    ensures !IsValidDate("2023-02-29")
  {
    FullDateNoLeapDay();
    IsValidDateIsFullDate("2023-02-29");
  }

  lemma FullDateNoLeapDay()
    ensures !IsFullDate("2023-02-29")
  {
    var s := "2023-02-29";
    assert IsDateText(s) by {
      assert s[..4] == "2023" && s[5..7] == "02" && s[8..] == "29";
    }
    DateFieldsOf(s);
    assert DateFields(s) == CalendarDate(2023, 2, 29);
    assert DaysInMonth(2023, 2) == 28;
  }

  /** Month 13 and a one-digit month are rejected. */
  lemma IsValidDateRejectsMonth()
    ensures !IsValidDate("2024-13-01")
    ensures !IsValidDate("2024-1-01")
  {
    IsValidDateIsFullDate("2024-13-01");
    IsValidDateIsFullDate("2024-1-01");
    assert "2024-13-01"[5..7] == "13";
    DecimalValueShort("13");
  }

  predicate IsAngleBracket(c: char) {
    c == '<' || c == '>'
  }

  /** `s.replace(/[<>]/g, "")`: no angle bracket is left. */
  function RemoveAngleBrackets(s: string): (r: string)
    ensures |r| <= |s|
    ensures Utf16Length(r) <= Utf16Length(s)
    ensures forall i :: 0 <= i < |r| ==> !IsAngleBracket(r[i])
  {
    if s == [] then []
    else if IsAngleBracket(s[0]) then RemoveAngleBrackets(s[1..])
    else [s[0]] + RemoveAngleBrackets(s[1..])
  }

  /** Every character other than `<` and `>` is kept, as often as it occurs
      and in its order. */
  lemma {:induction false} RemoveAngleBracketsKeepsOthers(s: string)
    ensures IsSubsequence(RemoveAngleBrackets(s), s)
    ensures forall c :: !IsAngleBracket(c) ==> multiset(RemoveAngleBrackets(s))[c] == multiset(s)[c]
    decreases |s|
  {
    if s != [] {
      RemoveAngleBracketsKeepsOthers(s[1..]);
      assert s == [s[0]] + s[1..];
      var rest := RemoveAngleBrackets(s[1..]);
      if !IsAngleBracket(s[0]) {
        assert ([s[0]] + rest)[1..] == rest;
      } else if rest != [] {
        assert rest[0] != s[0];
      }
    }
  }

  /** The replacement works character by character, so it distributes over
      concatenation. */
  lemma {:induction false} RemoveAngleBracketsAppend(a: string, b: string)
    ensures RemoveAngleBrackets(a + b) == RemoveAngleBrackets(a) + RemoveAngleBrackets(b)
    decreases |a|
  {
    if a != [] {
      var ab := a + b;
      assert ab[0] == a[0];
      assert ab[1..] == a[1..] + b;
      RemoveAngleBracketsAppend(a[1..], b);
      if IsAngleBracket(a[0]) {
        assert RemoveAngleBrackets(ab) == RemoveAngleBrackets(ab[1..]);
        assert RemoveAngleBrackets(a) == RemoveAngleBrackets(a[1..]);
      } else {
        assert RemoveAngleBrackets(ab) == [a[0]] + RemoveAngleBrackets(ab[1..]);
        assert RemoveAngleBrackets(a) == [a[0]] + RemoveAngleBrackets(a[1..]);
      }
    } else {
      assert a + b == b;
    }
  }

  /** A string without angle brackets is left as it is. */
  lemma {:induction false} RemoveAngleBracketsIdentity(s: string)
    requires forall i :: 0 <= i < |s| ==> !IsAngleBracket(s[i])
    ensures RemoveAngleBrackets(s) == s
    decreases |s|
  {
    if s != [] {
      assert !IsAngleBracket(s[0]);
      RemoveAngleBracketsIdentity(s[1..]);
    }
  }

  /** The end index `slice(0, end)` keeps of a string of length `len`: a
      negative end counts from the back, and the result is clamped to the
      string. */
  function SliceEnd(len: nat, end: int): (k: nat)
    ensures k <= len
    ensures 0 <= end <= len ==> k == end
    ensures end > len ==> k == len
    ensures end < 0 ==> k == (if len + end > 0 then len + end else 0)
  {
    if end < 0 then (if len + end > 0 then len + end else 0)
    else if end < len then end
    else len
  }

  /** `input.trim().slice(0, maxLength)`: the part of a string input the
      sanitizer keeps before removing angle brackets. `slice` counts UTF-16
      code units, so the longest prefix of the trimmed text that fits in
      `maxLength` code units is kept. */
  function SanitizedPrefix(s: string, maxLength: int): (p: string)
    ensures p <= Trim(s)
    ensures 0 <= maxLength ==> Utf16Length(p) <= maxLength
    ensures 0 <= maxLength && |p| < |Trim(s)| ==> Utf16Length(Trim(s)[..|p| + 1]) > maxLength
    ensures Utf16Length(Trim(s)) <= maxLength ==> p == Trim(s)
  {
    var t := Trim(s);
    var units := SliceEnd(Utf16Length(t), maxLength);
    Utf16TakeFits(t, units);
    Utf16TakeLongest(t, units);
    Utf16TakeWhole(t, units);
    t[..Utf16Take(t, units)]
  }

  /** `sanitizeString(input, maxLength = 200)`: a non-string gives "";
      otherwise the trimmed input, cut to `maxLength`, with every `<` and `>`
      removed and every other character kept in order. */
  function SanitizeString(input: JsValue, maxLength: int := 200): (r: string)
    ensures !input.JsString? ==> r == ""
    ensures 0 <= maxLength ==> Utf16Length(r) <= maxLength
    ensures forall i :: 0 <= i < |r| ==> !IsAngleBracket(r[i])
  {
    if !input.JsString? then ""
    else RemoveAngleBrackets(SanitizedPrefix(input.s, maxLength))
  }

  /** The white space around a string carries no angle bracket, so trimming
      a bracket-free string leaves it bracket-free. */
  lemma TrimNoBrackets(u: string)
    requires forall i :: 0 <= i < |u| ==> !IsAngleBracket(u[i])
    ensures forall i :: 0 <= i < |Trim(u)| ==> !IsAngleBracket(Trim(u)[i])
  {
    var t := Trim(u);
    var k := LeadingWhitespace(u);
    SliceNoBrackets(u, k, k + |t|);
  }

  /** A piece of a bracket-free string is bracket-free. */
  lemma SliceNoBrackets(u: string, lo: nat, hi: nat)
    requires lo <= hi <= |u|
    requires forall i :: 0 <= i < |u| ==> !IsAngleBracket(u[i])
    ensures forall i :: 0 <= i < hi - lo ==> !IsAngleBracket(u[lo..hi][i])
  {
    forall i | 0 <= i < hi - lo ensures !IsAngleBracket(u[lo..hi][i]) {
      assert u[lo..hi][i] == u[lo + i];
    }
  }

  /** Of a string input, the sanitizer keeps the trimmed, cut text with its
      angle brackets deleted: every other character stays, in order, as
      often as it occurred. */
  lemma SanitizeKeepsOthers(input: JsValue, maxLength: int)
    requires input.JsString?
    ensures var r := SanitizeString(input, maxLength);
      var kept := SanitizedPrefix(input.s, maxLength);
      IsSubsequence(r, kept) && forall c :: !IsAngleBracket(c) ==> multiset(r)[c] == multiset(kept)[c]
  {
    RemoveAngleBracketsKeepsOthers(SanitizedPrefix(input.s, maxLength));
  }

  /** Ordinary text within the length limit, counted in UTF-16 code units,
      comes back trimmed and otherwise unchanged. */
  lemma SanitizeOrdinaryText(s: string, maxLength: int)
    requires Utf16Length(Trim(s)) <= maxLength
    requires forall i :: 0 <= i < |s| ==> !IsAngleBracket(s[i])
    ensures SanitizeString(JsString(s), maxLength) == Trim(s)
  {
    var t := Trim(s);
    TrimNoBrackets(s);
    RemoveAngleBracketsIdentity(t);
  }

  /** The cut counts code units: text made only of characters above U+FFFF
      keeps 100 of them under the default limit of 200. */
  lemma SanitizeCutsCodeUnits(t: string)
    requires |t| >= 100
    requires forall i :: 0 <= i < |t| ==> Utf16Width(t[i]) == 2
    ensures SanitizeString(JsString(t)) == t[..100]
  {
    TrimIdentity(t);
    var p := SanitizedPrefix(t, 200);
    assert p == t[..|p|];
    Utf16LengthUniform(p);
    assert |p| == 100;
    assert forall i :: 0 <= i < |p| ==> !IsAngleBracket(p[i]) by {
      forall i | 0 <= i < |p| ensures !IsAngleBracket(p[i]) {
        assert p[i] == t[i];
      }
    }
    RemoveAngleBracketsIdentity(p);
  }

  /** Removing a bracket can expose white space that `trim` had already passed,
      so the sanitized text is not always trimmed; callers trim again. */
  lemma SanitizeMayLeaveWhitespace()
    ensures SanitizeString(JsString("< a")) == " a"
  {
    var s := "< a";
    assert !IsWhitespace(s[0]) && !IsWhitespace(s[2]);
    TrimIdentity(s);
    assert SanitizedPrefix(s, 200) == s;
    RemoveAngleBracketsIdentity(" a");
    assert s[1..] == " a";
    assert RemoveAngleBrackets(s) == RemoveAngleBrackets(" a");
  }

  /** `isValidNumber(value, min = 0, max = Number.MAX_SAFE_INTEGER)` on a
      number: finite, not NaN and within `[min, max]`. */
  predicate IsValidNumber(value: Num, min: real := 0.0, max: real := Constants.MAX_SAFE_INTEGER as real) {
    IsFinite(value) && value.value >= min && value.value <= max && !value.NaN?
  }

  /** The NaN test is implied by finiteness: a number is valid exactly when
      it is a finite value inside the closed range. */
  lemma IsValidNumberIsInRange(value: Num, min: real, max: real)
    ensures IsValidNumber(value, min, max) <==> value.Finite? && min <= value.value <= max
    ensures value.NaN? || value.Infinity? ==> !IsValidNumber(value, min, max)
  {
  }

  /** `isValidArrayLength(array, min = 0, max = 1000)` on an array. */
  predicate IsValidArrayLength<T>(items: seq<T>, min: int := 0, max: int := 1000) {
    |items| >= min && |items| <= max
  }

  /** The array-length check is a closed range; with the defaults it admits
      every length up to 1000, the empty array included. */
  lemma IsValidArrayLengthRange<T>(items: seq<T>, min: int, max: int)
    ensures IsValidArrayLength(items, min, max) <==> min <= |items| <= max
    ensures IsValidArrayLength(items) <==> |items| <= 1000
  {
  }
}

/** The branded-type guards and assertions of src/app/lib/types/common.ts. */
module TypeGuards {
  import opened Common
  import opened Text
  import opened Formats
  import Validation

  /** `isUUID`: the UUID pattern, with no separate test for "". */
  predicate IsUuid(value: string) {
    Matches(UuidPattern(), value)
  }

  /** `isDateString`: the `YYYY-MM-DD` pattern, then the `Date` round trip. */
  predicate IsDateString(value: string) {
    if !Matches(DatePattern(), value) then false
    else
      DatePatternIsDateText(value);
      DateRoundTrips(value)
  }

  /** `assertUUID`: the value itself, or the error `Invalid UUID: <value>`. */
  function AssertUuid(value: string): (r: Result<string>)
    ensures r.Ok? <==> IsUuid(value)
    ensures r.Ok? ==> r.value == value
    ensures r.Err? ==> r.message == "Invalid UUID: " + value
  {
    if !IsUuid(value) then Err("Invalid UUID: " + value) else Ok(value)
  }

  /** `assertDateString`: the value itself, or the error
      `Invalid date string: <value>`. */
  function AssertDateString(value: string): (r: Result<string>)
    ensures r.Ok? <==> IsDateString(value)
    ensures r.Ok? ==> r.value == value
    ensures r.Err? ==> r.message == "Invalid date string: " + value
  {
    if !IsDateString(value) then Err("Invalid date string: " + value) else Ok(value)
  }

  /** The type guard and the validator agree on every string; they differ
      only in that the validator also accepts `null` and `undefined` (as
      invalid). */
  lemma IsUuidAgrees(value: string)
    ensures IsUuid(value) <==> Validation.IsValidUuid(Some(value))
    ensures IsUuid(value) <==> IsUuidText(value)
  {
    UuidRegexIsUuidText(value);
  }

  /** The date guard and the date validator agree on every string, and both
      accept exactly the RFC 3339 full dates. */
  lemma IsDateStringAgrees(value: string)
    ensures IsDateString(value) <==> Validation.IsValidDate(value)
    ensures IsDateString(value) <==> IsFullDate(value)
  {
    Validation.IsValidDateIsFullDate(value);
    DatePatternIsDateText(value);
    DateCheckIsFullDate(value);
  }

  /** A value that passed an assertion passes it again: assertions are
      idempotent and never alter their input. */
  lemma AssertionsIdempotent(value: string)
    ensures AssertUuid(value).Ok? ==> AssertUuid(AssertUuid(value).value) == AssertUuid(value)
    ensures AssertDateString(value).Ok? ==> AssertDateString(AssertDateString(value).value) == AssertDateString(value)
  {
  }
}
