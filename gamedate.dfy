/**
 * `format_datetime` of the score download scripts: parse a game date with the pattern
 * `%Y-%m-%dT%H:%M:%SZ` and print it back with `%Y-%m-%d %H:%M:%S`.
 *
 * The parse reads the six numeric fields and rejects out-of-range values the way building a
 * datetime does (month 1..12, a day that exists in that month, hour < 24, minute and second
 * < 60, year >= 1); the print writes each field zero-padded. That the result is the input
 * with its `T` turned into a space and its `Z` dropped is then a theorem, not the definition.
 */
module GameDate {
  import opened Options

  datatype DateTime = DateTime(year: nat, month: nat, day: nat, hour: nat, minute: nat, second: nat)

  predicate IsDigit(c: char) {
    '0' <= c <= '9'
  }

  predicate AllDigits(s: string) {
    forall i | 0 <= i < |s| :: IsDigit(s[i])
  }

  function DigitValue(c: char): nat
    requires IsDigit(c)
  {
    c as int - '0' as int
  }

  function DigitChar(d: nat): (c: char)
    requires d < 10
    ensures IsDigit(c) && DigitValue(c) == d
  {
    ('0' as int + d) as char
  }

  /** The number the decimal digits `s` denote. */
  function Number(s: string): nat
    requires AllDigits(s)
  {
    if s == [] then 0 else Number(s[..|s| - 1]) * 10 + DigitValue(s[|s| - 1])
  }

  /** `n` written with exactly `width` decimal digits, zero-padded on the left. */
  function Padded(n: nat, width: nat): (s: string)
    ensures |s| == width && AllDigits(s)
  {
    if width == 0 then [] else Padded(n / 10, width - 1) + [DigitChar(n % 10)]
  }

  function Pow10(k: nat): (p: nat)
    ensures p >= 1
  {
    if k == 0 then 1 else 10 * Pow10(k - 1)
  }

  /** Parsing digits and printing them back at the same width gives the same digits. */
  lemma {:induction false} PaddedNumber(s: string)
    requires AllDigits(s)
    ensures Padded(Number(s), |s|) == s
  {
    if s != [] {
      var init, d := s[..|s| - 1], DigitValue(s[|s| - 1]);
      assert AllDigits(init);
      var n := Number(init) * 10 + d;
      assert n / 10 == Number(init) && n % 10 == d;
      PaddedNumber(init);
      assert DigitChar(d) == s[|s| - 1];
      assert s == init + [s[|s| - 1]];
    }
  }

  /** Printing a number that fits the width and parsing it back gives the number. */
  lemma {:induction false} NumberPadded(n: nat, width: nat)
    requires n < Pow10(width)
    ensures Number(Padded(n, width)) == n
  {
    if width > 0 {
      var q, d := n / 10, n % 10;
      assert n == q * 10 + d && d < 10;
      assert q < Pow10(width - 1);
      var s := Padded(n, width);
      assert s == Padded(q, width - 1) + [DigitChar(d)];
      assert s[..|s| - 1] == Padded(q, width - 1) && s[|s| - 1] == DigitChar(d);
      NumberPadded(q, width - 1);
    }
  }

  predicate IsLeapYear(y: nat) {
    y % 4 == 0 && (y % 100 != 0 || y % 400 == 0)
  }

  function DaysInMonth(y: nat, m: nat): nat
    requires 1 <= m <= 12
  {
    if m == 2 then (if IsLeapYear(y) then 29 else 28)
    else if m == 4 || m == 6 || m == 9 || m == 11 then 30
    else 31
  }

  /** The fields name a moment a datetime can hold, written with a four-digit year. */
  predicate Valid(dt: DateTime) {
    && 1 <= dt.year < 10000
    && 1 <= dt.month <= 12
    && 1 <= dt.day <= DaysInMonth(dt.year, dt.month)
    && dt.hour < 24 && dt.minute < 60 && dt.second < 60
  }

  /** The character positions of `YYYY-MM-DDTHH:MM:SSZ` that hold digits. */
  predicate DigitPosition(i: int) {
    0 <= i < 19 && i != 4 && i != 7 && i != 10 && i != 13 && i != 16
  }

  /** `s` has the character layout of the pattern `%Y-%m-%dT%H:%M:%SZ` with every numeric
      field zero-padded; like the parser, the literal letters match in either case. */
  predicate ApiLayout(s: string) {
    && |s| == 20
    && (forall i | 0 <= i < 19 && DigitPosition(i) :: IsDigit(s[i]))
    && s[4] == '-' && s[7] == '-' && s[13] == ':' && s[16] == ':'
    && (s[10] == 'T' || s[10] == 't')
    && (s[19] == 'Z' || s[19] == 'z')
  }

  /** Parse with `%Y-%m-%dT%H:%M:%SZ`; None where the parser raises. */
  function ParseApiDate(s: string): Option<DateTime> {
    if !ApiLayout(s) then None
    else
      assert AllDigits(s[0..4]) && AllDigits(s[5..7]) && AllDigits(s[8..10]);
      assert AllDigits(s[11..13]) && AllDigits(s[14..16]) && AllDigits(s[17..19]);
      var dt := DateTime(Number(s[0..4]), Number(s[5..7]), Number(s[8..10]),
                         Number(s[11..13]), Number(s[14..16]), Number(s[17..19]));
      if Valid(dt) then Some(dt) else None
  }

  /** The six fields, zero-padded, with `sep` between date and time and `tail` after. */
  function Render(dt: DateTime, sep: char, tail: string): string {
    Padded(dt.year, 4) + "-" + Padded(dt.month, 2) + "-" + Padded(dt.day, 2) + [sep] +
    Padded(dt.hour, 2) + ":" + Padded(dt.minute, 2) + ":" + Padded(dt.second, 2) + tail
  }

  /** Print with `%Y-%m-%d %H:%M:%S`. */
  function CsvText(dt: DateTime): string {
    Render(dt, ' ', "")
  }

  /** The text the API sends for `dt`. */
  function ApiText(dt: DateTime): string {
    Render(dt, 'T', "Z")
  }

  /** Where each field sits in a rendering. */
  lemma RenderFields(dt: DateTime, sep: char, tail: string)
    ensures var s := Render(dt, sep, tail);
      && |s| == 19 + |tail| && s[19..] == tail
      && s[0..4] == Padded(dt.year, 4) && s[4] == '-' && s[5..7] == Padded(dt.month, 2)
      && s[7] == '-' && s[8..10] == Padded(dt.day, 2) && s[10] == sep
      && s[11..13] == Padded(dt.hour, 2) && s[13] == ':' && s[14..16] == Padded(dt.minute, 2)
      && s[16] == ':' && s[17..19] == Padded(dt.second, 2)
  {
  }

  /** The CSV rendering of a parsed date keeps every character of the input but the `T`,
      which becomes a space, and the `Z`, which is dropped. */
  lemma CsvTextOfParsed(s: string)
    requires ParseApiDate(s).Some?
    ensures var r := CsvText(ParseApiDate(s).value);
      |r| == 19 && r[10] == ' ' && forall i | 0 <= i < 19 && i != 10 :: r[i] == s[i]
  {
    var dt := ParseApiDate(s).value;
    assert AllDigits(s[0..4]) && AllDigits(s[5..7]) && AllDigits(s[8..10]);
    assert AllDigits(s[11..13]) && AllDigits(s[14..16]) && AllDigits(s[17..19]);
    PaddedNumber(s[0..4]); PaddedNumber(s[5..7]); PaddedNumber(s[8..10]);
    PaddedNumber(s[11..13]); PaddedNumber(s[14..16]); PaddedNumber(s[17..19]);
    SameCharacters(s, dt);
  }

  /** A rendering whose fields are the digit fields of `s` agrees with `s` at every
      position but the date/time separator. */
  lemma SameCharacters(s: string, dt: DateTime)
    requires |s| == 20 && s[4] == '-' && s[7] == '-' && s[13] == ':' && s[16] == ':'
    requires Padded(dt.year, 4) == s[0..4] && Padded(dt.month, 2) == s[5..7] && Padded(dt.day, 2) == s[8..10]
    requires Padded(dt.hour, 2) == s[11..13] && Padded(dt.minute, 2) == s[14..16] && Padded(dt.second, 2) == s[17..19]
    ensures var r := CsvText(dt);
      |r| == 19 && r[10] == ' ' && forall i | 0 <= i < 19 && i != 10 :: r[i] == s[i]
  {
    RenderFields(dt, ' ', "");
    var r := CsvText(dt);
    forall i | 0 <= i < 19 && i != 10 ensures r[i] == s[i] {
      if i < 4 { assert r[i] == r[0..4][i] && s[i] == s[0..4][i]; }
      else if 4 < i < 7 { assert r[i] == r[5..7][i - 5] && s[i] == s[5..7][i - 5]; }
      else if 7 < i < 10 { assert r[i] == r[8..10][i - 8] && s[i] == s[8..10][i - 8]; }
      else if 10 < i < 13 { assert r[i] == r[11..13][i - 11] && s[i] == s[11..13][i - 11]; }
      else if 13 < i < 16 { assert r[i] == r[14..16][i - 14] && s[i] == s[14..16][i - 14]; }
      else if 16 < i { assert r[i] == r[17..19][i - 17] && s[i] == s[17..19][i - 17]; }
    }
  }

  /**
   * `format_datetime`: None where the source raises a ValueError. A result keeps every date
   * and time digit and separator of the input in place, puts a space where the `T` was and
   * drops the trailing `Z`; input without that layout is rejected.
   */
  function FormatDatetime(s: string): (r: Option<string>)
    ensures !ApiLayout(s) ==> r.None?
    ensures r.Some? ==> |r.value| == 19 && r.value[10] == ' ' &&
                        forall i | 0 <= i < 19 && i != 10 :: r.value[i] == s[i]
  {
    match ParseApiDate(s)
    case None => None
    case Some(dt) =>
      CsvTextOfParsed(s);
      Some(CsvText(dt))
  }

  /** The fields of `dt` fit the widths the API writes them with. */
  predicate Fits(dt: DateTime) {
    dt.year < 10000 && dt.month < 100 && dt.day < 100 && dt.hour < 100 && dt.minute < 100 && dt.second < 100
  }

  /** The API's rendering of `dt` parses back to `dt` exactly when `dt` is a valid moment. */
  lemma ParseApiText(dt: DateTime)
    requires Fits(dt)
    ensures ParseApiDate(ApiText(dt)) == if Valid(dt) then Some(dt) else None
  {
    var s := ApiText(dt);
    RenderFields(dt, 'T', "Z");
    assert ApiLayout(s) by {
      forall i | 0 <= i < 19 && DigitPosition(i) ensures IsDigit(s[i]) {
        if i < 4 { assert s[i] == s[0..4][i]; }
        else if i < 7 { assert s[i] == s[5..7][i - 5]; }
        else if i < 10 { assert s[i] == s[8..10][i - 8]; }
        else if i < 13 { assert s[i] == s[11..13][i - 11]; }
        else if i < 16 { assert s[i] == s[14..16][i - 14]; }
        else { assert s[i] == s[17..19][i - 17]; }
      }
    }
    NumberPadded(dt.year, 4); NumberPadded(dt.month, 2); NumberPadded(dt.day, 2);
    NumberPadded(dt.hour, 2); NumberPadded(dt.minute, 2); NumberPadded(dt.second, 2);
  }

  /** Round trip: the API's rendering of a moment is accepted exactly when the moment is
      valid, and then comes out as the CSV rendering of the same moment. */
  lemma FormatApiText(dt: DateTime)
    requires Fits(dt)
    ensures FormatDatetime(ApiText(dt)) == if Valid(dt) then Some(CsvText(dt)) else None
  {
    ParseApiText(dt);
  }

  /** The day must exist in its month: the 29th of February is accepted in a leap year only. */
  lemma LeapDay(dt: DateTime)
    requires dt.month == 2 && dt.day == 29 && 1 <= dt.year < 10000
    requires dt.hour < 24 && dt.minute < 60 && dt.second < 60
    ensures FormatDatetime(ApiText(dt)).Some? <==> IsLeapYear(dt.year)
  {
    FormatApiText(dt);
  }
}
