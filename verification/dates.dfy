/** The three date layouts the date rewriter uses with Go's time package:
    parsing "2006-01-02", and formatting "2006" and "02.01.2006.".

    Parsing follows the rules of Go's time.Parse for this layout: a 4-digit
    year, a 2-digit month in 1..12 and a 2-digit day in 1..(length of that
    month in the proleptic Gregorian calendar), each separated by `-`, with
    nothing before or after. */
module Dates {
  import opened Wrappers

  datatype Date = Date(year: nat, month: nat, day: nat)

  predicate IsDigit(c: char) {
    '0' <= c <= '9'
  }

  function DigitValue(c: char): (r: nat)
    requires IsDigit(c)
    ensures r < 10
  {
    c as int - '0' as int
  }

  function DigitChar(d: nat): (c: char)
    requires d < 10
    ensures IsDigit(c) && DigitValue(c) == d
  {
    ('0' as int + d) as char
  }

  predicate IsLeap(year: nat) {
    year % 4 == 0 && (year % 100 != 0 || year % 400 == 0)
  }

  function DaysIn(month: nat, year: nat): (r: nat)
    requires 1 <= month <= 12
    ensures 28 <= r <= 31
    ensures r == 29 <==> month == 2 && IsLeap(year)
  {
    if month == 2 then (if IsLeap(year) then 29 else 28)
    else if month == 4 || month == 6 || month == 9 || month == 11 then 30
    else 31
  }

  /** A date the layout can hold: four year digits, a real month, a real day. */
  predicate Valid(d: Date) {
    d.year < 10000 && 1 <= d.month <= 12 && 1 <= d.day <= DaysIn(d.month, d.year)
  }

  /** The character shape `DDDD-DD-DD`. */
  predicate IsoShaped(s: string) {
    && |s| == 10
    && IsDigit(s[0]) && IsDigit(s[1]) && IsDigit(s[2]) && IsDigit(s[3])
    && s[4] == '-'
    && IsDigit(s[5]) && IsDigit(s[6])
    && s[7] == '-'
    && IsDigit(s[8]) && IsDigit(s[9])
  }

  function Value2(a: char, b: char): nat
    requires IsDigit(a) && IsDigit(b)
  {
    10 * DigitValue(a) + DigitValue(b)
  }

  function Value4(a: char, b: char, c: char, d: char): nat
    requires IsDigit(a) && IsDigit(b) && IsDigit(c) && IsDigit(d)
  {
    100 * Value2(a, b) + Value2(c, d)
  }

  /** A number below 100 as exactly two digits, zero-padded. */
  function Pad2(n: nat): (s: string)
    requires n < 100
    ensures |s| == 2 && IsDigit(s[0]) && IsDigit(s[1]) && Value2(s[0], s[1]) == n
  {
    [DigitChar(n / 10), DigitChar(n % 10)]
  }

  /** A number below 10000 as exactly four digits, zero-padded. */
  function Pad4(n: nat): (s: string)
    requires n < 10000
    ensures |s| == 4 && (forall i :: 0 <= i < 4 ==> IsDigit(s[i])) && Value4(s[0], s[1], s[2], s[3]) == n
  {
    Pad2(n / 100) + Pad2(n % 100)
  }

  /** time.Parse("2006-01-02", s): the date, or None for an error. */
  function ParseIso(s: string): (r: Option<Date>)
    ensures r.Some? ==> IsoShaped(s) && Valid(r.value)
  {
    if !IsoShaped(s) then None
    else
      var d := Date(Value4(s[0], s[1], s[2], s[3]), Value2(s[5], s[6]), Value2(s[8], s[9]));
      if 1 <= d.month <= 12 && 1 <= d.day <= DaysIn(d.month, d.year) then Some(d) else None
  }

  /** Format "2006-01-02". */
  function FormatIso(d: Date): string
    requires Valid(d)
  {
    Pad4(d.year) + "-" + Pad2(d.month) + "-" + Pad2(d.day)
  }

  /** Format "2006": the year alone. */
  function FormatYear(d: Date): (r: string)
    requires Valid(d)
    ensures |r| == 4 && IsDigit(r[0]) && IsDigit(r[1]) && IsDigit(r[2]) && IsDigit(r[3])
    ensures Value4(r[0], r[1], r[2], r[3]) == d.year
  {
    Pad4(d.year)
  }

  /** Format "02.01.2006.": day, month, year, each followed by a period. */
  function FormatDotted(d: Date): (r: string)
    requires Valid(d)
    ensures |r| == 11 && r[2] == '.' && r[5] == '.' && r[10] == '.'
    ensures IsDigit(r[0]) && IsDigit(r[1]) && Value2(r[0], r[1]) == d.day
    ensures IsDigit(r[3]) && IsDigit(r[4]) && Value2(r[3], r[4]) == d.month
    ensures IsDigit(r[6]) && IsDigit(r[7]) && IsDigit(r[8]) && IsDigit(r[9])
    ensures Value4(r[6], r[7], r[8], r[9]) == d.year
  {
    Pad2(d.day) + "." + Pad2(d.month) + "." + Pad4(d.year) + "."
  }

  lemma Pad2Digits(a: char, b: char)
    requires IsDigit(a) && IsDigit(b)
    ensures Pad2(Value2(a, b)) == [a, b]
  {
    var n := Value2(a, b);
    assert n / 10 == DigitValue(a) && n % 10 == DigitValue(b);
  }

  lemma Pad4Digits(a: char, b: char, c: char, d: char)
    requires IsDigit(a) && IsDigit(b) && IsDigit(c) && IsDigit(d)
    ensures Pad4(Value4(a, b, c, d)) == [a, b, c, d]
  {
    var n := Value4(a, b, c, d);
    assert n / 100 == Value2(a, b) && n % 100 == Value2(c, d);
    Pad2Digits(a, b);
    Pad2Digits(c, d);
  }

  /** Parsing then formatting: the year is the first four characters, the
      dotted form rearranges the input's digits into DD.MM.YYYY., and the
      ISO form gives back the input. */
  lemma {:induction false} FormatAfterParse(s: string)
    requires ParseIso(s).Some?
    ensures FormatYear(ParseIso(s).value) == s[0..4]
    ensures FormatDotted(ParseIso(s).value) == s[8..10] + "." + s[5..7] + "." + s[0..4] + "."
    ensures FormatIso(ParseIso(s).value) == s
  {
    Pad4Digits(s[0], s[1], s[2], s[3]);
    Pad2Digits(s[5], s[6]);
    Pad2Digits(s[8], s[9]);
    assert s[0..4] == [s[0], s[1], s[2], s[3]];
    assert s[5..7] == [s[5], s[6]];
    assert s[8..10] == [s[8], s[9]];
    assert s == s[0..4] + "-" + s[5..7] + "-" + s[8..10];
  }

  /** Formatting a valid date then parsing it gives the date back. */
  lemma {:induction false} ParseAfterFormat(d: Date)
    requires Valid(d)
    ensures ParseIso(FormatIso(d)) == Some(d)
  {
    var s := FormatIso(d);
    var y, m, dd := Pad4(d.year), Pad2(d.month), Pad2(d.day);
    assert s[0..4] == y && s[5..7] == m && s[8..10] == dd;
    assert IsoShaped(s);
  }

  /** Examples: a leap day in a leap year, the same day in a common year,
      a month out of range, a non-date text. */
  lemma ParseExamples()
    ensures ParseIso("2024-05-01") == Some(Date(2024, 5, 1))
    ensures ParseIso("2024-02-29") == Some(Date(2024, 2, 29))
    ensures ParseIso("2023-02-29") == None
    ensures ParseIso("2024-13-01") == None
    ensures ParseIso("N/A") == None
  {
    assert IsoShaped("2024-05-01") && IsoShaped("2024-02-29");
  }
}
