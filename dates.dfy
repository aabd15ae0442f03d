/**
 * Calendar dates (chrono's `NaiveDate`) and their `%Y-%m-%d` text form, which is both the
 * format the batch rows and event payloads carry and the format the receiver parses.
 */
module Dates {
  import opened Wrappers
  import opened Digits

  datatype Date = Date(year: nat, month: nat, day: nat)

  predicate IsLeapYear(y: nat) {
    y % 4 == 0 && (y % 100 != 0 || y % 400 == 0)
  }

  function DaysInMonth(y: nat, m: nat): (n: nat)
    requires 1 <= m <= 12
    ensures 28 <= n <= 31
  {
    if m == 2 then (if IsLeapYear(y) then 29 else 28)
    else if m == 4 || m == 6 || m == 9 || m == 11 then 30
    else 31
  }

  /** A real day of the proleptic Gregorian calendar whose year has four digits. */
  predicate ValidDate(d: Date) {
    d.year <= 9999 && 1 <= d.month <= 12 && 1 <= d.day <= DaysInMonth(d.year, d.month)
  }

  /** The `YYYY-MM-DD` rendering of a date (its `Display` and its JSON serialisation). */
  function FormatDate(d: Date): (s: string)
    ensures |s| == 10 && s[4] == '-' && s[7] == '-'
  {
    Padded(d.year, 4) + "-" + Padded(d.month, 2) + "-" + Padded(d.day, 2)
  }

  /** `NaiveDate::parse_from_str(s, "%Y-%m-%d")`, for the zero-padded form. */
  function ParseDate(s: string): Option<Date> {
    if |s| == 10 && s[4] == '-' && s[7] == '-'
       && AllDigits(s[..4]) && AllDigits(s[5..7]) && AllDigits(s[8..])
       && ValidDate(Date(ValueOf(s[..4]), ValueOf(s[5..7]), ValueOf(s[8..])))
    then Some(Date(ValueOf(s[..4]), ValueOf(s[5..7]), ValueOf(s[8..])))
    else None
  }

  /** What is accepted is a valid date, and it is rendered back as exactly the input. */
  lemma ParsedDateFormatsBack(s: string)
    requires ParseDate(s).Some?
    ensures ValidDate(ParseDate(s).value) && FormatDate(ParseDate(s).value) == s
  {
    var d := ParseDate(s).value;
    PaddedValueOf(s[..4]);
    PaddedValueOf(s[5..7]);
    PaddedValueOf(s[8..]);
    calc {
      FormatDate(d);
      s[..4] + "-" + s[5..7] + "-" + s[8..];
      { assert s == s[..4] + [s[4]] + s[5..7] + [s[7]] + s[8..]; }
      s;
    }
  }

  /** Every valid date survives rendering and re-parsing. */
  lemma ParseFormatDate(d: Date)
    requires ValidDate(d)
    ensures ParseDate(FormatDate(d)) == Some(d)
  {
    var s := FormatDate(d);
    assert s[..4] == Padded(d.year, 4);
    assert s[5..7] == Padded(d.month, 2);
    assert s[8..] == Padded(d.day, 2);
    ValueOfPadded(d.year, 4);
    ValueOfPadded(d.month, 2);
    ValueOfPadded(d.day, 2);
  }

  /** A string is accepted exactly when it is the rendering of a valid date. */
  lemma ParseDateExactly(s: string)
    ensures ParseDate(s).Some? <==> exists d :: ValidDate(d) && FormatDate(d) == s
  {
    if d :| ValidDate(d) && FormatDate(d) == s {
      ParseFormatDate(d);
    }
    if ParseDate(s).Some? {
      ParsedDateFormatsBack(s);
    }
  }
}
