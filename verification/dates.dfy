/**
 * Calendar dates in the "%d/%m/%Y" form used for the registration date
 * (`Data`): the strict parse that rejects impossible dates, the formatting
 * back to text, and the chronological order used for sorting.
 */
module Dates {
  import opened Wrappers
  import opened Digits

  datatype Date = Date(day: int, month: int, year: int)

  /** Gregorian leap years. */
  predicate IsLeapYear(year: int) {
    year % 4 == 0 && (year % 100 != 0 || year % 400 == 0)
  }

  function DaysInMonth(month: int, year: int): (n: int)
    requires 1 <= month <= 12
    ensures 28 <= n <= 31
    ensures n == 28 <==> month == 2 && !IsLeapYear(year)
    ensures n == 29 <==> month == 2 && IsLeapYear(year)
    ensures n == 30 <==> month in {4, 6, 9, 11}
  {
    if month == 2 then (if IsLeapYear(year) then 29 else 28)
    else if month in {4, 6, 9, 11} then 30
    else 31
  }

  /** A date the calendar admits, with a year in 1..9999 as the date type demands. */
  predicate ValidDate(d: Date) {
    1 <= d.year <= 9999 && 1 <= d.month <= 12 && 1 <= d.day <= DaysInMonth(d.month, d.year)
  }

  /** The shape `dd/dd/dddd` that both transaction patterns demand of a date. */
  predicate IsDateText(s: string) {
    |s| == 10 && AllDigits(s[0..2]) && s[2] == '/' && AllDigits(s[3..5]) && s[5] == '/' && AllDigits(s[6..10])
  }

  /**
   * Strict day/month/year parse: the text must have the date shape and name a
   * date that exists (no 00 day or month, no 31/04, no 29/02 outside leap
   * years, no year 0000); anything else is rejected, never defaulted.
   */
  function ParseDate(s: string): (r: Option<Date>)
    ensures r.Some? ==> IsDateText(s) && ValidDate(r.value)
    ensures r.Some? ==> r.value.day < 100 && r.value.month < 100 && r.value.year < 10000
  {
    if IsDateText(s) then
      var d := Date(Value(s[0..2]), Value(s[3..5]), Value(s[6..10]));
      if ValidDate(d) then Some(d) else None
    else None
  }

  /** Day and month as two digits, the year as four, separated by slashes. */
  function FormatDate(d: Date): (s: string)
    requires ValidDate(d)
    ensures IsDateText(s)
  {
    Padded(d.day, 2) + "/" + Padded(d.month, 2) + "/" + Padded(d.year, 4)
  }

  /** Formatting a valid date and parsing it again gives the same date back. */
  lemma ParseFormat(d: Date)
    requires ValidDate(d)
    ensures ParseDate(FormatDate(d)) == Some(d)
  {
    var s := FormatDate(d);
    assert s[0..2] == Padded(d.day, 2);
    assert s[3..5] == Padded(d.month, 2);
    assert s[6..10] == Padded(d.year, 4);
    ValueOfPadded(d.day, 2);
    ValueOfPadded(d.month, 2);
    ValueOfPadded(d.year, 4);
  }

  /**
   * On any text the date pattern lets through, parsing and re-formatting is
   * the identity: the re-formatting step only validates.
   */
  lemma FormatParse(s: string)
    requires ParseDate(s).Some?
    ensures FormatDate(ParseDate(s).value) == s
  {
    PaddedOfValue(s[0..2]);
    PaddedOfValue(s[3..5]);
    PaddedOfValue(s[6..10]);
    assert s == s[0..2] + "/" + s[3..5] + "/" + s[6..10];
  }

  /** Two valid dates format to the same text only if they are the same date. */
  lemma FormatDateInjective(a: Date, b: Date)
    requires ValidDate(a) && ValidDate(b) && FormatDate(a) == FormatDate(b)
    ensures a == b
  {
    ParseFormat(a);
    ParseFormat(b);
  }

  /** A single number that orders dates as the calendar does. */
  function Ordinal(d: Date): int {
    d.year * 10000 + d.month * 100 + d.day
  }

  /** Chronological (year, month, day) order, as datetime compares. */
  predicate NotAfter(a: Date, b: Date) {
    a.year < b.year || (a.year == b.year && (a.month < b.month || (a.month == b.month && a.day <= b.day)))
  }

  lemma OrdinalIsChronological(a: Date, b: Date)
    requires ValidDate(a) && ValidDate(b)
    ensures Ordinal(a) <= Ordinal(b) <==> NotAfter(a, b)
    ensures Ordinal(a) == Ordinal(b) <==> a == b
  {
  }

  lemma ThirtyFirstOfFebruaryRejected()
    ensures ParseDate("31/02/2023") == None
  {
    var s := "31/02/2023";
    assert s[0..2] == "31";
    assert s[3..5] == "02";
    assert Value("31") == 31 by { assert "31"[..1] == "3"; }
    assert Value("02") == 2 by { assert "02"[..1] == "0"; }
  }

  /** 29 February is rejected outside a leap year ... */
  lemma TwentyNinthOfFebruaryRejectedIn2023()
    ensures ParseDate("29/02/2023") == None
  {
    var s := "29/02/2023";
    assert s[0..2] == "29";
    assert s[3..5] == "02";
    assert s[6..10] == "2023";
    assert Value("29") == 29 by { assert "29"[..1] == "2"; }
    assert Value("02") == 2 by { assert "02"[..1] == "0"; }
    assert Value("2023") == 2023 by {
      assert "2023"[..3] == "202" && "202"[..2] == "20" && "20"[..1] == "2";
    }
  }

  /** ... and accepted in one. */
  lemma TwentyNinthOfFebruaryAcceptedIn2024()
    ensures ParseDate("29/02/2024") == Some(Date(29, 2, 2024))
  {
    var s := "29/02/2024";
    assert s[0..2] == "29";
    assert s[3..5] == "02";
    assert s[6..10] == "2024";
    assert Value("29") == 29 by { assert "29"[..1] == "2"; }
    assert Value("02") == 2 by { assert "02"[..1] == "0"; }
    assert Value("2024") == 2024 by {
      assert "2024"[..3] == "202" && "202"[..2] == "20" && "20"[..1] == "2";
    }
  }
}
