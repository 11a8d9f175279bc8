/**
  The one use of `datetime.strptime` in the date-range parser: reading
  "<month> <day> <year>" with the format "%b %d %Y" in the C locale.

  - `%b` matches one of the twelve English month abbreviations, ignoring case;
  - `%d` is the pattern `3[01]|[12]\d|0[1-9]|[1-9]| [1-9]`; the whitespace
    before it in the format consumes the one space ahead of the day token, so
    the last alternative, which starts with a space, never applies to the
    digit-only tokens read here; and since whitespace follows `%d` in the
    format, the pattern has to consume the whole day token;
  - `%Y` is the pattern `\d\d\d\d` and ends the string, so the year must be
    written with exactly four digits;
  - the fields must then name a real date, or `ValueError` is raised.
 */
module Strptime {

  import opened Wrappers
  import opened Text
  import opened Calendar

  /** The C-locale month abbreviations, lower-cased as `%b` compares them. */
  const MonthAbbrevs: seq<string> :=
    ["jan", "feb", "mar", "apr", "may", "jun", "jul", "aug", "sep", "oct", "nov", "dec"]

  /** The same names as `%b` prints them. */
  const MonthNames: seq<string> :=
    ["Jan", "Feb", "Mar", "Apr", "May", "Jun", "Jul", "Aug", "Sep", "Oct", "Nov", "Dec"]

  /** The first table entry at or after `from` equal to `t`, as a month number 1..12. */
  function FindMonth(t: string, from: nat): (r: Option<int>)
    requires from <= 12
    ensures r.Some? ==> from < r.value <= 12 && MonthAbbrevs[r.value - 1] == t
    ensures r.None? ==> forall m :: from <= m < 12 ==> MonthAbbrevs[m] != t
    decreases 12 - from
  {
    if from == 12 then None
    else if MonthAbbrevs[from] == t then Some(from + 1)
    else FindMonth(t, from + 1)
  }

  /** What `%b` reads from a month token: its month number, or nothing when no abbreviation matches. */
  function MonthNumber(token: string): (r: Option<int>)
    ensures r.Some? ==> 1 <= r.value <= 12 && Lower(token) == MonthAbbrevs[r.value - 1]
    ensures r.None? ==> forall m :: 0 <= m < 12 ==> Lower(token) != MonthAbbrevs[m]
  {
    FindMonth(Lower(token), 0)
  }

  /**
    Whether the `%d` pattern matches the whole of the digit-only token `d`:
    of its alternatives `3[01]|[12]\d|0[1-9]|[1-9]| [1-9]`, the last one starts
    with a space and so never matches such a token.
   */
  predicate DayFieldMatches(d: string)
    ensures DayFieldMatches(d) ==> 1 <= |d| <= 2 && AllDigits(d) && d != "00"
  {
    || (|d| == 2 && d[0] == '3' && (d[1] == '0' || d[1] == '1'))
    || (|d| == 2 && (d[0] == '1' || d[0] == '2') && IsDigit(d[1]))
    || (|d| == 2 && d[0] == '0' && '1' <= d[1] <= '9')
    || (|d| == 1 && '1' <= d[0] <= '9')
  }

  /** On a string of digits, the `%d` pattern accepts exactly the one- and two-digit numbers 1 to 31. */
  lemma DayFieldMeaning(d: string)
    requires AllDigits(d)
    ensures DayFieldMatches(d) <==> 1 <= |d| <= 2 && 1 <= DigitsValue(d) <= 31
  {
    if 1 <= |d| <= 2 {
      DigitsValueShort(d);
    }
  }

  /**
    Whether `%Y`, the pattern `\d\d\d\d` at the end of the string, matches
    the decimal rendering of `year`: the year is within `datetime`'s range and
    prints with four digits.
   */
  predicate YearFieldMatches(year: int)
    ensures YearFieldMatches(year) ==> MinYear <= year <= MaxYear
  {
    1000 <= year <= 9999
  }

  /** `%Y` matches exactly the years whose decimal rendering has four digits and no sign. */
  lemma {:induction false} YearFieldMeaning(year: int)
    ensures YearFieldMatches(year) <==> 0 <= year && DecimalLength(year) == 4
  {
    if 0 <= year {
      var a := year / 10;
      var b := a / 10;
      var c := b / 10;
      assert DecimalLength(year) == (if year < 10 then 1 else 1 + DecimalLength(a));
      assert DecimalLength(a) == (if a < 10 then 1 else 1 + DecimalLength(b));
      assert DecimalLength(b) == (if b < 10 then 1 else 1 + DecimalLength(c));
      assert DecimalLength(c) == (if c < 10 then 1 else 1 + DecimalLength(c / 10));
    }
  }

  /**
    `datetime.strptime(f"{month} {day} {year}", "%b %d %Y")`, with `None`
    standing for the `ValueError` it raises.
   */
  function ParseMonthDayYear(month: string, day: string, year: int): (r: Option<Date>)
    requires AllDigits(day)
    ensures r.Some? <==>
              && MonthNumber(month).Some?
              && DayFieldMatches(day)
              && YearFieldMatches(year)
              && DigitsValue(day) <= DaysInMonth(year, MonthNumber(month).value)
    ensures r.Some? ==> IsValidDate(r.value)
    ensures r.Some? ==> r.value == Date(year, MonthNumber(month).value, DigitsValue(day))
  {
    match MonthNumber(month)
    case None => None
    case Some(m) =>
      if !DayFieldMatches(day) || !YearFieldMatches(year) then None
      else
        DayFieldMeaning(day);
        var date := Date(year, m, DigitsValue(day));
        if IsValidDate(date) then Some(date) else None
  }

  /** The day of the month as `%d` prints it: two digits, zero-padded. */
  function TwoDigits(n: int): (s: string)
    requires 0 <= n <= 99
  {
    [('0' as int + n / 10) as char, ('0' as int + n % 10) as char]
  }

  lemma LowerMonthNames(m: int)
    requires 0 <= m < 12
    ensures Lower(MonthNames[m]) == MonthAbbrevs[m]
  {
    var n := MonthNames[m];
    assert Lower(n) == [LowerChar(n[0])] + Lower(n[1..]);
    assert Lower(n[1..]) == [LowerChar(n[1])] + Lower(n[2..]);
    assert Lower(n[2..]) == [LowerChar(n[2])] + Lower(n[3..]);
    assert n[3..] == [];
  }

  lemma AbbrevsDistinct(i: int, j: int)
    requires 0 <= i < 12 && 0 <= j < 12 && i != j
    ensures MonthAbbrevs[i] != MonthAbbrevs[j]
  {
    var a, b := MonthAbbrevs[i], MonthAbbrevs[j];
    assert a[0] != b[0] || a[1] != b[1] || a[2] != b[2];
  }

  /** Each month name is read back as its own month number. */
  lemma MonthNumberOfName(m: int)
    requires 1 <= m <= 12
    ensures MonthNumber(MonthNames[m - 1]) == Some(m)
  {
    LowerMonthNames(m - 1);
    var r := MonthNumber(MonthNames[m - 1]);
    assert r.Some?;
    if r.value != m {
      AbbrevsDistinct(r.value - 1, m - 1);
    }
  }

  /**
    Round trip with the printing side of the format: any date `datetime` can
    hold whose year has four digits is read back unchanged from its "%b %d %Y"
    rendering.
   */
  lemma ParseFormatted(d: Date)
    requires IsValidDate(d) && YearFieldMatches(d.year)
    ensures ParseMonthDayYear(MonthNames[d.month - 1], TwoDigits(d.day), d.year) == Some(d)
  {
    MonthNumberOfName(d.month);
    var t := TwoDigits(d.day);
    DigitsValueShort(t);
    assert DigitsValue(t) == d.day;
    DayFieldMeaning(t);
  }

  /** "Feb 29" is accepted exactly in the leap years with a four-digit number. */
  lemma LeapDay(year: int)
    ensures ParseMonthDayYear("Feb", "29", year).Some? <==> YearFieldMatches(year) && IsLeapYear(year)
  {
    MonthNumberOfName(2);
    assert MonthNames[1] == "Feb";
    DigitsValueShort("29");
  }

}
