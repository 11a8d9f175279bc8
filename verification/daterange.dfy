/**
  `parse_date_range`: turns a poll's free-text date range such as
  "Jan. 3 - 10" or "Dec. 29 - Jan. 5" into a start and an end date.

  The current year, which the program reads from the clock, is a parameter.
  The two missing values returned for text that does not match are `NoMatch`;
  the `ValueError` that `strptime` or `replace` raises is `Invalid`.
 */
module DateRange {

  import opened Wrappers
  import opened Text
  import opened Calendar
  import opened Strptime
  import opened RangePattern

  datatype ParseResult = NoMatch | Invalid | Ok(start: Date, end: Date)

  /** The end month token: the captured one, or the start month when the range stays in one month. */
  function EndMonthToken(g: Groups): (m: string)
    requires WellFormed(g)
    ensures IsMonthToken(m)
  {
    match g.endMonth
    case Some(m) => m
    case None => g.startMonth
  }

  /** Both dates built in `currentYear`, and the end moved to the next year when it would precede the start. */
  function ParseGroups(g: Groups, currentYear: int): (r: ParseResult)
    requires WellFormed(g)
    ensures !r.NoMatch?
    ensures r.Ok? ==> IsValidDate(r.start) && IsValidDate(r.end) && !Before(r.end, r.start)
  {
    var startDate := ParseMonthDayYear(g.startMonth, g.startDay, currentYear);
    var endDate := ParseMonthDayYear(EndMonthToken(g), g.endDay, currentYear);
    if startDate.None? || endDate.None? then Invalid
    else if Before(endDate.value, startDate.value) then
      var rolled := endDate.value.(year := startDate.value.year + 1);
      if IsValidDate(rolled) then Ok(startDate.value, rolled) else Invalid
    else Ok(startDate.value, endDate.value)
  }

  /** `parse_date_range(text)` when the clock says `currentYear`. */
  function Parse(text: string, currentYear: int): (r: ParseResult)
    ensures r.NoMatch? <==> Match(text).None?
    ensures r.Ok? ==> IsValidDate(r.start) && IsValidDate(r.end) && !Before(r.end, r.start)
  {
    match Match(text)
    case None => NoMatch
    case Some(g) => ParseGroups(g, currentYear)
  }

  /**
    An independent statement, in calendar terms, of when the groups name two
    real dates: known month names, day numbers of at most two digits that
    exist in their month of `currentYear`, a four-digit year, and, when the
    range wraps past the year end, an end date that also exists one year later.
   */
  predicate NamesRealDates(g: Groups, currentYear: int)
    requires WellFormed(g)
  {
    var sm, em := MonthNumber(g.startMonth), MonthNumber(EndMonthToken(g));
    && sm.Some? && em.Some?
    && 1000 <= currentYear <= 9999
    && |g.startDay| <= 2 && |g.endDay| <= 2
    && var s, e := Date(currentYear, sm.value, DigitsValue(g.startDay)), Date(currentYear, em.value, DigitsValue(g.endDay));
       && IsValidDate(s) && IsValidDate(e)
       && (Before(e, s) ==> IsValidDate(e.(year := currentYear + 1)))
  }

  /** One call of `strptime` succeeds exactly when the month is known, the day has at most two digits and the date exists. */
  lemma ParseMonthDayYearMeaning(month: string, day: string, currentYear: int)
    requires IsDayToken(day)
    ensures ParseMonthDayYear(month, day, currentYear).Some? <==>
              && MonthNumber(month).Some?
              && 1000 <= currentYear <= 9999
              && |day| <= 2
              && IsValidDate(Date(currentYear, MonthNumber(month).value, DigitsValue(day)))
  {
    DayFieldMeaning(day);
  }

  /**
    Proof step for `ParseGroupsOkIff`: `ParseGroups` succeeds exactly when both
    strptime calls do and a wrapped end date survives the move to the next year.
   */
  lemma ParseGroupsOutcome(g: Groups, currentYear: int)
    requires WellFormed(g)
    ensures var startDate := ParseMonthDayYear(g.startMonth, g.startDay, currentYear);
            var endDate := ParseMonthDayYear(EndMonthToken(g), g.endDay, currentYear);
            ParseGroups(g, currentYear).Ok? <==>
              && startDate.Some? && endDate.Some?
              && (Before(endDate.value, startDate.value) ==> IsValidDate(endDate.value.(year := currentYear + 1)))
  {
    var startDate := ParseMonthDayYear(g.startMonth, g.startDay, currentYear);
    var endDate := ParseMonthDayYear(EndMonthToken(g), g.endDay, currentYear);
    if startDate.Some? && endDate.Some? {
      assert startDate.value.year == currentYear;
    }
  }

  lemma ParseGroupsOkIff(g: Groups, currentYear: int)
    requires WellFormed(g)
    ensures ParseGroups(g, currentYear).Ok? <==> NamesRealDates(g, currentYear)
  {
    var startDate := ParseMonthDayYear(g.startMonth, g.startDay, currentYear);
    var endDate := ParseMonthDayYear(EndMonthToken(g), g.endDay, currentYear);
    ParseMonthDayYearMeaning(g.startMonth, g.startDay, currentYear);
    ParseMonthDayYearMeaning(EndMonthToken(g), g.endDay, currentYear);
    ParseGroupsOutcome(g, currentYear);
    if startDate.None? || endDate.None? {
      assert !NamesRealDates(g, currentYear);
    } else {
      var s, e := startDate.value, endDate.value;
      assert s == Date(currentYear, MonthNumber(g.startMonth).value, DigitsValue(g.startDay));
      assert e == Date(currentYear, MonthNumber(EndMonthToken(g)).value, DigitsValue(g.endDay));
      assert NamesRealDates(g, currentYear) <==> (Before(e, s) ==> IsValidDate(e.(year := currentYear + 1)));
    }
  }

  /** A matched range yields dates exactly when it names real dates; otherwise the call raises. */
  lemma ParseOkIff(text: string, currentYear: int)
    ensures Parse(text, currentYear).Ok? <==>
              Match(text).Some? && NamesRealDates(Match(text).value, currentYear)
    ensures Parse(text, currentYear).Invalid? <==>
              Match(text).Some? && !NamesRealDates(Match(text).value, currentYear)
  {
    if Match(text).Some? {
      ParseGroupsOkIff(Match(text).value, currentYear);
    }
  }

  /** On success the start date is the start month and day in the current year. */
  lemma ParseStartDate(text: string, currentYear: int)
    ensures var r := Parse(text, currentYear);
            r.Ok? ==>
              && Match(text).Some?
              && MonthNumber(Match(text).value.startMonth).Some?
              && r.start == Date(currentYear, MonthNumber(Match(text).value.startMonth).value,
                                 DigitsValue(Match(text).value.startDay))
  {
  }

  /**
    On success the end date has the end month (the start month when none was
    given) and the last captured day; its year is the current year unless that
    date would precede the start, in which case it is the next year.
   */
  lemma ParseEndDate(text: string, currentYear: int)
    ensures var r := Parse(text, currentYear);
            r.Ok? ==>
              var g := Match(text).value;
              && MonthNumber(EndMonthToken(g)).Some?
              && r.end.month == MonthNumber(EndMonthToken(g)).value
              && r.end.day == DigitsValue(g.endDay)
              && r.end.year == (if Before(Date(currentYear, r.end.month, r.end.day), r.start)
                                then currentYear + 1 else currentYear)
  {
  }

  /** Without an end month the range stays in the start month. */
  lemma ParseSameMonth(text: string, currentYear: int)
    ensures var r := Parse(text, currentYear);
            r.Ok? && Match(text).value.endMonth.None? ==> r.end.month == r.start.month
  {
  }

  /**
    The year boundary: an end month earlier than the start month puts the end
    in the following year; a later end month keeps it in the start's year; and
    the two years never differ by more than one.
   */
  lemma ParseYearBoundary(text: string, currentYear: int)
    ensures var r := Parse(text, currentYear);
            r.Ok? ==>
              && (r.end.month < r.start.month ==> r.end.year == r.start.year + 1)
              && (r.end.month > r.start.month ==> r.end.year == r.start.year)
              && (r.end.year == r.start.year || r.end.year == r.start.year + 1)
  {
  }

  /** Text after the second day number does not change the outcome. */
  lemma ParseIgnoresTrailingText(text: string, currentYear: int)
    ensures Match(text).Some? ==>
              Parse(text, currentYear) == Parse(Render(Match(text).value), currentYear)
  {
    MatchIgnoresRest(text);
  }

  /** A known month name and a one- or two-digit day that exists in that month of a four-digit year are read as that date. */
  lemma ParseKnownDate(m: int, day: string, year: int)
    requires 1 <= m <= 12 && IsDayToken(day) && |day| <= 2 && YearFieldMatches(year)
    requires IsValidDate(Date(year, m, DigitsValue(day)))
    ensures ParseMonthDayYear(MonthNames[m - 1], day, year) == Some(Date(year, m, DigitsValue(day)))
  {
    MonthNumberOfName(m);
    DayFieldMeaning(day);
  }

  lemma MatchOfRendering(g: Groups, text: string)
    requires WellFormed(g) && g.endMonth.Some? && text == Render(g)
    ensures Match(text) == Some(g)
  {
    MatchRendered(g, []);
    assert Render(g) + [] == Render(g);
  }

  /** "Jan. 3 - 10": a range inside one month. */
  lemma ExampleSameMonth()
    ensures Parse("Jan. 3 - 10", 2025) == Ok(Date(2025, 1, 3), Date(2025, 1, 10))
  {
    ExampleSameMonthMatch();
    ExampleSameMonthGroups();
  }

  lemma ExampleSameMonthMatch()
    ensures Match("Jan. 3 - 10") == Some(Groups("Jan", "3", None, "10"))
  {
    var g := Groups("Jan", "3", None, "10");
    assert Render(g) + [] == "Jan. 3 - 10";
    MatchRendered(g, []);
  }

  lemma ExampleSameMonthGroups()
    ensures ParseGroups(Groups("Jan", "3", None, "10"), 2025) == Ok(Date(2025, 1, 3), Date(2025, 1, 10))
  {
    DigitsValueShort("3");
    DigitsValueShort("10");
    assert MonthNames[0] == "Jan";
    ParseKnownDate(1, "3", 2025);
    ParseKnownDate(1, "10", 2025);
  }

  /** "Dec. 29 - Jan. 5": the end wraps into the next year. */
  lemma ExampleYearEnd()
    ensures Parse("Dec. 29 - Jan. 5", 2025) == Ok(Date(2025, 12, 29), Date(2026, 1, 5))
  {
    MatchOfRendering(Groups("Dec", "29", Some("Jan"), "5"), "Dec. 29 - Jan. 5");
    ExampleYearEndGroups();
  }

  lemma ExampleYearEndGroups()
    ensures ParseGroups(Groups("Dec", "29", Some("Jan"), "5"), 2025) == Ok(Date(2025, 12, 29), Date(2026, 1, 5))
  {
    DigitsValueShort("29");
    DigitsValueShort("5");
    assert MonthNames[11] == "Dec" && MonthNames[0] == "Jan";
    ParseKnownDate(12, "29", 2025);
    ParseKnownDate(1, "5", 2025);
  }

  /** "Mar. 1 - Feb. 29" in a leap year: Feb 29 exists, but not one year later, so the move raises. */
  lemma ExampleLeapDayRollover()
    ensures Parse("Mar. 1 - Feb. 29", 2028) == Invalid
  {
    MatchOfRendering(Groups("Mar", "1", Some("Feb"), "29"), "Mar. 1 - Feb. 29");
    ExampleLeapDayRolloverGroups();
  }

  lemma ExampleLeapDayRolloverGroups()
    ensures ParseGroups(Groups("Mar", "1", Some("Feb"), "29"), 2028) == Invalid
  {
    DigitsValueShort("1");
    DigitsValueShort("29");
    assert MonthNames[1] == "Feb" && MonthNames[2] == "Mar";
    assert DaysInMonth(2028, 2) == 29 && DaysInMonth(2029, 2) == 28;
    ParseKnownDate(3, "1", 2028);
    ParseKnownDate(2, "29", 2028);
  }

  /**
    "Jan. 3 - 123. x": the optional month group fits "123. " but no digit
    follows, so the matcher backtracks and reads "123" as the end day, which
    `%d` then rejects.
   */
  lemma ExampleBacktrack()
    ensures Match("Jan. 3 - 123. x") == Some(Groups("Jan", "3", None, "123"))
    ensures Parse("Jan. 3 - 123. x", 2025) == Invalid
  {
    ExampleBacktrackMatch();
    assert !DayFieldMatches("123");
  }

  lemma ExampleBacktrackMatch()
    ensures Match("Jan. 3 - 123. x") == Some(Groups("Jan", "3", None, "123"))
  {
    var g := Groups("Jan", "3", None, "123");
    var s := "Jan. 3 - 123. x";
    assert Render(g) + ". x" == s;
    assert !IsDigit(s[14]);
    MatchRendered(g, ". x");
  }

}
