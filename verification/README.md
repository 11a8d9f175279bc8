# Poll dashboard: date-range parser and net-approval colour scale

This project models the two pure functions at the heart of a small polling
dashboard, `app.py` of a single-page app that charts approval polls by
category.

- `parse_date_range` reads a poll's free-text date range, such as
  `"Jan. 3 - 10"` or `"Dec. 29 - Jan. 5"`, and returns a start and an end date.
  It matches the prefix pattern `(\w{3})\. (\d+) - (?:(\w{3})\. )?(\d+)`. If
  there is no end month, the start month is reused. Both dates are built in
  the current year with `strptime("%b %d %Y")`. An end date that would fall
  before the start is moved to the next year. Text that does not match gives
  two missing values. A date that cannot exist raises `ValueError`.
- `get_net_color` maps a net approval value in percentage points to the
  background colour of its table cell. Positive values fade from white
  towards green and negative values towards red, and every value beyond ±100
  is clipped.

Modules, one per concept:

- `Wrappers` (`wrappers.dfy`): `Option`.
- `Text` (`text.dfy`): ASCII `\w` and `\d`, greedy digit runs, decimal values,
  and ASCII lower-casing.
- `Calendar` (`calendar.dfy`): Gregorian dates within `datetime`'s year range
  1..9999, leap years, and the chronological order that `datetime`'s `<` uses.
- `Strptime` (`strptime.dfy`): the `"%b %d %Y"` parse. `%b` is the
  case-insensitive C-locale month table. `%d` is the pattern
  `3[01]|[12]\d|0[1-9]|[1-9]| [1-9]`; the whitespace before it in the format
  takes the one space ahead of the day, so on the digit-only day tokens read
  here `%d` accepts exactly `3[01]|[12]\d|0[1-9]|[1-9]`. `%Y` needs four
  digits. The date must exist.
- `RangePattern` (`pattern.dfy`): `re.match` of the date-range pattern. It
  includes the backtracking choice for the optional end-month group.
- `DateRange` (`daterange.dfy`): `parse_date_range`. The result is
  `NoMatch` for the pair of missing values, `Invalid` for the raised
  `ValueError`, or `Ok(start, end)`.
- `ColorScale` (`colorscale.dfy`): `get_net_color` over exact reals, returning
  an `Rgb` triple.

The clock is a parameter: `Parse(text, currentYear)` takes the year that
`datetime.today().year` would return.

Two behaviours of the code worth stating:

- The year rollover (app.py:32-33) is decided by comparing whole dates, not
  just months. So `"Jan. 10 - 5"` also puts its end in the next year.
- The colour channels (app.py:69-79) cannot leave the byte range. Every
  channel lies in [5, 255], because 255 - 250 = 5.

## Model

| member | source | states |
|---|---|---|
| Text.Lower | app.py:29-30 | lower-casing keeps the length and maps each character on its own: ASCII capitals to their small letters, everything else unchanged; `%b` compares the lower-cased token with its table |
| Text.DigitRun | app.py:20 | the count a greedy `\d+` consumes: every character in the run is a digit, and the run ends at a non-digit or at the end of the text |
| Calendar.IsLeapYear | app.py:29-33 | the Gregorian leap-year rule that `datetime` applies: divisible by 4, and centuries only when divisible by 400 |
| Calendar.DaysInMonth | app.py:29-33 | the month-length table `datetime` checks days against: February has 29 days in a leap year and 28 otherwise; April, June, September and November have 30; the other seven months have 31 |
| Calendar.YearLength | app.py:29-33 | the twelve month lengths add up to 366 days in a leap year and 365 otherwise |
| Calendar.IsValidDate | app.py:29-33 | the dates `datetime` accepts: a year in 1..9999, a month in 1..12 and a day within the month; any valid date has a day in 1..31 |
| Calendar.BeforeTrichotomy | app.py:32 | the date order used by `end_date < start_date` is a strict total order: irreflexive, asymmetric and connected |
| Calendar.BeforeTransitive | app.py:32 | the date order is transitive |
| Strptime.MonthNumber | app.py:29-30 | `%b` gives month m exactly when the lower-cased token equals the m-th C-locale abbreviation; when no abbreviation equals it, there is no month |
| Strptime.MonthNumberOfName | app.py:29-30 | each English month abbreviation is read back as its own month number |
| Strptime.DayFieldMatches | app.py:29-30 | the `%d` directive on a digit-only token; whatever it accepts has one or two digits and is not "00" |
| Strptime.DayFieldMeaning | app.py:29-30 | on a digit string, the `%d` pattern accepts exactly the one- and two-digit numbers from 1 to 31 |
| Strptime.YearFieldMatches | app.py:29-30 | the `%Y` directive on the year written by the f-string; every year it accepts lies in `datetime`'s range 1..9999 |
| Strptime.YearFieldMeaning | app.py:29-30 | `%Y` accepts a year exactly when its decimal rendering has no sign and four digits |
| Strptime.ParseMonthDayYear | app.py:29-30 | strptime succeeds exactly when the month is known, `%d` matches, the year has four digits and the day fits in that month of that year; the result is then a valid date with those fields |
| Strptime.ParseFormatted | app.py:29-30 | round trip: every valid date with a four-digit year is read back unchanged from its `%b %d %Y` rendering |
| Strptime.LeapDay | app.py:29-30 | "Feb 29" is accepted exactly in leap years with a four-digit number |
| RangePattern.Match | app.py:20-22 | a match's groups are well formed: three word characters for each month and a non-empty digit run for each day |
| RangePattern.MatchSound | app.py:20 | a match consumes a prefix of the text that spells out exactly the captured groups, and the last day stops only at a non-digit or at the end |
| RangePattern.MatchRendered | app.py:20 | any text that starts with the rendering of well-formed groups matches, with the same start month and day; the groups are reproduced exactly unless a following digit or a preferred optional month group changes them; when that group fits, it is taken |
| RangePattern.MatchIgnoresRest | app.py:20 | the match depends only on the prefix it consumed: matching that prefix alone gives the same groups |
| RangePattern.MatchSeparator | app.py:20 | a match has " - " right after the start day |
| RangePattern.NoSeparatorNoMatch | app.py:20-22 | text with no " - " anywhere does not match |
| RangePattern.NoDotNoMatch | app.py:20-22 | text without "." right after the three-character month does not match |
| DateRange.EndMonthToken | app.py:25-26 | whichever month token is chosen, it has the three-word-character shape of a captured month; which one is chosen is stated on parse results by `DateRange.ParseSameMonth` and `DateRange.ParseEndDate` |
| DateRange.Parse | app.py:19-35 | the missing pair is returned exactly when the pattern does not match; a result with dates has two valid dates with start ≤ end |
| DateRange.ParseGroups | app.py:24-35 | after a match, the outcome is dates or a raised error, never the missing pair; dates returned are valid and ordered |
| DateRange.ParseGroupsOutcome | app.py:28-35 | proof step towards `DateRange.ParseOkIff`: after a match the result has dates exactly when both strptime calls succeed and, when the end precedes the start, the end date also exists one year later |
| DateRange.ParseMonthDayYearMeaning | app.py:29-30 | one strptime call succeeds exactly when the month is known, the year has four digits, the day has at most two digits, and the date exists |
| DateRange.ParseOkIff | app.py:28-33 | a matched range gives dates exactly when its months are known, its days have at most two digits and exist in the current year, the year has four digits, and a wrapped end date exists one year later; in every other matched case the call raises |
| DateRange.ParseStartDate | app.py:28-29 | on success the start date is exactly (current year, start month, start day) |
| DateRange.ParseEndDate | app.py:24-33 | on success the end date has the end month (the start month if none was given) and the last captured day; its year is the current year unless that date precedes the start, and then it is the next year |
| DateRange.ParseSameMonth | app.py:25-26 | without an end month, the end date is in the start month |
| DateRange.ParseYearBoundary | app.py:32-33 | an end month before the start month puts the end exactly one year after the start; a later end month keeps it in the same year; the two years never differ by more than one |
| DateRange.ParseIgnoresTrailingText | app.py:20 | text after the second day number does not change the result |
| DateRange.ExampleSameMonth | app.py:19-35 | "Jan. 3 - 10" in 2025 gives 2025-01-03 to 2025-01-10 |
| DateRange.ExampleYearEnd | app.py:32-33 | "Dec. 29 - Jan. 5" in 2025 gives 2025-12-29 to 2026-01-05 |
| DateRange.ExampleLeapDayRollover | app.py:32-33 | "Mar. 1 - Feb. 29" in 2028 raises, because Feb 29 does not exist one year later |
| DateRange.ExampleBacktrack | app.py:20-30 | in "Jan. 3 - 123. x" the optional month group is abandoned, the end day is "123", and `%d` then rejects it |
| ColorScale.Clip | app.py:67 | `np.clip` returns a value within the bounds: the lower bound for inputs below it, the upper bound for inputs above it, and the input itself otherwise |
| ColorScale.Normalize | app.py:67 | `value / 100` clipped to [-1, 1]: exactly value / 100 within ±100, 1 at or above 100, -1 at or below -100, and positive exactly when the value is |
| ColorScale.Trunc | app.py:73 | `int()` truncates toward zero: the result is the integer part, at most the argument for non-negative values and at least the argument for negative ones |
| ColorScale.TruncMonotone | app.py:73 | truncation toward zero is monotone |
| ColorScale.TruncNegate | app.py:73-78 | truncation commutes with negation, which is the property that makes the scale symmetric |
| ColorScale.NetColor | app.py:57-81 | positive values keep green at 255 with red equal to blue; zero and negative values keep red at 255 with green equal to blue; every channel lies in [5, 255] |
| ColorScale.GreennessIsShift | app.py:72-79 | green minus red is the truncated normalized value times 250, on both sides of zero |
| ColorScale.NetColorChannels | app.py:67-79 | the channel values in terms of min(v/100, 1) for positive values and max(v/100, -1) for the others, with factor 250 |
| ColorScale.NetColorMonotone | app.py:66-79 | a larger net value never gives a smaller green-minus-red |
| ColorScale.NetColorMirror | app.py:72-79 | negating the value swaps the red and green channels |
| ColorScale.NetColorWhite | app.py:66-79 | zero maps to white (255, 255, 255); a value maps to white exactly when it lies strictly between -0.4 and 0.4 |
| ColorScale.NetColorSaturates | app.py:67 | every value ≥ 100 gives (5, 255, 5), the colour of 100; every value ≤ -100 gives (255, 5, 5), the colour of -100 |
| ColorScale.NetColorOfMinusTen | app.py:66-79 | a net of -10 gives light red (255, 230, 230), not full red |

## Left out

- CSV download and column casts (app.py:13-16, 38-42): network I/O and pandas conversions.
- Group-by means and the summary sort (app.py:45-55): thin calls into pandas over floats.
- Dash layout, environment toggles and server start (app.py:10-11, 93-206, 257-259): UI and configuration.
- `update_graph` and `update_questions_table` (app.py:209-255): reactive callbacks around pandas filtering and plotly figure building.
- `datetime.today()`: replaced by the `currentYear` parameter.
- The `rgb(...)` string of `get_net_color`: the model returns the channel triple.
- Unicode `\w` and `\d`, and Unicode case folding under `re.IGNORECASE`: only ASCII letters, digits and `_` are word characters, and only ASCII digits are digits.
- Locales other than C: the month table is the twelve English abbreviations.
- Strptime.YearFieldMatches: states the four-digit condition of `%Y` as the range 1000..9999 instead of matching the rendered text; `Strptime.YearFieldMeaning` connects the two through the decimal length of the year.
- ColorScale.NetColor: is stated over exact reals, not IEEE doubles. Near a truncation boundary, rounding in `value / 100` or `normalized * 250` can move a float channel by one. NaN input, for which `int()` raises, is not modelled.
