/**
  The date-range pattern `(\w{3})\. (\d+) - (?:(\w{3})\. )?(\d+)` applied
  with `re.match`: anchored at the start of the text only, so anything after
  the second day number is ignored.

  The backtracking matcher's choices are modelled as it makes them:
  - the first `(\d+)` must be followed by " - ", so it takes the whole run of
    digits;
  - the optional month group is tried first, and is kept when it fits and a
    digit follows it; otherwise the matcher backtracks and reads the end day
    right after " - ";
  - the last `(\d+)` is greedy and nothing follows it, so it takes the whole
    run of digits.
 */
module RangePattern {

  import opened Wrappers
  import opened Text

  /**
    The four capture groups; `endMonth` is `None` when the optional group did
    not take part in the match.
   */
  datatype Groups = Groups(startMonth: string, startDay: string, endMonth: Option<string>, endDay: string)

  /** What `\w{3}` matches. */
  predicate IsMonthToken(t: string) {
    |t| == 3 && AllWordChars(t)
  }

  /** What `\d+` matches. */
  predicate IsDayToken(t: string) {
    |t| > 0 && AllDigits(t)
  }

  predicate WellFormed(g: Groups) {
    && IsMonthToken(g.startMonth)
    && IsDayToken(g.startDay)
    && (g.endMonth.Some? ==> IsMonthToken(g.endMonth.value))
    && IsDayToken(g.endDay)
  }

  /** The optional part `(?:(\w{3})\. )?` as it appears in the text. */
  function EndMonthText(g: Groups): string {
    if g.endMonth.Some? then g.endMonth.value + ". " else ""
  }

  /** The text the pattern consumes when it captures `g`. */
  function Render(g: Groups): string {
    g.startMonth + ". " + g.startDay + " - " + EndMonthText(g) + g.endDay
  }

  /** Whether the optional month group fits at `k` with a digit after it, so that `(\d+)` can follow. */
  predicate EndMonthFitsAt(s: string, k: nat) {
    && k + 5 < |s|
    && IsWordChar(s[k]) && IsWordChar(s[k + 1]) && IsWordChar(s[k + 2])
    && s[k + 3] == '.' && s[k + 4] == ' '
    && IsDigit(s[k + 5])
  }

  /** `re.match` of the date-range pattern against `s`: the captured groups, or `None` when it does not match. */
  function Match(s: string): (r: Option<Groups>)
    ensures r.Some? ==> WellFormed(r.value)
  {
    if |s| < 5 || !IsMonthToken(s[..3]) || s[3] != '.' || s[4] != ' ' then None
    else
      var j := 5 + DigitRun(s, 5);
      if j == 5 || |s| < j + 3 || s[j..j + 3] != " - " then None
      else
        var k := j + 3;
        if EndMonthFitsAt(s, k) then
          Some(Groups(s[..3], s[5..j], Some(s[k..k + 3]), s[k + 5..k + 5 + DigitRun(s, k + 5)]))
        else
          var n := DigitRun(s, k);
          if n == 0 then None
          else Some(Groups(s[..3], s[5..j], None, s[k..k + n]))
  }

  /** The steps `Match` takes once the start month, the start day and " - " are in place. */
  lemma MatchHead(s: string, a: nat)
    requires 5 <= |s| && IsMonthToken(s[..3]) && s[3] == '.' && s[4] == ' '
    requires 0 < a && DigitRun(s, 5) == a && SeparatorAt(s, 5 + a)
    ensures EndMonthFitsAt(s, 8 + a) ==>
              Match(s) == Some(Groups(s[..3], s[5..5 + a], Some(s[8 + a..11 + a]), s[13 + a..13 + a + DigitRun(s, 13 + a)]))
    ensures !EndMonthFitsAt(s, 8 + a) && 0 < DigitRun(s, 8 + a) ==>
              Match(s) == Some(Groups(s[..3], s[5..5 + a], None, s[8 + a..8 + a + DigitRun(s, 8 + a)]))
  {
  }

  lemma PrefixSplit(s: string, a: nat, b: nat)
    requires a <= b <= |s|
    ensures s[..b] == s[..a] + s[a..b]
  {
  }

  /**
    Soundness: a match consumes a prefix of the text spelling out exactly the
    captured groups, and the last day number stops only at a non-digit or at
    the end of the text.
   */
  lemma MatchSound(s: string)
    ensures Match(s).Some? ==>
              var n := |Render(Match(s).value)|;
              && n <= |s|
              && s[..n] == Render(Match(s).value)
              && (n == |s| || !IsDigit(s[n]))
  {
    if Match(s).Some? {
      var g := Match(s).value;
      var j := 5 + |g.startDay|;
      var k := j + 3;
      assert s[..5] == g.startMonth + ". " by {
        PrefixSplit(s, 3, 5);
      }
      PrefixSplit(s, 5, j);
      PrefixSplit(s, j, k);
      assert s[..k] == g.startMonth + ". " + g.startDay + " - ";
      if g.endMonth.Some? {
        MatchSoundWithEndMonth(s, g, k);
      } else {
        MatchSoundWithoutEndMonth(s, g, k);
      }
    }
  }

  lemma MatchSoundWithEndMonth(s: string, g: Groups, k: nat)
    requires Match(s) == Some(g) && g.endMonth.Some? && k == 8 + |g.startDay|
    requires k <= |s| && s[..k] == g.startMonth + ". " + g.startDay + " - "
    ensures var n := |Render(g)|;
            n <= |s| && s[..n] == Render(g) && (n == |s| || !IsDigit(s[n]))
  {
    assert EndMonthFitsAt(s, k);
    var e := k + 5 + |g.endDay|;
    assert s[k..k + 5] == g.endMonth.value + ". ";
    PrefixSplit(s, k, k + 5);
    PrefixSplit(s, k + 5, e);
    assert s[..e] == Render(g);
  }

  lemma MatchSoundWithoutEndMonth(s: string, g: Groups, k: nat)
    requires Match(s) == Some(g) && g.endMonth.None? && k == 8 + |g.startDay|
    requires k <= |s| && s[..k] == g.startMonth + ". " + g.startDay + " - "
    ensures var n := |Render(g)|;
            n <= |s| && s[..n] == Render(g) && (n == |s| || !IsDigit(s[n]))
  {
    assert !EndMonthFitsAt(s, k);
    var e := k + |g.endDay|;
    PrefixSplit(s, k, e);
    assert s[..e] == Render(g);
  }

  /**
    Completeness: text that begins with the rendering of well-formed groups
    always matches, with the same start month and day. The captured groups are
    exactly `g` when nothing after the rendering could extend it: no digit
    lengthening the end day, and, when `g` has no end month, no text that lets
    the preferred optional month group fit instead; when that group does fit,
    the match takes it.
   */
  lemma MatchRendered(g: Groups, t: string)
    requires WellFormed(g)
    ensures Match(Render(g) + t).Some?
    ensures Match(Render(g) + t).value.startMonth == g.startMonth
    ensures Match(Render(g) + t).value.startDay == g.startDay
    ensures g.endMonth.Some? && (t == [] || !IsDigit(t[0])) ==> Match(Render(g) + t) == Some(g)
    ensures g.endMonth.None? && EndMonthFitsAt(Render(g) + t, 8 + |g.startDay|) ==>
              Match(Render(g) + t).value.endMonth.Some?
    ensures g.endMonth.None? && (t == [] || !IsDigit(t[0])) && !EndMonthFitsAt(Render(g) + t, 8 + |g.startDay|) ==>
              Match(Render(g) + t) == Some(g)
    ensures g.endMonth.None? && (t == [] || (!IsWordChar(t[0]) && t[0] != '.')) ==>
              Match(Render(g) + t) == Some(g)
  {
    RenderLayout(g, t);
    if g.endMonth.Some? {
      MatchRenderedWithEndMonth(g, t);
    } else {
      MatchRenderedWithoutEndMonth(g, t);
      if t == [] || (!IsWordChar(t[0]) && t[0] != '.') {
        NoEndMonthFits(g, t);
      }
    }
  }

  /** Where each group of `g` sits in `Render(g) + t`. */
  predicate Layout(g: Groups, t: string) {
    var s, j := Render(g) + t, 5 + |g.startDay|;
    var k, m := j + 3, |EndMonthText(g)|;
    && |g.startMonth| == 3
    && |s| == k + m + |g.endDay| + |t|
    && s[..3] == g.startMonth
    && s[3] == '.' && s[4] == ' '
    && s[5..j] == g.startDay
    && s[j..k] == " - "
    && s[k..k + m] == EndMonthText(g)
    && s[k + m..k + m + |g.endDay|] == g.endDay
    && s[k + m + |g.endDay|..] == t
  }

  lemma RenderLayout(g: Groups, t: string)
    requires WellFormed(g)
    ensures Layout(g, t)
  {
    var a := g.startMonth + ". " + g.startDay + " - ";
    var s := Render(g) + t;
    assert s == a + EndMonthText(g) + g.endDay + t;
    assert s[..|a|] == a;
  }

  lemma MatchRenderedWithEndMonth(g: Groups, t: string)
    requires WellFormed(g) && g.endMonth.Some? && Layout(g, t)
    ensures Match(Render(g) + t).Some?
    ensures Match(Render(g) + t).value.startMonth == g.startMonth
    ensures Match(Render(g) + t).value.startDay == g.startDay
    ensures t == [] || !IsDigit(t[0]) ==> Match(Render(g) + t) == Some(g)
  {
    var s := Render(g) + t;
    var a := |g.startDay|;
    var k := 8 + a;
    DigitRunExact(s, 5, a);
    assert SeparatorAt(s, 5 + a);
    assert s[k..k + 5] == g.endMonth.value + ". ";
    assert s[k..k + 3] == g.endMonth.value;
    assert s[k + 5] == g.endDay[0];
    assert EndMonthFitsAt(s, k);
    if t == [] || !IsDigit(t[0]) {
      DigitRunExact(s, k + 5, |g.endDay|);
    }
    MatchHead(s, a);
  }

  lemma MatchRenderedWithoutEndMonth(g: Groups, t: string)
    requires WellFormed(g) && g.endMonth.None? && Layout(g, t)
    ensures Match(Render(g) + t).Some?
    ensures Match(Render(g) + t).value.startMonth == g.startMonth
    ensures Match(Render(g) + t).value.startDay == g.startDay
    ensures EndMonthFitsAt(Render(g) + t, 8 + |g.startDay|) ==> Match(Render(g) + t).value.endMonth.Some?
    ensures (t == [] || !IsDigit(t[0])) && !EndMonthFitsAt(Render(g) + t, 8 + |g.startDay|) ==>
              Match(Render(g) + t) == Some(g)
  {
    var s := Render(g) + t;
    var a := |g.startDay|;
    var k := 8 + a;
    DigitRunExact(s, 5, a);
    assert SeparatorAt(s, 5 + a);
    assert s[k..k + |g.endDay|] == g.endDay;
    assert IsDigit(s[k]);
    if t == [] || !IsDigit(t[0]) {
      DigitRunExact(s, k, |g.endDay|);
    }
    MatchHead(s, a);
  }

  /** Without an end month, text after the end day that neither continues a word nor starts with "." keeps the optional group from fitting. */
  lemma NoEndMonthFits(g: Groups, t: string)
    requires WellFormed(g) && g.endMonth.None? && Layout(g, t)
    requires t == [] || (!IsWordChar(t[0]) && t[0] != '.')
    ensures !EndMonthFitsAt(Render(g) + t, 8 + |g.startDay|)
  {
    var s := Render(g) + t;
    var k := 8 + |g.startDay|;
    var e := k + |g.endDay|;
    assert s[k..e] == g.endDay;
    if |g.endDay| >= 4 {
      assert IsDigit(s[k + 3]);
    } else if e < |s| {
      assert s[e] == t[0];
    }
  }

  /** What was matched depends only on the consumed prefix: matching that prefix alone gives the same groups. */
  lemma MatchIgnoresRest(s: string)
    ensures Match(s).Some? ==> Match(Render(Match(s).value)) == Match(s)
  {
    if Match(s).Some? {
      var g := Match(s).value;
      MatchRendered(g, []);
      assert Render(g) + [] == Render(g);
    }
  }

  predicate SeparatorAt(s: string, i: nat) {
    i + 3 <= |s| && s[i..i + 3] == " - "
  }

  /** A match has " - " right after the start day. */
  lemma MatchSeparator(s: string)
    ensures Match(s).Some? ==> SeparatorAt(s, 5 + |Match(s).value.startDay|)
  {
  }

  /** Text with no " - " anywhere does not match. */
  lemma NoSeparatorNoMatch(s: string)
    requires forall i: nat :: !SeparatorAt(s, i)
    ensures Match(s).None?
  {
    MatchSeparator(s);
  }

  /** Text whose fourth character is not "." after the month does not match. */
  lemma NoDotNoMatch(s: string)
    requires |s| < 4 || s[3] != '.'
    ensures Match(s).None?
  {
  }

}
