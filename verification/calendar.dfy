/**
 * Calendar dates as the dated output directories use them: the
 * `strftime("%Y%m%d")` rendering and the `datetime.strptime(s, "%Y%m%d")`
 * parse, which follows CPython's `_strptime` patterns
 * `(\d\d\d\d)(1[0-2]|0[1-9]|[1-9])(3[01]|[12]\d|0[1-9]|[1-9]| [1-9])`:
 * ordered alternatives, a match anchored only at the start, then a rejection
 * of any text left over and of dates that do not exist.
 */
module Calendar {
  import opened Wrappers
  import opened Text

  datatype Date = Date(year: int, month: int, day: int)

  predicate IsLeap(y: int) {
    y % 4 == 0 && (y % 100 != 0 || y % 400 == 0)
  }

  function DaysInMonth(y: int, m: int): nat
    requires 1 <= m <= 12
  {
    if m == 2 then (if IsLeap(y) then 29 else 28)
    else if m == 4 || m == 6 || m == 9 || m == 11 then 30
    else 31
  }

  /** A date `datetime` accepts: years 1 to 9999, and a day that exists in its month. */
  predicate Valid(d: Date) {
    1 <= d.year <= 9999 && 1 <= d.month <= 12 && 1 <= d.day <= DaysInMonth(d.year, d.month)
  }

  function DaysInYear(y: int): nat {
    if IsLeap(y) then 366 else 365
  }

  function DaysBeforeYear(y: int): nat
    requires y >= 1
  {
    if y == 1 then 0 else DaysBeforeYear(y - 1) + DaysInYear(y - 1)
  }

  function DaysBeforeMonth(y: int, m: int): nat
    requires 1 <= m <= 13
  {
    if m == 1 then 0 else DaysBeforeMonth(y, m - 1) + DaysInMonth(y, m - 1)
  }

  /** Days from 0001-01-01 to `d`. */
  function DayNumber(d: Date): nat
    requires Valid(d)
  {
    DaysBeforeYear(d.year) + DaysBeforeMonth(d.year, d.month) + d.day - 1
  }

  /** The order `datetime` compares dates by: year, then month, then day. */
  predicate Before(a: Date, b: Date) {
    || a.year < b.year
    || (a.year == b.year && a.month < b.month)
    || (a.year == b.year && a.month == b.month && a.day < b.day)
  }

  lemma {:induction false} MonthsFillYear(y: int, m: int)
    requires 1 <= m <= 12
    ensures DaysBeforeMonth(y, m) + DaysInMonth(y, m) <= DaysInYear(y)
  {
    assert DaysBeforeMonth(y, 2) == 31;
    assert DaysBeforeMonth(y, 3) == 31 + DaysInMonth(y, 2);
    assert DaysBeforeMonth(y, 4) == DaysBeforeMonth(y, 3) + 31;
    assert DaysBeforeMonth(y, 5) == DaysBeforeMonth(y, 4) + 30;
    assert DaysBeforeMonth(y, 6) == DaysBeforeMonth(y, 5) + 31;
    assert DaysBeforeMonth(y, 7) == DaysBeforeMonth(y, 6) + 30;
    assert DaysBeforeMonth(y, 8) == DaysBeforeMonth(y, 7) + 31;
    assert DaysBeforeMonth(y, 9) == DaysBeforeMonth(y, 8) + 31;
    assert DaysBeforeMonth(y, 10) == DaysBeforeMonth(y, 9) + 30;
    assert DaysBeforeMonth(y, 11) == DaysBeforeMonth(y, 10) + 31;
    assert DaysBeforeMonth(y, 12) == DaysBeforeMonth(y, 11) + 30;
  }

  lemma {:induction false} MonthsIncrease(y: int, m1: int, m2: int)
    requires 1 <= m1 < m2 <= 12
    ensures DaysBeforeMonth(y, m1) + DaysInMonth(y, m1) <= DaysBeforeMonth(y, m2)
    decreases m2
  {
    if m1 < m2 - 1 {
      MonthsIncrease(y, m1, m2 - 1);
    }
  }

  lemma {:induction false} YearsIncrease(y1: int, y2: int)
    requires 1 <= y1 < y2
    ensures DaysBeforeYear(y1) + DaysInYear(y1) <= DaysBeforeYear(y2)
    decreases y2
  {
    if y1 < y2 - 1 {
      YearsIncrease(y1, y2 - 1);
    }
  }

  /** Comparing day numbers is comparing dates. */
  lemma DayNumberOrder(a: Date, b: Date)
    requires Valid(a) && Valid(b)
    ensures Before(a, b) <==> DayNumber(a) < DayNumber(b)
    ensures a == b <==> DayNumber(a) == DayNumber(b)
  {
    if Before(a, b) {
      DayNumberIncreases(a, b);
    } else if Before(b, a) {
      DayNumberIncreases(b, a);
    }
  }

  lemma DayNumberIncreases(a: Date, b: Date)
    requires Valid(a) && Valid(b) && Before(a, b)
    ensures DayNumber(a) < DayNumber(b)
  {
    if a.year < b.year {
      MonthsFillYear(a.year, a.month);
      YearsIncrease(a.year, b.year);
    } else if a.month < b.month {
      MonthsIncrease(a.year, a.month, b.month);
    }
  }

  /** `%m` / `%d` of `strftime`: two digits, zero-padded. */
  function TwoDigits(n: nat): (s: string)
    requires n < 100
    ensures |s| == 2 && AllDigits(s) && DigitsValue(s) == n
  {
    var s := [DigitChar(n / 10), DigitChar(n % 10)];
    assert s[..1] == [DigitChar(n / 10)] && [DigitChar(n / 10)][..0] == [];
    assert DigitsValue(s[..1]) == n / 10;
    s
  }

  /** `%Y` of `strftime` for a four-digit year. */
  function FourDigits(n: nat): (s: string)
    requires 1000 <= n <= 9999
    ensures |s| == 4 && AllDigits(s) && DigitsValue(s) == n
  {
    var s := TwoDigits(n / 100) + TwoDigits(n % 100);
    assert s[..3][..2] == TwoDigits(n / 100);
    assert s[..3] == TwoDigits(n / 100) + [s[2]];
    s
  }

  /** `strftime("%Y%m%d")`, for the four-digit years the clock produces. */
  function FormatYmd(d: Date): (s: string)
    requires Valid(d) && d.year >= 1000
    ensures |s| == 8 && AllDigits(s)
  {
    FourDigits(d.year) + TwoDigits(d.month) + TwoDigits(d.day)
  }

  /** A group match: its value and how many characters it took. */
  datatype Group = Group(value: nat, len: nat)

  predicate DigitIn(s: string, i: int, lo: char, hi: char) {
    0 <= i < |s| && lo <= s[i] <= hi
  }

  /** Two digits at `i` spelling a month, 01 to 12. */
  predicate TwoDigitMonth(s: string, i: int) {
    0 <= i && i + 1 < |s| && IsDigit(s[i]) && IsDigit(s[i + 1])
    && 1 <= 10 * DigitValue(s[i]) + DigitValue(s[i + 1]) <= 12
  }

  /** Two digits at `i` spelling a day, 01 to 31. */
  predicate TwoDigitDay(s: string, i: int) {
    0 <= i && i + 1 < |s| && IsDigit(s[i]) && IsDigit(s[i + 1])
    && 1 <= 10 * DigitValue(s[i]) + DigitValue(s[i + 1]) <= 31
  }

  /** A space and then a digit 1 to 9 at `i`. */
  predicate SpacedDay(s: string, i: int) {
    0 <= i && i + 1 < |s| && s[i] == ' ' && DigitIn(s, i + 1, '1', '9')
  }

  /** The alternatives of the month pattern `1[0-2]|0[1-9]|[1-9]` that match at `i`, in pattern order. */
  function MonthGroups(s: string, i: nat): (gs: seq<Group>)
    ensures forall k :: 0 <= k < |gs| ==>
              && 1 <= gs[k].value <= 12 && (gs[k].len == 1 || gs[k].len == 2) && i + gs[k].len <= |s|
              && IsDigit(s[i])
              && (gs[k].len == 1 ==> gs[k].value == DigitValue(s[i]))
              && (gs[k].len == 2 ==> IsDigit(s[i + 1]) && gs[k].value == 10 * DigitValue(s[i]) + DigitValue(s[i + 1]))
  {
    (if i < |s| && s[i] == '1' && DigitIn(s, i + 1, '0', '2') then [Group(10 + DigitValue(s[i + 1]), 2)] else [])
    + (if i < |s| && s[i] == '0' && DigitIn(s, i + 1, '1', '9') then [Group(DigitValue(s[i + 1]), 2)] else [])
    + (if DigitIn(s, i, '1', '9') then [Group(DigitValue(s[i]), 1)] else [])
  }

  /** The alternatives of the day pattern `3[01]|[12]\d|0[1-9]|[1-9]| [1-9]` that match at `i`, in pattern order. */
  function DayGroups(s: string, i: nat): (gs: seq<Group>)
    ensures forall k :: 0 <= k < |gs| ==>
              && 1 <= gs[k].value <= 31 && (gs[k].len == 1 || gs[k].len == 2) && i + gs[k].len <= |s|
              && (gs[k].len == 1 ==> IsDigit(s[i]) && gs[k].value == DigitValue(s[i]))
              && (gs[k].len == 2 && s[i] != ' ' ==>
                    IsDigit(s[i]) && IsDigit(s[i + 1]) && gs[k].value == 10 * DigitValue(s[i]) + DigitValue(s[i + 1]))
              && (gs[k].len == 2 && s[i] == ' ' ==> IsDigit(s[i + 1]) && gs[k].value == DigitValue(s[i + 1]))
  {
    (if DigitIn(s, i, '3', '3') && DigitIn(s, i + 1, '0', '1') then [Group(30 + DigitValue(s[i + 1]), 2)] else [])
    + (if DigitIn(s, i, '1', '2') && DigitIn(s, i + 1, '0', '9') then [Group(10 * DigitValue(s[i]) + DigitValue(s[i + 1]), 2)] else [])
    + (if DigitIn(s, i, '0', '0') && DigitIn(s, i + 1, '1', '9') then [Group(DigitValue(s[i + 1]), 2)] else [])
    + (if DigitIn(s, i, '1', '9') then [Group(DigitValue(s[i]), 1)] else [])
    + (if i < |s| && s[i] == ' ' && DigitIn(s, i + 1, '1', '9') then [Group(DigitValue(s[i + 1]), 2)] else [])
  }

  /** A whole match: month, day, and where it ends. */
  datatype YmdMatch = YmdMatch(month: nat, day: nat, end: nat)

  /**
   * The regular-expression search over the month alternatives `ms`: the first
   * month alternative after which some day alternative matches, with the first
   * such day alternative.
   */
  function FirstMatch(s: string, ms: seq<Group>): (r: Option<YmdMatch>)
    requires forall k :: 0 <= k < |ms| ==> 4 + ms[k].len <= |s|
    ensures r.None? <==> forall k :: 0 <= k < |ms| ==> DayGroups(s, 4 + ms[k].len) == []
    ensures r.Some? ==> exists k :: FitsFirst(s, ms, k) && r.value == MatchAt(s, ms[k])
  {
    if ms == [] then None
    else
      var ds := DayGroups(s, 4 + ms[0].len);
      if ds != [] then
        assert FitsFirst(s, ms, 0);
        Some(MatchAt(s, ms[0]))
      else
        var r := FirstMatch(s, ms[1..]);
        if r.None? then NoneShift(s, ms); r else FoundShift(s, ms, r.value); r
  }

  /** When the first month alternative admits no day, the first fit among the rest is the first fit overall. */
  lemma FitsShift(s: string, ms: seq<Group>)
    requires ms != [] && DayGroups(s, 4 + ms[0].len) == []
    ensures forall k :: FitsFirst(s, ms[1..], k) ==> FitsFirst(s, ms, k + 1)
  {
    forall k | FitsFirst(s, ms[1..], k)
      ensures FitsFirst(s, ms, k + 1)
    {
      forall j | 0 <= j < k + 1
        ensures DayGroups(s, 4 + ms[j].len) == []
      {
        if j > 0 {
          assert ms[j] == ms[1..][j - 1];
        }
      }
    }
  }

  /** When the first month alternative admits no day, a match found among the rest is the first fit overall. */
  lemma FoundShift(s: string, ms: seq<Group>, m: YmdMatch)
    requires ms != [] && DayGroups(s, 4 + ms[0].len) == []
    requires exists k :: FitsFirst(s, ms[1..], k) && m == MatchAt(s, ms[1..][k])
    ensures exists k :: FitsFirst(s, ms, k) && m == MatchAt(s, ms[k])
  {
    var k :| FitsFirst(s, ms[1..], k) && m == MatchAt(s, ms[1..][k]);
    FitsShift(s, ms);
    assert ms[1..][k] == ms[k + 1];
    assert FitsFirst(s, ms, k + 1);
  }

  /** When the first month alternative admits no day, none admits one if none of the rest does. */
  lemma NoneShift(s: string, ms: seq<Group>)
    requires ms != [] && DayGroups(s, 4 + ms[0].len) == []
    requires forall k :: 0 <= k < |ms| - 1 ==> DayGroups(s, 4 + ms[1..][k].len) == []
    ensures forall k :: 0 <= k < |ms| ==> DayGroups(s, 4 + ms[k].len) == []
  {
    forall k | 0 <= k < |ms|
      ensures DayGroups(s, 4 + ms[k].len) == []
    {
      if k > 0 {
        assert ms[k] == ms[1..][k - 1];
      }
    }
  }

  /** The match a month alternative `m` gives with the first day alternative after it. */
  function MatchAt(s: string, m: Group): YmdMatch
    requires DayGroups(s, 4 + m.len) != []
  {
    var d := DayGroups(s, 4 + m.len)[0];
    YmdMatch(m.value, d.value, 4 + m.len + d.len)
  }

  /** `ms[k]` is the first month alternative after which some day alternative matches. */
  ghost predicate FitsFirst(s: string, ms: seq<Group>, k: int) {
    && 0 <= k < |ms|
    && DayGroups(s, 4 + ms[k].len) != []
    && forall j :: 0 <= j < k ==> DayGroups(s, 4 + ms[j].len) == []
  }

  /**
   * `datetime.strptime(s, "%Y%m%d")` on ASCII text: none when it raises
   * `ValueError` (no match, text left over, or a date that does not exist).
   */
  function ParseYmd(s: string): (r: Option<Date>)
    ensures r.Some? ==> Valid(r.value)
  {
    if |s| < 4 || !AllDigits(s[..4]) then None
    else
      match FirstMatch(s, MonthGroups(s, 4))
      case None => None
      case Some(m) =>
        var d := Date(DigitsValue(s[..4]), m.month, m.day);
        if m.end == |s| && Valid(d) then Some(d) else None
  }

  /** A string of two digits is the two-digit rendering of its value. */
  lemma TwoDigitsOf(t: string)
    requires |t| == 2 && AllDigits(t)
    ensures DigitsValue(t) == 10 * DigitValue(t[0]) + DigitValue(t[1])
    ensures TwoDigits(DigitsValue(t)) == t
  {
    assert t[..1] == [t[0]] && [t[0]][..0] == [];
    assert DigitsValue(t[..1]) == DigitValue(t[0]);
  }

  /** A string of four digits with a value of at least 1000 is the rendering of that year. */
  lemma FourDigitsOf(t: string)
    requires |t| == 4 && AllDigits(t) && DigitsValue(t) >= 1000
    ensures DigitsValue(t) <= 9999 && FourDigits(DigitsValue(t)) == t
  {
    var a := DigitsValue(t[..2]);
    var b := DigitsValue(t[2..]);
    TwoDigitsOf(t[..2]);
    TwoDigitsOf(t[2..]);
    assert t[..3][..2] == t[..2] && t[..3][2] == t[2] && t[2..][0] == t[2] && t[2..][1] == t[3];
    assert DigitsValue(t[..3]) == 10 * a + DigitValue(t[2]);
    var n := DigitsValue(t);
    assert n == 100 * a + b;
    assert n / 100 == a && n % 100 == b;
    assert t[..2] + t[2..] == t;
  }

  /** What `FormatYmd` writes, `ParseYmd` reads back. */
  lemma ParseFormat(d: Date)
    requires Valid(d) && d.year >= 1000
    ensures ParseYmd(FormatYmd(d)) == Some(d)
  {
    var s := FormatYmd(d);
    assert s[..4] == FourDigits(d.year);
    assert s[4..6] == TwoDigits(d.month);
    assert s[6..8] == TwoDigits(d.day);
    var ms := MonthGroups(s, 4);
    assert ms[0] == Group(d.month, 2);
    var ds := DayGroups(s, 6);
    assert ds[0] == Group(d.day, 2);
  }

  /** Two digits at `i` read as a number are rendered back as those two digits. */
  lemma TwoDigitsAt(s: string, i: nat, v: nat)
    requires AllDigits(s) && i + 2 <= |s|
    requires v == 10 * DigitValue(s[i]) + DigitValue(s[i + 1])
    ensures v < 100 && s[i..i + 2] == TwoDigits(v)
  {
    var t := s[i..i + 2];
    assert t[0] == s[i] && t[1] == s[i + 1];
    TwoDigitsOf(t);
  }

  /**
   * The month readings are complete and in pattern order: at most two, a
   * two-digit reading first exactly when two digits spell 01 to 12, and a
   * one-digit reading last exactly when a digit 1 to 9 is at `i`.
   */
  lemma MonthReadings(s: string, i: nat)
    ensures var gs := MonthGroups(s, i);
            && |gs| <= 2
            && (TwoDigitMonth(s, i) <==> |gs| > 0 && gs[0].len == 2)
            && (DigitIn(s, i, '1', '9') <==> |gs| > 0 && gs[|gs| - 1].len == 1)
  {
  }

  /**
   * The day readings are complete and in pattern order: at most two, a
   * two-character reading first exactly when two digits spell 01 to 31 or a
   * space precedes a digit 1 to 9, and a one-digit reading last exactly when a
   * digit 1 to 9 is at `i`.
   */
  lemma DayReadings(s: string, i: nat)
    ensures var gs := DayGroups(s, i);
            && |gs| <= 2
            && (TwoDigitDay(s, i) || SpacedDay(s, i) <==> |gs| > 0 && gs[0].len == 2)
            && (DigitIn(s, i, '1', '9') <==> |gs| > 0 && gs[|gs| - 1].len == 1)
  {
  }

  /** A month alternative whose match runs to the end of an eight-digit text took two digits, and so did its day. */
  lemma MatchAtShape(s: string, mg: Group)
    requires |s| == 8 && AllDigits(s)
    requires mg in MonthGroups(s, 4) && DayGroups(s, 4 + mg.len) != []
    requires MatchAt(s, mg).end == 8
    ensures MatchAt(s, mg).month < 100 && MatchAt(s, mg).day < 100
    ensures s[4..6] == TwoDigits(MatchAt(s, mg).month) && s[6..8] == TwoDigits(MatchAt(s, mg).day)
  {
    var dg := DayGroups(s, 4 + mg.len)[0];
    assert mg.len == 2 && dg.len == 2;
    assert IsDigit(s[6]);
    TwoDigitsAt(s, 4, mg.value);
    TwoDigitsAt(s, 6, dg.value);
  }

  /**
   * A match that spans all of an eight-digit text, found among the month
   * alternatives from the `j`-th on, took two digits for the month and two
   * for the day.
   */
  lemma {:induction false} MatchShape(s: string, j: nat)
    ensures |s| == 8 && AllDigits(s) && j <= |MonthGroups(s, 4)| &&
            FirstMatch(s, MonthGroups(s, 4)[j..]).Some? && FirstMatch(s, MonthGroups(s, 4)[j..]).value.end == 8 ==>
            var m := FirstMatch(s, MonthGroups(s, 4)[j..]).value;
            && m.month < 100 && m.day < 100
            && s[4..6] == TwoDigits(m.month) && s[6..8] == TwoDigits(m.day)
    decreases |MonthGroups(s, 4)| - j
  {
    var gs := MonthGroups(s, 4);
    if |s| == 8 && AllDigits(s) && j <= |gs| && FirstMatch(s, gs[j..]).Some? && FirstMatch(s, gs[j..]).value.end == 8 {
      var ms := gs[j..];
      assert ms != [] && ms[0] == gs[j];
      if DayGroups(s, 4 + ms[0].len) != [] {
        MatchAtShape(s, gs[j]);
      } else {
        assert ms[1..] == gs[j + 1..];
        MatchShape(s, j + 1);
      }
    }
  }

  /** What a successful parse of eight characters is made of: the year digits and a match that runs to the end. */
  lemma ParsedParts(s: string)
    requires |s| == 8 && AllDigits(s) && ParseYmd(s).Some?
    ensures var r := FirstMatch(s, MonthGroups(s, 4));
            && r.Some? && r.value.end == 8
            && ParseYmd(s).value == Date(DigitsValue(s[..4]), r.value.month, r.value.day)
  {
  }

  /** Eight characters made of the renderings of a date's year, month and day are that date's rendering. */
  lemma RenderedParts(s: string, d: Date)
    requires |s| == 8 && Valid(d) && d.year >= 1000
    requires s[..4] == FourDigits(d.year) && s[4..6] == TwoDigits(d.month) && s[6..8] == TwoDigits(d.day)
    ensures FormatYmd(d) == s
  {
    assert s == s[..4] + s[4..6] + s[6..8];
  }

  /**
   * The converse of `ParseFormat`: an eight-digit text that `strptime` accepts
   * with a four-digit year is exactly what `strftime` writes for that date, so
   * the dated names are the only eight-digit spellings of their dates.
   */
  lemma FormatParse(s: string)
    requires |s| == 8 && AllDigits(s)
    ensures ParseYmd(s).Some? && ParseYmd(s).value.year >= 1000 ==> FormatYmd(ParseYmd(s).value) == s
  {
    var p := ParseYmd(s);
    if p.Some? && p.value.year >= 1000 {
      ParsedParts(s);
      assert MonthGroups(s, 4)[0..] == MonthGroups(s, 4);
      MatchShape(s, 0);
      FourDigitsOf(s[..4]);
      RenderedParts(s, p.value);
    }
  }
}
