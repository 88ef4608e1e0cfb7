/** The journey-date check `datetime.strptime(journey_date, "%Y-%m-%d")` and
    the day-of-month the calendar cell is chosen by.

    Python turns the format into the pattern
    `(\d\d\d\d)-(1[0-2]|0[1-9]|[1-9])-(3[01]|[12]\d|0[1-9]|[1-9]| [1-9])`,
    matches it at the start of the text (alternatives tried left to right),
    rejects the text when characters remain after the match, and finally
    rejects dates that do not exist (year 0, 30 February, ...). */
module JourneyDate {
  import opened Results

  datatype Date = Date(year: nat, month: nat, day: nat)

  /** Gregorian leap years. */
  predicate IsLeapYear(y: nat)
  {
    y % 4 == 0 && (y % 100 != 0 || y % 400 == 0)
  }

  function DaysInMonth(y: nat, m: nat): (n: nat)
    requires 1 <= m <= 12
    ensures 28 <= n <= 31
    ensures n == 29 <==> m == 2 && IsLeapYear(y)
  {
    if m == 2 then (if IsLeapYear(y) then 29 else 28)
    else if m == 4 || m == 6 || m == 9 || m == 11 then 30
    else 31
  }

  /** A date `datetime.date` accepts: years 1 to 9999, real months and days. */
  predicate IsCalendarDate(d: Date)
  {
    && 1 <= d.year <= 9999
    && 1 <= d.month <= 12
    && 1 <= d.day <= DaysInMonth(d.year, d.month)
  }

  /* --------------------------------------------------------------- digits */

  predicate IsDigit(c: char)
  {
    '0' <= c <= '9'
  }

  function DigitValue(c: char): (n: nat)
    requires IsDigit(c)
    ensures n < 10
  {
    (c as int) - ('0' as int)
  }

  function DigitChar(n: nat): (c: char)
    requires n < 10
    ensures IsDigit(c) && DigitValue(c) == n
  {
    (('0' as int) + n) as char
  }

  /** Two digits, with a leading zero below ten. */
  function Pad2(n: nat): (t: string)
    requires n < 100
    ensures |t| == 2 && IsDigit(t[0]) && IsDigit(t[1])
    ensures Value2(t) == n
  {
    [DigitChar(n / 10), DigitChar(n % 10)]
  }

  function Value2(t: string): nat
    requires |t| == 2 && IsDigit(t[0]) && IsDigit(t[1])
  {
    10 * DigitValue(t[0]) + DigitValue(t[1])
  }

  /** Four digits, with leading zeros. */
  function Pad4(n: nat): (t: string)
    requires n < 10000
    ensures |t| == 4 && forall i :: 0 <= i < 4 ==> IsDigit(t[i])
    ensures Value4(t) == n
  {
    var t := Pad2(n / 100) + Pad2(n % 100);
    Pad2OfValue(t[..2]);
    t
  }

  function Value4(t: string): nat
    requires |t| == 4 && forall i :: 0 <= i < 4 ==> IsDigit(t[i])
  {
    100 * Value2(t[..2]) + Value2(t[2..])
  }

  /** Two digits are the padded spelling of their value. */
  lemma Pad2OfValue(t: string)
    requires |t| == 2 && IsDigit(t[0]) && IsDigit(t[1])
    ensures Pad2(Value2(t)) == t
  {
    var a, b := DigitValue(t[0]), DigitValue(t[1]);
    assert (10 * a + b) / 10 == a && (10 * a + b) % 10 == b;
    DigitCharOfValue(t[0]);
    DigitCharOfValue(t[1]);
  }

  /** Four digits are the padded spelling of their value: `%Y` reads exactly
      the strings `Pad4` writes. */
  lemma Pad4OfValue(t: string)
    requires |t| == 4 && forall i :: 0 <= i < 4 ==> IsDigit(t[i])
    ensures Pad4(Value4(t)) == t
  {
    var hi, lo := Value2(t[..2]), Value2(t[2..]);
    assert (100 * hi + lo) / 100 == hi && (100 * hi + lo) % 100 == lo;
    Pad2OfValue(t[..2]);
    Pad2OfValue(t[2..]);
    assert t == t[..2] + t[2..];
  }

  lemma DigitCharOfValue(c: char)
    requires IsDigit(c)
    ensures DigitChar(DigitValue(c)) == c
  {
  }

  /* --------------------------------------------------------------- tokens */

  /** What `%m` matches at the start of `t`: the first of `1[0-2]`, `0[1-9]`
      and `[1-9]` that fits, as (month, characters used). */
  function MonthToken(t: string): (r: Option<(nat, nat)>)
    ensures r.Some? ==>
              var (m, n) := r.value;
              1 <= m <= 12 && 1 <= n <= 2 && n <= |t| && t[..n] in MonthSpellings(m)
  {
    if 2 <= |t| && t[0] == '1' && '0' <= t[1] <= '2' then
      Pad2OfValue(t[..2]);
      Some((10 + DigitValue(t[1]), 2))
    else if 2 <= |t| && t[0] == '0' && '1' <= t[1] <= '9' then
      Pad2OfValue(t[..2]);
      Some((DigitValue(t[1]), 2))
    else if 1 <= |t| && '1' <= t[0] <= '9' then
      DigitCharOfValue(t[0]);
      assert t[..1] == [t[0]];
      Some((DigitValue(t[0]), 1))
    else None
  }

  /** What `%d` matches at the start of `t`: the first of `3[01]`, `[12]\d`,
      `0[1-9]`, `[1-9]` and ` [1-9]` that fits, as (day, characters used). */
  function DayToken(t: string): (r: Option<(nat, nat)>)
    ensures r.Some? ==>
              var (d, n) := r.value;
              1 <= d <= 31 && 1 <= n <= 2 && n <= |t| && t[..n] in DaySpellings(d)
  {
    if 2 <= |t| && t[0] == '3' && '0' <= t[1] <= '1' then
      Pad2OfValue(t[..2]);
      Some((30 + DigitValue(t[1]), 2))
    else if 2 <= |t| && '1' <= t[0] <= '2' && IsDigit(t[1]) then
      Pad2OfValue(t[..2]);
      Some((10 * DigitValue(t[0]) + DigitValue(t[1]), 2))
    else if 2 <= |t| && t[0] == '0' && '1' <= t[1] <= '9' then
      Pad2OfValue(t[..2]);
      Some((DigitValue(t[1]), 2))
    else if 1 <= |t| && '1' <= t[0] <= '9' then
      DigitCharOfValue(t[0]);
      assert t[..1] == [t[0]];
      Some((DigitValue(t[0]), 1))
    else if 2 <= |t| && t[0] == ' ' && '1' <= t[1] <= '9' then
      DigitCharOfValue(t[1]);
      assert t[..2] == [t[0], t[1]];
      Some((DigitValue(t[1]), 2))
    else None
  }

  /** The spellings `%m` accepts for month `m`. */
  function MonthSpellings(m: nat): set<string>
    requires m < 100
  {
    {Pad2(m)} + (if 1 <= m <= 9 then {[DigitChar(m)]} else {})
  }

  /** The spellings `%d` accepts for day `d`: also unpadded, or padded with a
      space instead of a zero. */
  function DaySpellings(d: nat): set<string>
    requires d < 100
  {
    {Pad2(d)} + (if 1 <= d <= 9 then {[DigitChar(d)], [' ', DigitChar(d)]} else {})
  }

  /** Every text `%Y-%m-%d` reads as `d`. */
  function Renderings(d: Date): set<string>
    requires IsCalendarDate(d)
  {
    set ms, ds | ms in MonthSpellings(d.month) && ds in DaySpellings(d.day) ::
      Pad4(d.year) + "-" + ms + "-" + ds
  }

  /** The canonical ISO spelling, `YYYY-MM-DD`. */
  function Iso(d: Date): (s: string)
    requires IsCalendarDate(d)
    ensures s in Renderings(d)
    ensures |s| == 10
  {
    assert Pad2(d.month) in MonthSpellings(d.month) && Pad2(d.day) in DaySpellings(d.day);
    Pad4(d.year) + "-" + Pad2(d.month) + "-" + Pad2(d.day)
  }

  /* ---------------------------------------------------------------- parse */

  /** `datetime.strptime(s, "%Y-%m-%d")`: the date, or `None` where Python
      raises `ValueError`. */
  function ParseDate(s: string): (r: Option<Date>)
    ensures r.Some? ==> IsCalendarDate(r.value) && s in Renderings(r.value)
  {
    if |s| < 5 || !(forall i :: 0 <= i < 4 ==> IsDigit(s[i])) || s[4] != '-' then None
    else
      var year := Value4(s[..4]);
      match MonthToken(s[5..])
      case None => None
      case Some((month, ml)) =>
        var p := 5 + ml;
        if |s| <= p || s[p] != '-' then None
        else match DayToken(s[p + 1..])
          case None => None
          case Some((day, dl)) =>
            var d := Date(year, month, day);
            if p + 1 + dl != |s| || !IsCalendarDate(d) then None
            else
              assert s[5..p] == s[5..][..ml] && s[p + 1..] == s[p + 1..][..dl];
              ParsedIsRendering(s, d, p);
              Some(d)
  }

  /** Text cut into a year, a month spelling and a day spelling is one of
      the date's renderings. */
  lemma ParsedIsRendering(s: string, d: Date, p: nat)
    requires IsCalendarDate(d)
    requires 5 < p < |s| && s[4] == '-' && s[p] == '-'
    requires forall i :: 0 <= i < 4 ==> IsDigit(s[i])
    requires Value4(s[..4]) == d.year
    requires s[5..p] in MonthSpellings(d.month) && s[p + 1..] in DaySpellings(d.day)
    ensures s in Renderings(d)
  {
    Pad4OfValue(s[..4]);
    assert s == Pad4(d.year) + "-" + s[5..p] + "-" + s[p + 1..];
  }

  /* -------------------------------------------------------- completeness */

  lemma MonthTokenOf(m: nat, ms: string, rest: string)
    requires 1 <= m <= 12 && ms in MonthSpellings(m)
    ensures MonthToken(ms + "-" + rest) == Some((m, |ms|))
  {
    var t := ms + "-" + rest;
    if ms == Pad2(m) {
      assert t[0] == ms[0] && t[1] == ms[1];
    } else {
      assert t[0] == ms[0] && t[1] == '-';
    }
  }

  lemma DayTokenOf(d: nat, ds: string)
    requires 1 <= d <= 31 && ds in DaySpellings(d)
    ensures DayToken(ds) == Some((d, |ds|))
  {
  }

  /** Every rendering of a real date parses back to it. */
  lemma ParseRendering(d: Date, s: string)
    requires IsCalendarDate(d) && s in Renderings(d)
    ensures ParseDate(s) == Some(d)
  {
    var ms, ds :| ms in MonthSpellings(d.month) && ds in DaySpellings(d.day)
                  && s == Pad4(d.year) + "-" + ms + "-" + ds;
    var y := Pad4(d.year);
    assert s[..4] == y;
    assert s[4] == '-';
    assert s[5..] == ms + "-" + ds;
    MonthTokenOf(d.month, ms, ds);
    var p := 5 + |ms|;
    assert s[p] == '-';
    assert s[p + 1..] == ds;
    DayTokenOf(d.day, ds);
  }

  /** `strptime` accepts exactly the renderings of real dates. */
  lemma ParseDateExact(s: string, d: Date)
    ensures ParseDate(s) == Some(d) <==> IsCalendarDate(d) && s in Renderings(d)
  {
    if IsCalendarDate(d) && s in Renderings(d) {
      ParseRendering(d, s);
    }
  }

  /** Every real date round-trips through its ISO spelling. */
  lemma ParseIso(d: Date)
    requires IsCalendarDate(d)
    ensures ParseDate(Iso(d)) == Some(d)
  {
    ParseRendering(d, Iso(d));
  }

  /* ------------------------------------------------------------- day text */

  /** `str(day)`: the day of the month in decimal, without leading zero. */
  function DayText(day: nat): (t: string)
    requires 1 <= day <= 31
    ensures 1 <= |t| <= 2 && t[0] != '0'
    ensures forall i :: 0 <= i < |t| ==> IsDigit(t[i])
    ensures |t| == 1 ==> DigitValue(t[0]) == day
    ensures |t| == 2 ==> 10 * DigitValue(t[0]) + DigitValue(t[1]) == day
  {
    if day < 10 then [DigitChar(day)] else Pad2(day)
  }

  /** Different days have different cell texts. */
  lemma DayTextInjective(a: nat, b: nat)
    requires 1 <= a <= 31 && 1 <= b <= 31
    ensures DayText(a) == DayText(b) <==> a == b
  {
  }

  /* ------------------------------------------------------------- examples */

  /** The documented example is accepted. */
  lemma DocumentedExample()
    ensures ParseDate("2025-10-18") == Some(Date(2025, 10, 18))
  {
    IsoExample(Date(2025, 10, 18), "2025-10-18");
  }

  /** Unpadded months and days are accepted too, which the `YYYY-MM-DD`
      wording does not mention. */
  lemma UnpaddedExample()
    ensures ParseDate("2025-1-5") == Some(Date(2025, 1, 5))
  {
    var d := Date(2025, 1, 5);
    assert [DigitChar(1)] in MonthSpellings(1) && [DigitChar(5)] in DaySpellings(5);
    assert "2025-1-5" == Pad4(2025) + "-" + [DigitChar(1)] + "-" + [DigitChar(5)];
    ParseRendering(d, "2025-1-5");
  }

  /** `YYYY-02-29` is accepted exactly in leap years. */
  lemma LeapDay(y: nat)
    requires 1 <= y <= 9999
    ensures ParseDate(Pad4(y) + "-02-29").Some? <==> IsLeapYear(y)
  {
    var s := Pad4(y) + "-02-29";
    Pad2OfValue("02");
    Pad2OfValue("29");
    if IsLeapYear(y) {
      assert Iso(Date(y, 2, 29)) == s;
      ParseIso(Date(y, 2, 29));
    } else {
      assert s[..4] == Pad4(y) && s[4] == '-';
      assert s[5..] == "02-29" && s[8..] == "29";
      assert MonthToken("02-29") == Some((2, 2));
      assert DayToken("29") == Some((29, 2));
    }
  }

  lemma IsoExample(d: Date, s: string)
    requires IsCalendarDate(d) && s == Iso(d)
    ensures ParseDate(s) == Some(d)
  {
    ParseIso(d);
  }

  /** Other layouts are rejected. */
  lemma RejectedLayouts()
    ensures ParseDate("2025/10/18") == None
    ensures ParseDate("18-10-2025") == None
    ensures ParseDate("") == None
  {
    assert "2025/10/18"[4] == '/';
    assert !IsDigit("18-10-2025"[2]);
  }

  /** Year 0 is rejected. */
  lemma RejectedYearZero()
    ensures ParseDate("0000-01-01") == None
  {
    RejectedDate("0000-01-01", "0000", "01-01", "01");
  }

  /** 29 February outside leap years is rejected, 1900 included. */
  lemma RejectedLeapDays()
    ensures ParseDate("2025-02-29") == None
    ensures ParseDate("1900-02-29") == None
  {
    RejectedDate("2025-02-29", "2025", "02-29", "29");
    RejectedDate("1900-02-29", "1900", "02-29", "29");
  }

  /** A day past the end of its month is rejected. */
  lemma RejectedMonthEnd()
    ensures ParseDate("2025-04-31") == None
  {
    RejectedDate("2025-04-31", "2025", "04-31", "31");
  }

  /** A well-formed ten-character text whose date does not exist. */
  lemma RejectedDate(s: string, y: string, rest: string, dd: string)
    requires |s| == 10 && s[..4] == y && s[4] == '-' && s[5..] == rest && s[8..] == dd
    requires forall i :: 0 <= i < 4 ==> IsDigit(y[i])
    requires MonthToken(rest).Some? && MonthToken(rest).value.1 == 2 && s[7] == '-'
    requires DayToken(dd).Some? && DayToken(dd).value.1 == 2
    requires !IsCalendarDate(Date(Value4(y), MonthToken(rest).value.0, DayToken(dd).value.0))
    ensures ParseDate(s) == None
  {
  }
}
