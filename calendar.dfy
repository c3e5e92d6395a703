/** Calendar arithmetic and the two text formats the application uses for a
    transaction's moment: the page renders a date with `strftime('%m/%d/%Y')`
    and a time with `strftime('%H:%M')` (pages/2_Fraud_Prediction.py), and the
    feature pipeline joins them with a blank and parses the result with
    `pd.to_datetime(..., format='%m/%d/%Y %H:%M')` (app.py). */
module Calendar {
  import opened Common

  datatype Date = Date(year: int, month: int, day: int)
  datatype Time = Time(hour: int, minute: int)
  /** A parsed timestamp; the format has no seconds, so they are zero. */
  datatype Stamp = Stamp(date: Date, time: Time)

  // ---------------------------------------------------------------------
  // The proleptic Gregorian calendar of Python's `datetime.date`.

  predicate IsLeapYear(y: int) {
    y % 4 == 0 && (y % 100 != 0 || y % 400 == 0)
  }

  function DaysInMonth(y: int, m: int): (n: int)
    requires 1 <= m <= 12
    ensures 28 <= n <= 31
  {
    if m == 2 then (if IsLeapYear(y) then 29 else 28)
    else if m == 4 || m == 6 || m == 9 || m == 11 then 30
    else 31
  }

  /** `datetime.date(y, m, d)` accepts exactly these. */
  predicate IsValidDate(d: Date) {
    1 <= d.year <= 9999 && 1 <= d.month <= 12 && 1 <= d.day <= DaysInMonth(d.year, d.month)
  }

  predicate IsValidTime(t: Time) {
    0 <= t.hour <= 23 && 0 <= t.minute <= 59
  }

  function DaysBeforeYear(y: int): int
    requires y >= 1
  {
    var p := y - 1;
    365 * p + p / 4 - p / 100 + p / 400
  }

  function DaysBeforeMonth(y: int, m: int): int
    requires 1 <= m <= 13
  {
    if m == 1 then 0 else DaysBeforeMonth(y, m - 1) + DaysInMonth(y, m - 1)
  }

  /** `date.toordinal()`: 0001-01-01 is day 1. */
  function Ordinal(d: Date): int
    requires IsValidDate(d)
  {
    DaysBeforeYear(d.year) + DaysBeforeMonth(d.year, d.month) + d.day
  }

  /** `date.weekday()` (pandas' `dt.dayofweek`): Monday is 0 and Sunday is 6. */
  function Weekday(d: Date): int
    requires IsValidDate(d)
  {
    (Ordinal(d) + 6) % 7
  }

  /** The calendar day after `d`. */
  function NextDay(d: Date): (e: Date)
    requires IsValidDate(d) && d != Date(9999, 12, 31)
    ensures IsValidDate(e)
  {
    if d.day < DaysInMonth(d.year, d.month) then Date(d.year, d.month, d.day + 1)
    else if d.month < 12 then Date(d.year, d.month + 1, 1)
    else Date(d.year + 1, 1, 1)
  }

  lemma MonthsOfYear(y: int)
    ensures DaysBeforeMonth(y, 13) == if IsLeapYear(y) then 366 else 365
  {
    var leap := if IsLeapYear(y) then 1 else 0;
    assert DaysBeforeMonth(y, 2) == 31;
    assert DaysBeforeMonth(y, 3) == 59 + leap;
    assert DaysBeforeMonth(y, 4) == 90 + leap;
    assert DaysBeforeMonth(y, 5) == 120 + leap;
    assert DaysBeforeMonth(y, 6) == 151 + leap;
    assert DaysBeforeMonth(y, 7) == 181 + leap;
    assert DaysBeforeMonth(y, 8) == 212 + leap;
    assert DaysBeforeMonth(y, 9) == 243 + leap;
    assert DaysBeforeMonth(y, 10) == 273 + leap;
    assert DaysBeforeMonth(y, 11) == 304 + leap;
    assert DaysBeforeMonth(y, 12) == 334 + leap;
  }

  lemma YearLength(y: int)
    requires 1 <= y
    ensures DaysBeforeYear(y + 1) == DaysBeforeYear(y) + DaysBeforeMonth(y, 13)
  {
    MonthsOfYear(y);
    var p := y - 1;
    assert (p + 1) / 4 == p / 4 + (if y % 4 == 0 then 1 else 0);
    assert (p + 1) / 100 == p / 100 + (if y % 100 == 0 then 1 else 0);
    assert (p + 1) / 400 == p / 400 + (if y % 400 == 0 then 1 else 0);
  }

  /** Ordinals count days one by one, so weekdays cycle Monday..Sunday. */
  lemma {:induction false} NextDayOrdinal(d: Date)
    requires IsValidDate(d) && d != Date(9999, 12, 31)
    ensures Ordinal(NextDay(d)) == Ordinal(d) + 1
    ensures Weekday(NextDay(d)) == (Weekday(d) + 1) % 7
  {
    var e := NextDay(d);
    if d.day < DaysInMonth(d.year, d.month) {
      assert e == Date(d.year, d.month, d.day + 1);
    } else if d.month < 12 {
      assert e == Date(d.year, d.month + 1, 1);
      assert DaysBeforeMonth(d.year, d.month + 1) == DaysBeforeMonth(d.year, d.month) + DaysInMonth(d.year, d.month);
    } else {
      assert e == Date(d.year + 1, 1, 1);
      YearLength(d.year);
    }
    ConsecutiveWeekdays(d, e);
  }

  /** Two dates one ordinal apart are one weekday apart, Sunday wrapping to
      Monday. */
  lemma ConsecutiveWeekdays(d: Date, e: Date)
    requires IsValidDate(d) && IsValidDate(e) && Ordinal(e) == Ordinal(d) + 1
    ensures Weekday(e) == (Weekday(d) + 1) % 7
  {
  }

  /** The range of pandas' nanosecond timestamps, 1677-09-21 00:12:43.145224193
      to 2262-04-11 23:47:16.854775807, seen at the resolution of a minute. */
  const FirstStamp := Stamp(Date(1677, 9, 21), Time(0, 13))
  const LastStamp := Stamp(Date(2262, 4, 11), Time(23, 47))

  predicate StampLe(a: Stamp, b: Stamp) {
    if a.date.year != b.date.year then a.date.year < b.date.year
    else if a.date.month != b.date.month then a.date.month < b.date.month
    else if a.date.day != b.date.day then a.date.day < b.date.day
    else if a.time.hour != b.time.hour then a.time.hour < b.time.hour
    else a.time.minute <= b.time.minute
  }

  predicate InTimestampRange(s: Stamp) {
    StampLe(FirstStamp, s) && StampLe(s, LastStamp)
  }

  // ---------------------------------------------------------------------
  // Parsing '%m/%d/%Y %H:%M' as Python's strptime patterns do: `%m` is
  // `1[0-2]|0[1-9]|[1-9]`, `%d` is `3[01]|[12]\d|0[1-9]|[1-9]| [1-9]`,
  // `%Y` is four digits, the blank becomes `\s+`, `%H` is
  // `2[0-3]|[0-1]\d|\d` and `%M` is `[0-5]\d|\d`; pandas then demands that
  // the match covers the whole text.

  predicate IsDigit(c: char) {
    '0' <= c <= '9'
  }

  function DigitValue(c: char): (v: int)
    requires IsDigit(c)
  {
    c as int - '0' as int
  }

  /** Python's `str.isspace()` characters, which is what `\s` matches. */
  predicate IsPySpace(c: char) {
    var n := c as int;
    (9 <= n <= 13) || (28 <= n <= 32) || n == 0x85 || n == 0xA0 || n == 0x1680
    || (0x2000 <= n <= 0x200A) || n == 0x2028 || n == 0x2029 || n == 0x202F
    || n == 0x205F || n == 0x3000
  }

  /** One or two digits whose value lies in lo..hi. */
  function SmallNumber(t: string, lo: int, hi: int): (r: Option<int>)
    ensures r.Some? ==> lo <= r.value <= hi
  {
    if |t| == 1 && IsDigit(t[0]) && lo <= DigitValue(t[0]) <= hi then
      Some(DigitValue(t[0]))
    else if |t| == 2 && IsDigit(t[0]) && IsDigit(t[1])
      && lo <= 10 * DigitValue(t[0]) + DigitValue(t[1]) <= hi then
      Some(10 * DigitValue(t[0]) + DigitValue(t[1]))
    else None
  }

  function MonthField(t: string): Option<int> {
    SmallNumber(t, 1, 12)
  }

  /** `%d` also takes a blank followed by one nonzero digit. */
  function DayField(t: string): Option<int> {
    if |t| == 2 && t[0] == ' ' && IsDigit(t[1]) && t[1] != '0' then Some(DigitValue(t[1]))
    else SmallNumber(t, 1, 31)
  }

  function YearField(t: string): (r: Option<int>)
    ensures r.Some? ==> 0 <= r.value <= 9999
  {
    if |t| == 4 && IsDigit(t[0]) && IsDigit(t[1]) && IsDigit(t[2]) && IsDigit(t[3]) then
      Some(1000 * DigitValue(t[0]) + 100 * DigitValue(t[1]) + 10 * DigitValue(t[2]) + DigitValue(t[3]))
    else None
  }

  function HourField(t: string): Option<int> {
    SmallNumber(t, 0, 23)
  }

  function MinuteField(t: string): Option<int> {
    SmallNumber(t, 0, 59)
  }

  /** Length of the run of whitespace at the front of `s`. */
  function SpaceRun(s: string): (n: nat)
    ensures n <= |s|
  {
    if |s| > 0 && IsPySpace(s[0]) then 1 + SpaceRun(s[1..]) else 0
  }

  /** The text before and after the first `c` in `s`. */
  function SplitAt(s: string, c: char): (r: Option<(string, string)>)
  {
    var k := IndexOf(s, c);
    if k < 0 then None else Some((s[..k], s[k + 1..]))
  }

  lemma SplitAtSpec(s: string, c: char)
    ensures SplitAt(s, c).None? <==> c !in s
    ensures SplitAt(s, c).Some? ==> s == SplitAt(s, c).value.0 + [c] + SplitAt(s, c).value.1
    ensures SplitAt(s, c).Some? ==> c !in SplitAt(s, c).value.0
  {
    IndexOfSpec(s, c);
    var k := IndexOf(s, c);
    if k >= 0 {
      assert s == s[..k] + [c] + s[k + 1..];
    }
  }

  lemma SplitAtFirst(a: string, c: char, b: string)
    requires c !in a
    ensures SplitAt(a + [c] + b, c) == Some((a, b))
  {
    var s := a + [c] + b;
    assert s[|a|] == c;
    IndexOfSpec(s, c);
    var k := IndexOf(s, c);
    assert s[..|a|] == a;
    assert k >= |a| by {
      assert k >= 0 ==> s[k] == c;
      assert forall i | 0 <= i < |a| :: s[i] == a[i];
    }
    assert s[..|a| + 1][|a|] == c;
    var r := SplitAt(s, c);
    assert r.value.0 == s[..|a|] == a;
    assert r.value.1 == s[|a| + 1..] == b;
  }

  /** The five field texts of '%m/%d/%Y %H:%M', as the pattern's groups
      would capture them. */
  datatype FieldTexts = FieldTexts(month: string, day: string, year: string, hour: string, minute: string)

  /** The shape of the text: two slashes, a four-character year, a run of
      whitespace and a colon; None where the pattern cannot match. */
  function SplitFields(text: string): Option<FieldTexts> {
    match SplitAt(text, '/')
    case None => None
    case Some((monthText, rest)) =>
      match SplitAt(rest, '/')
      case None => None
      case Some((dayText, rest')) =>
        match SplitClock(rest')
        case None => None
        case Some((yearText, hourText, minuteText)) =>
          Some(FieldTexts(monthText, dayText, yearText, hourText, minuteText))
  }

  /** The part after the second slash: four characters of year, whitespace,
      then hour and minute around the first colon. */
  function SplitClock(s: string): Option<(string, string, string)> {
    if |s| < 4 then None
    else
      var blanks := SpaceRun(s[4..]);
      if blanks == 0 then None
      else
        match SplitAt(s[4 + blanks..], ':')
        case None => None
        case Some((hourText, minuteText)) => Some((s[..4], hourText, minuteText))
  }

  /** The field values, then the checks `datetime.date` and pandas' range make. */
  function StampOf(f: FieldTexts): (r: Option<Stamp>)
    ensures r.Some? ==> IsValidDate(r.value.date) && IsValidTime(r.value.time)
    ensures r.Some? ==> InTimestampRange(r.value)
  {
    var m, d, y := MonthField(f.month), DayField(f.day), YearField(f.year);
    var h, mi := HourField(f.hour), MinuteField(f.minute);
    if m.None? || d.None? || y.None? || h.None? || mi.None? then None
    else if y.value < 1 || d.value > DaysInMonth(y.value, m.value) then None
    else
      var s := Stamp(Date(y.value, m.value, d.value), Time(h.value, mi.value));
      if InTimestampRange(s) then Some(s) else None
  }

  /** `pd.to_datetime(text, format='%m/%d/%Y %H:%M')` on one value: the
      parsed timestamp, or None where pandas raises (no match, text left
      over, a day the month lacks, or a moment outside the nanosecond range). */
  function ParseStamp(text: string): (r: Option<Stamp>)
    ensures r.Some? ==> IsValidDate(r.value.date) && IsValidTime(r.value.time)
    ensures r.Some? ==> InTimestampRange(r.value)
  {
    match SplitFields(text)
    case None => None
    case Some(f) => StampOf(f)
  }

  // ---------------------------------------------------------------------
  // Rendering with strftime.

  function DigitChar(n: int): (c: char)
    requires 0 <= n <= 9
    ensures IsDigit(c) && DigitValue(c) == n
  {
    ('0' as int + n) as char
  }

  function TwoDigits(n: int): (s: string)
    requires 0 <= n <= 99
  {
    [DigitChar(n / 10), DigitChar(n % 10)]
  }

  function FourDigits(n: int): (s: string)
    requires 0 <= n <= 9999
  {
    [DigitChar(n / 1000), DigitChar(n / 100 % 10), DigitChar(n / 10 % 10), DigitChar(n % 10)]
  }

  /** `date.strftime('%m/%d/%Y')`: zero-padded month and day, four-digit year. */
  function FormatDate(d: Date): (s: string)
    requires IsValidDate(d)
  {
    TwoDigits(d.month) + "/" + TwoDigits(d.day) + "/" + FourDigits(d.year)
  }

  /** `time.strftime('%H:%M')`: zero-padded hour and minute. */
  function FormatTime(t: Time): (s: string)
    requires IsValidTime(t)
  {
    TwoDigits(t.hour) + ":" + TwoDigits(t.minute)
  }

  lemma TwoDigitsField(n: int, lo: int, hi: int)
    requires 0 <= lo <= n <= hi <= 99
    ensures SmallNumber(TwoDigits(n), lo, hi) == Some(n)
  {
  }

  lemma SplitClockOf(yt: string, ht: string, nt: string)
    requires |yt| == 4 && |ht| > 0 && !IsPySpace(ht[0]) && ':' !in ht
    ensures SplitClock(yt + [' '] + ht + [':'] + nt) == Some((yt, ht, nt))
  {
    var s := yt + [' '] + ht + [':'] + nt;
    var tail := ht + [':'] + nt;
    assert s[4..] == [' '] + tail;
    assert SpaceRun(s[4..]) == 1 by {
      assert s[4..][1..] == tail && tail[0] == ht[0];
    }
    assert s[5..] == tail;
    SplitAtFirst(ht, ':', nt);
    assert s[..4] == yt;
  }

  /** A text laid out as month/day/year, one blank, hour:minute splits
      into exactly those five field texts. */
  lemma SplitFieldsOf(mt: string, dt: string, yt: string, ht: string, nt: string)
    requires '/' !in mt && '/' !in dt && |yt| == 4
    requires |ht| > 0 && !IsPySpace(ht[0]) && ':' !in ht
    ensures SplitFields(mt + ['/'] + dt + ['/'] + yt + [' '] + ht + [':'] + nt)
         == Some(FieldTexts(mt, dt, yt, ht, nt))
  {
    var clock := yt + [' '] + ht + [':'] + nt;
    var rest := dt + ['/'] + clock;
    assert mt + ['/'] + dt + ['/'] + yt + [' '] + ht + [':'] + nt == mt + ['/'] + rest;
    SplitAtFirst(mt, '/', rest);
    SplitAtFirst(dt, '/', clock);
    SplitClockOf(yt, ht, nt);
  }

  lemma FourDigitsField(n: int)
    requires 0 <= n <= 9999
    ensures YearField(FourDigits(n)) == Some(n)
  {
    assert n / 100 == 10 * (n / 1000) + n / 100 % 10;
    assert n / 10 == 10 * (n / 100) + n / 10 % 10;
    assert n == 10 * (n / 10) + n % 10;
  }

  lemma StampOfRendered(d: Date, t: Time)
    requires IsValidDate(d) && IsValidTime(t)
    ensures StampOf(FieldTexts(TwoDigits(d.month), TwoDigits(d.day), FourDigits(d.year),
                               TwoDigits(t.hour), TwoDigits(t.minute)))
         == if InTimestampRange(Stamp(d, t)) then Some(Stamp(d, t)) else None
  {
    TwoDigitsField(d.month, 1, 12);
    TwoDigitsField(d.day, 1, 31);
    TwoDigitsField(t.hour, 0, 23);
    TwoDigitsField(t.minute, 0, 59);
    FourDigitsField(d.year);
  }

  /** The page's two strings, joined with a blank as the pipeline joins
      them, parse back to the same moment exactly when pandas can represent
      it; no well-formed date or time is ever rejected for its shape. */
  lemma FormatThenParse(d: Date, t: Time)
    requires IsValidDate(d) && IsValidTime(t)
    ensures ParseStamp(FormatDate(d) + " " + FormatTime(t))
         == if InTimestampRange(Stamp(d, t)) then Some(Stamp(d, t)) else None
  {
    var mt, dt, yt := TwoDigits(d.month), TwoDigits(d.day), FourDigits(d.year);
    var ht, nt := TwoDigits(t.hour), TwoDigits(t.minute);
    assert FormatDate(d) + " " + FormatTime(t) == mt + ['/'] + dt + ['/'] + yt + [' '] + ht + [':'] + nt;
    SplitFieldsOf(mt, dt, yt, ht, nt);
    StampOfRendered(d, t);
  }

  /** The fixed example: the page renders 15 January 2024, 14:30 as
      "01/15/2024" and "14:30", and the pipeline reads back hour 14, month 1
      and a Monday. */
  lemma ParseExample()
    ensures ParseStamp(FormatDate(Date(2024, 1, 15)) + " " + FormatTime(Time(14, 30)))
         == Some(Stamp(Date(2024, 1, 15), Time(14, 30)))
    ensures Weekday(Date(2024, 1, 15)) == 0
  {
    FormatThenParse(Date(2024, 1, 15), Time(14, 30));
    ExampleIsMonday();
  }

  lemma ExampleTexts()
    ensures FormatDate(Date(2024, 1, 15)) == "01/15/2024" && FormatTime(Time(14, 30)) == "14:30"
  {
  }

  lemma ExampleIsMonday()
    ensures Weekday(Date(2024, 1, 15)) == 0
  {
    assert DaysBeforeYear(2024) == 738885;
  }

  /** Whatever the other fields hold, month 13 is refused. */
  lemma RejectsMonth13(dt: string, yt: string, ht: string, nt: string)
    requires '/' !in dt && |yt| == 4 && |ht| > 0 && !IsPySpace(ht[0]) && ':' !in ht
    ensures ParseStamp("13" + ['/'] + dt + ['/'] + yt + [' '] + ht + [':'] + nt).None?
  {
    SplitFieldsOf("13", dt, yt, ht, nt);
  }

  /** In any year, 30 February is refused. */
  lemma RejectsFebruary30(yt: string, ht: string, nt: string)
    requires |yt| == 4 && |ht| > 0 && !IsPySpace(ht[0]) && ':' !in ht
    ensures ParseStamp("02" + ['/'] + "30" + ['/'] + yt + [' '] + ht + [':'] + nt).None?
  {
    SplitFieldsOf("02", "30", yt, ht, nt);
  }

  /** Whatever the date, hour 24 is refused. */
  lemma RejectsHour24(mt: string, dt: string, yt: string, nt: string)
    requires '/' !in mt && '/' !in dt && |yt| == 4
    ensures ParseStamp(mt + ['/'] + dt + ['/'] + yt + [' '] + "24" + [':'] + nt).None?
  {
    SplitFieldsOf(mt, dt, yt, "24", nt);
  }

  /** Whatever the date and hour, minute 60 is refused. */
  lemma RejectsMinute60(mt: string, dt: string, yt: string, ht: string)
    requires '/' !in mt && '/' !in dt && |yt| == 4 && |ht| > 0 && !IsPySpace(ht[0]) && ':' !in ht
    ensures ParseStamp(mt + ['/'] + dt + ['/'] + yt + [' '] + ht + [':'] + "60").None?
  {
    SplitFieldsOf(mt, dt, yt, ht, "60");
  }
}
