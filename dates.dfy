/**
 * Calendar dates as Python's `datetime.date` has them (years 1 to 9999,
 * proleptic Gregorian calendar), their `YYYYMMDD` rendering
 * (`strftime("%Y%m%d")`) and parsing (`strptime(s, "%Y%m%d")` on an
 * eight-digit string), stepping by whole days (`+ timedelta(days=n)`),
 * and wall-clock instants in microseconds for token expiry.
 */
module Dates {
  import opened Wrappers
  import opened Text

  datatype Date = Date(year: int, month: int, day: int)

  const MinYear := 1
  const MaxYear := 9999

  predicate IsLeap(y: int) {
    y % 4 == 0 && (y % 100 != 0 || y % 400 == 0)
  }

  function DaysInMonth(y: int, m: int): (r: int)
    requires 1 <= m <= 12
    ensures 28 <= r <= 31
  {
    if m == 2 then (if IsLeap(y) then 29 else 28)
    else if m == 4 || m == 6 || m == 9 || m == 11 then 30
    else 31
  }

  function DaysInYear(y: int): int {
    if IsLeap(y) then 366 else 365
  }

  /** A date `datetime.date` accepts. */
  predicate Valid(d: Date) {
    MinYear <= d.year <= MaxYear && 1 <= d.month <= 12 && 1 <= d.day <= DaysInMonth(d.year, d.month)
  }

  /** Days of year `y` before the first of month `m` (`m == 13`: the whole year). */
  function DaysBeforeMonth(y: int, m: int): (r: nat)
    requires 1 <= m <= 13
  {
    [0, 31, 59, 90, 120, 151, 181, 212, 243, 273, 304, 334, 365][m - 1]
      + (if m > 2 && IsLeap(y) then 1 else 0)
  }

  lemma {:induction false} DaysBeforeMonthStep(y: int, m: int)
    requires 1 <= m <= 12
    ensures DaysBeforeMonth(y, m + 1) == DaysBeforeMonth(y, m) + DaysInMonth(y, m)
  {
  }

  /** Days before the first of January of year `y`, counted from year 1. */
  function DaysBeforeYear(y: int): (r: nat)
    requires y >= 1
    decreases y
  {
    if y == 1 then 0 else DaysBeforeYear(y - 1) + DaysInYear(y - 1)
  }

  /** `date.toordinal()`: 1 for 0001-01-01, one more for each following day. */
  function Ordinal(d: Date): (r: int)
    requires Valid(d)
    ensures r >= 1
  {
    DaysBeforeYear(d.year) + DaysBeforeMonth(d.year, d.month) + d.day
  }

  const MaxDate := Date(MaxYear, 12, 31)
  const MinDate := Date(MinYear, 1, 1)

  lemma {:induction false} DaysBeforeMonthYear(y: int, m: int)
    requires 1 <= m <= 12
    ensures DaysBeforeMonth(y, m) + DaysInMonth(y, m) <= DaysInYear(y)
    ensures DaysBeforeMonth(y, 13) == DaysInYear(y)
  {
    DaysBeforeMonthStep(y, m);
    DaysBeforeMonthMono(y, m + 1, 13);
  }

  lemma {:induction false} DaysBeforeMonthMono(y: int, m1: int, m2: int)
    requires 1 <= m1 <= m2 <= 13
    ensures DaysBeforeMonth(y, m1) <= DaysBeforeMonth(y, m2)
    decreases m2
  {
    if m1 < m2 {
      DaysBeforeMonthMono(y, m1, m2 - 1);
      DaysBeforeMonthStep(y, m2 - 1);
    }
  }

  lemma {:induction false} DaysBeforeYearMono(y1: int, y2: int)
    requires 1 <= y1 <= y2
    ensures DaysBeforeYear(y1) + (y2 - y1) * 365 <= DaysBeforeYear(y2)
    decreases y2
  {
    if y1 < y2 {
      DaysBeforeYearMono(y1, y2 - 1);
    }
  }

  /** The day after `d`; `None` past 9999-12-31 (Python's `OverflowError`). */
  function NextDay(d: Date): (r: Option<Date>)
    requires Valid(d)
    ensures r.None? <==> d == MaxDate
    ensures r.Some? ==> Valid(r.value) && Ordinal(r.value) == Ordinal(d) + 1
  {
    if d.day < DaysInMonth(d.year, d.month) then Some(Date(d.year, d.month, d.day + 1))
    else if d.month < 12 then
      DaysBeforeMonthStep(d.year, d.month);
      Some(Date(d.year, d.month + 1, 1))
    else if d.year < MaxYear then
      DaysBeforeMonthYear(d.year, 12);
      Some(Date(d.year + 1, 1, 1))
    else None
  }

  /** The day before `d`; `None` before 0001-01-01. */
  function PrevDay(d: Date): (r: Option<Date>)
    requires Valid(d)
    ensures r.None? <==> d == MinDate
    ensures r.Some? ==> Valid(r.value) && Ordinal(r.value) + 1 == Ordinal(d)
  {
    if d.day > 1 then Some(Date(d.year, d.month, d.day - 1))
    else if d.month > 1 then
      DaysBeforeMonthStep(d.year, d.month - 1);
      Some(Date(d.year, d.month - 1, DaysInMonth(d.year, d.month - 1)))
    else if d.year > MinYear then
      DaysBeforeMonthYear(d.year - 1, 12);
      Some(Date(d.year - 1, 12, 31))
    else None
  }

  lemma {:induction false} OrdinalBounds(d: Date)
    requires Valid(d)
    ensures Ordinal(MinDate) <= Ordinal(d) <= Ordinal(MaxDate)
  {
    DaysBeforeMonthMono(d.year, d.month, 12);
    DaysBeforeYearMono(d.year, MaxYear);
    if d.year < MaxYear {
      DaysBeforeMonthYear(d.year, d.month);
      DaysBeforeYearStep(d.year, MaxYear);
    }
  }

  lemma {:induction false} DaysBeforeYearStep(y1: int, y2: int)
    requires 1 <= y1 < y2
    ensures DaysBeforeYear(y1) + DaysInYear(y1) <= DaysBeforeYear(y2)
    decreases y2
  {
    if y1 + 1 < y2 {
      DaysBeforeYearStep(y1, y2 - 1);
    }
  }

  /** `d + timedelta(days=n)`: `None` when the result leaves years 1..9999. */
  function AddDays(d: Date, n: int): (r: Option<Date>)
    requires Valid(d)
    ensures r.Some? ==> Valid(r.value) && Ordinal(r.value) == Ordinal(d) + n
    decreases if n < 0 then -n else n
  {
    if n == 0 then Some(d)
    else if n > 0 then
      match NextDay(d)
      case None => None
      case Some(e) => AddDays(e, n - 1)
    else
      match PrevDay(d)
      case None => None
      case Some(e) => AddDays(e, n + 1)
  }

  /** `AddDays` fails exactly when the day it would reach lies outside the calendar. */
  lemma {:induction false} AddDaysDefined(d: Date, n: int)
    requires Valid(d)
    ensures AddDays(d, n).None? <==> !(Ordinal(MinDate) <= Ordinal(d) + n <= Ordinal(MaxDate))
    decreases if n < 0 then -n else n
  {
    OrdinalBounds(d);
    if n > 0 {
      match NextDay(d)
      case None =>
      case Some(e) => AddDaysDefined(e, n - 1);
    } else if n < 0 {
      match PrevDay(d)
      case None =>
      case Some(e) => AddDaysDefined(e, n + 1);
    }
  }

  /** Earlier in the calendar: year, then month, then day. */
  predicate Before(a: Date, b: Date) {
    a.year < b.year || (a.year == b.year && (a.month < b.month || (a.month == b.month && a.day < b.day)))
  }

  /** Calendar order is ordinal order. */
  lemma {:induction false} OrdinalOrder(a: Date, b: Date)
    requires Valid(a) && Valid(b)
    ensures Before(a, b) <==> Ordinal(a) < Ordinal(b)
  {
    if Before(a, b) {
      OrdinalBefore(a, b);
    } else if Before(b, a) {
      OrdinalBefore(b, a);
    } else {
      assert a == b;
    }
  }

  lemma {:induction false} OrdinalBefore(a: Date, b: Date)
    requires Valid(a) && Valid(b) && Before(a, b)
    ensures Ordinal(a) < Ordinal(b)
  {
    if a.year < b.year {
      DaysBeforeMonthMono(a.year, a.month, 12);
      DaysBeforeMonthYear(a.year, a.month);
      DaysBeforeYearStep(a.year, b.year);
    } else if a.month < b.month {
      DaysBeforeMonthStep(a.year, a.month);
      DaysBeforeMonthMono(a.year, a.month + 1, b.month);
    }
  }

  // ---------------------------------------------------------------- YYYYMMDD

  /** The number `YYYYMMDD` reads as. */
  function DateKey(d: Date): int {
    d.year * 10000 + d.month * 100 + d.day
  }

  /** `d.strftime("%Y%m%d")` */
  function Format8(d: Date): (s: string)
    requires Valid(d)
    ensures |s| == 8 && IsDigits(s)
  {
    PadDigits(d.year, 4) + PadDigits(d.month, 2) + PadDigits(d.day, 2)
  }

  /** `datetime.strptime(s, "%Y%m%d")` for an eight-digit `s`: month and day must be
      two-digit fields (01-12, 01-31) and together name an existing date. */
  function Parse8(s: string): (r: Option<Date>)
    requires |s| == 8 && IsDigits(s)
    ensures r.Some? ==> Valid(r.value)
  {
    var d := Date(DigitsValue(s[..4]), DigitsValue(s[4..6]), DigitsValue(s[6..]));
    if Valid(d) then Some(d) else None
  }

  /** `datetime.strptime(s, "%Y%m%d")` where the caller has already demanded eight digits
      (or, failing that, `ValueError`, written `None`). */
  function Strptime8(s: string): (r: Option<Date>)
    ensures r.Some? ==> Valid(r.value) && |s| == 8 && IsDigits(s) && Format8(r.value) == s
  {
    if |s| == 8 && IsDigits(s) then
      match Parse8(s)
      case None => None
      case Some(d) => FormatParse8(s); Some(d)
    else None
  }

  lemma {:induction false} Format8Parts(d: Date)
    requires Valid(d)
    ensures Format8(d)[..4] == PadDigits(d.year, 4)
    ensures Format8(d)[4..6] == PadDigits(d.month, 2)
    ensures Format8(d)[6..] == PadDigits(d.day, 2)
  {
  }

  /** Rendering then parsing gives the date back. */
  lemma {:induction false} ParseFormat8(d: Date)
    requires Valid(d)
    ensures Parse8(Format8(d)) == Some(d)
  {
    Format8Parts(d);
    PadDigitsValue(d.year, 4);
    PadDigitsValue(d.month, 2);
    PadDigitsValue(d.day, 2);
  }

  /** Parsing then rendering gives the string back: each valid string has one date. */
  lemma {:induction false} FormatParse8(s: string)
    requires |s| == 8 && IsDigits(s) && Parse8(s).Some?
    ensures Format8(Parse8(s).value) == s
  {
    DigitsValuePad(s[..4]);
    DigitsValuePad(s[4..6]);
    DigitsValuePad(s[6..]);
    assert s == s[..4] + s[4..6] + s[6..];
  }

  lemma {:induction false} Format8Key(d: Date)
    requires Valid(d)
    ensures Format8(d) == PadDigits(DateKey(d), 8)
  {
    assert Pow10(2) == 100 && Pow10(4) == 10000;
    PadDigitsSplit(d.month, 2, d.day, 2);
    assert d.month * Pow10(2) + d.day == d.month * 100 + d.day;
    PadDigitsSplit(d.year, 4, d.month * 100 + d.day, 4);
    assert (d.year * Pow10(4) + (d.month * 100 + d.day)) == DateKey(d);
  }

  lemma {:induction false} DateKeyOrder(a: Date, b: Date)
    requires Valid(a) && Valid(b)
    ensures DateKey(a) < DateKey(b) <==> Before(a, b)
  {
    if a.year < b.year {
      assert DateKey(a) < (a.year + 1) * 10000 <= DateKey(b);
    } else if a.year > b.year {
      assert DateKey(b) < (b.year + 1) * 10000 <= DateKey(a);
    }
  }

  /** For valid dates, comparing `YYYYMMDD` strings (as the SQL and Python code do)
      is comparing the dates. */
  lemma {:induction false} LexIsChronological(a: Date, b: Date)
    requires Valid(a) && Valid(b)
    ensures LexLess(Format8(a), Format8(b)) <==> Ordinal(a) < Ordinal(b)
    ensures LexLe(Format8(a), Format8(b)) <==> Ordinal(a) <= Ordinal(b)
  {
    Format8Key(a);
    Format8Key(b);
    assert DateKey(a) < Pow10(8) && DateKey(b) < Pow10(8) by {
      assert Pow10(8) == 100000000;
    }
    PadDigitsValue(DateKey(a), 8);
    PadDigitsValue(DateKey(b), 8);
    LexLessDigits(Format8(a), Format8(b));
    DateKeyOrder(a, b);
    OrdinalOrder(a, b);
    OrdinalOrder(b, a);
    if Format8(a) == Format8(b) {
      ParseFormat8(a);
      ParseFormat8(b);
    }
  }

  // ---------------------------------------------------------------- instants

  /** Microseconds. */
  const Second := 1000000
  const Minute := 60 * Second
  const Day := 24 * 60 * Minute

  /** `datetime.datetime(y, m, d, hh, mm, ss)` as microseconds since 0001-01-01 00:00:00. */
  function Instant(d: Date, hh: nat, mm: nat, ss: nat): int
    requires Valid(d)
  {
    (Ordinal(d) - 1) * Day + hh * 60 * Minute + mm * Minute + ss * Second
  }

  /** `datetime.strptime(s, "%Y-%m-%d %H:%M:%S")` on the zero-padded form the token
      endpoint sends (`2024-01-15 09:30:00`); `None` for text not of that form or naming
      no real instant. */
  function ParseTimestamp(s: string): (r: Option<int>)
    ensures r.Some? ==> |s| == 19 && s[4] == '-' && s[7] == '-' && s[10] == ' ' && s[13] == ':' && s[16] == ':'
  {
    if |s| == 19 && s[4] == '-' && s[7] == '-' && s[10] == ' ' && s[13] == ':' && s[16] == ':'
      && IsDigits(s[..4]) && IsDigits(s[5..7]) && IsDigits(s[8..10])
      && IsDigits(s[11..13]) && IsDigits(s[14..16]) && IsDigits(s[17..])
    then
      var d := Date(DigitsValue(s[..4]), DigitsValue(s[5..7]), DigitsValue(s[8..10]));
      var hh := DigitsValue(s[11..13]);
      var mm := DigitsValue(s[14..16]);
      var ss := DigitsValue(s[17..]);
      if Valid(d) && hh < 24 && mm < 60 && ss < 60 then Some(Instant(d, hh, mm, ss)) else None
    else None
  }

  /** `dt.strftime("%Y-%m-%d %H:%M:%S")` */
  function FormatTimestamp(d: Date, hh: nat, mm: nat, ss: nat): (s: string)
    requires Valid(d) && hh < 24 && mm < 60 && ss < 60
    ensures |s| == 19
  {
    PadDigits(d.year, 4) + "-" + PadDigits(d.month, 2) + "-" + PadDigits(d.day, 2) + " "
      + PadDigits(hh, 2) + ":" + PadDigits(mm, 2) + ":" + PadDigits(ss, 2)
  }

  lemma {:induction false} TimestampFields(d: Date, hh: nat, mm: nat, ss: nat)
    requires Valid(d) && hh < 24 && mm < 60 && ss < 60
    ensures var s := FormatTimestamp(d, hh, mm, ss);
      && s[..4] == PadDigits(d.year, 4) && s[4] == '-' && s[5..7] == PadDigits(d.month, 2) && s[7] == '-'
      && s[8..10] == PadDigits(d.day, 2) && s[10] == ' ' && s[11..13] == PadDigits(hh, 2) && s[13] == ':'
      && s[14..16] == PadDigits(mm, 2) && s[16] == ':' && s[17..] == PadDigits(ss, 2)
  {
    var s := FormatTimestamp(d, hh, mm, ss);
    var date := PadDigits(d.year, 4) + "-" + PadDigits(d.month, 2) + "-" + PadDigits(d.day, 2);
    var time := PadDigits(hh, 2) + ":" + PadDigits(mm, 2) + ":" + PadDigits(ss, 2);
    assert s == date + " " + time;
    assert s[..10] == date && s[10] == ' ' && s[11..] == time;
    assert date[..4] == PadDigits(d.year, 4) && date[5..7] == PadDigits(d.month, 2) && date[8..] == PadDigits(d.day, 2);
    assert time[..2] == PadDigits(hh, 2) && time[3..5] == PadDigits(mm, 2) && time[6..] == PadDigits(ss, 2);
  }

  /** The expiry string the token endpoint sends parses to the instant it names. */
  lemma {:induction false} ParseFormatTimestamp(d: Date, hh: nat, mm: nat, ss: nat)
    requires Valid(d) && hh < 24 && mm < 60 && ss < 60
    ensures ParseTimestamp(FormatTimestamp(d, hh, mm, ss)) == Some(Instant(d, hh, mm, ss))
  {
    TimestampFields(d, hh, mm, ss);
    assert Pow10(2) == 100 && Pow10(4) == 10000;
    PadDigitsValue(d.year, 4);
    PadDigitsValue(d.month, 2);
    PadDigitsValue(d.day, 2);
    PadDigitsValue(hh, 2);
    PadDigitsValue(mm, 2);
    PadDigitsValue(ss, 2);
  }
}
