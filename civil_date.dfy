/**
 * Civil (proleptic Gregorian) dates as the components see them through JavaScript's `Date`:
 * a year, a 0-based month (as `getMonth()` returns it) and a day of the month.
 * `Normalize` is what `new Date(y, m, d)`, `setDate` and `setMonth` do with a day or month
 * that is out of range: the surplus rolls over into the neighbouring months and years.
 */
module CivilDate {
  import opened Text

  predicate IsLeapYear(y: int) {
    y % 4 == 0 && (y % 100 != 0 || y % 400 == 0)
  }

  function DaysInMonth(y: int, m: int): (n: int)
    requires 0 <= m < 12
    ensures 28 <= n <= 31
    ensures m == 1 ==> (n == 29 <==> IsLeapYear(y))
  {
    if m == 1 then (if IsLeapYear(y) then 29 else 28)
    else if m == 3 || m == 5 || m == 8 || m == 10 then 30
    else 31
  }

  datatype Date = Date(year: int, month: int, day: int) {
    /** A date that a JavaScript `Date` can hold: the month and the day are in range. */
    predicate Valid() {
      0 <= month < 12 && 1 <= day <= DaysInMonth(year, month)
    }
  }

  /** Days of year `y` before the first of month `m`; `m == 12` gives the length of the year. */
  function DaysBeforeMonth(y: int, m: int): int
    requires 0 <= m <= 12
  {
    var common :=
      if m == 0 then 0 else if m == 1 then 31 else if m == 2 then 59 else if m == 3 then 90
      else if m == 4 then 120 else if m == 5 then 151 else if m == 6 then 181
      else if m == 7 then 212 else if m == 8 then 243 else if m == 9 then 273
      else if m == 10 then 304 else if m == 11 then 334 else 365;
    common + (if m >= 2 && IsLeapYear(y) then 1 else 0)
  }

  lemma DaysBeforeMonthStep(y: int, m: int)
    requires 0 <= m < 12
    ensures DaysBeforeMonth(y, m + 1) == DaysBeforeMonth(y, m) + DaysInMonth(y, m)
  {
  }

  /** The day number of the first of January of year `y`: day 0 is 2 January of year 0, so that year starts on day -1. */
  function DaysBeforeYear(y: int): int {
    365 * y + (y - 1) / 4 - (y - 1) / 100 + (y - 1) / 400
  }

  /** A year is as long as its twelve months: 366 days in a leap year, 365 otherwise. */
  lemma YearLength(y: int)
    ensures DaysBeforeYear(y + 1) == DaysBeforeYear(y) + DaysBeforeMonth(y, 12)
  {
    Div4Step(y);
    Div100Step(y);
    Div400Step(y);
    DivisorChain(y);
    var leap := if IsLeapYear(y) then 1 else 0;
    assert leap == (if y % 4 == 0 then 1 else 0) - (if y % 100 == 0 then 1 else 0)
                   + (if y % 400 == 0 then 1 else 0);
  }

  lemma DivisorChain(y: int)
    ensures y % 400 == 0 ==> y % 100 == 0
    ensures y % 100 == 0 ==> y % 4 == 0
  {
    if y % 400 == 0 { Mod400(y); }
    if y % 100 == 0 { Mod100(y); }
  }

  lemma Mod400(y: int)
    requires y % 400 == 0
    ensures y % 100 == 0
  {
    var q := y / 400;
    assert y == 100 * (4 * q);
  }

  lemma Mod100(y: int)
    requires y % 100 == 0
    ensures y % 4 == 0
  {
    var q := y / 100;
    assert y == 4 * (25 * q);
  }

  lemma Div4Step(y: int)
    ensures y / 4 - (y - 1) / 4 == if y % 4 == 0 then 1 else 0
  {
  }

  lemma Div100Step(y: int)
    ensures y / 100 - (y - 1) / 100 == if y % 100 == 0 then 1 else 0
  {
  }

  lemma Div400Step(y: int)
    ensures y / 400 - (y - 1) / 400 == if y % 400 == 0 then 1 else 0
  {
  }

  /** The number of the day (y, m, d), for any day offset `d`; day 0 is 2 January of year 0. */
  function Serial(y: int, m: int, d: int): int
    requires 0 <= m < 12
  {
    DaysBeforeYear(y) + DaysBeforeMonth(y, m) + d - 1
  }

  function DayNumber(x: Date): int
    requires x.Valid()
  {
    Serial(x.year, x.month, x.day)
  }

  /** `getDay()`: 0 is Sunday, 6 is Saturday (day 0, 2 January of year 0, was a Sunday, and 1970-01-01 a Thursday). */
  function Weekday(x: Date): (w: int)
    requires x.Valid()
    ensures 0 <= w < 7
  {
    DayNumber(x) % 7
  }

  /**
   * Rolls the day `d` of month `m` of year `y` into range, one month at a time.
   * The result is the date whose day number is that of (y, m, 1) plus `d - 1`.
   */
  function NormalizeDay(y: int, m: int, d: int): (r: Date)
    requires 0 <= m < 12
    ensures r.Valid()
    decreases if d < 1 then 1 else 0, if d < 1 then -d else d
  {
    if d < 1 then
      var (py, pm) := if m == 0 then (y - 1, 11) else (y, m - 1);
      NormalizeDay(py, pm, d + DaysInMonth(py, pm))
    else if d > DaysInMonth(y, m) then
      var (ny, nm) := if m == 11 then (y + 1, 0) else (y, m + 1);
      NormalizeDay(ny, nm, d - DaysInMonth(y, m))
    else
      Date(y, m, d)
  }

  /** Rolling a day into range keeps its day number: one month is moved at a time, each time by that month's length. */
  lemma {:induction false} NormalizeDayNumber(y: int, m: int, d: int)
    requires 0 <= m < 12
    ensures DayNumber(NormalizeDay(y, m, d)) == Serial(y, m, d)
    decreases if d < 1 then 1 else 0, if d < 1 then -d else d
  {
    if d < 1 {
      var (py, pm) := if m == 0 then (y - 1, 11) else (y, m - 1);
      SerialMonthBefore(y, m, d);
      NormalizeDayNumber(py, pm, d + DaysInMonth(py, pm));
    } else if d > DaysInMonth(y, m) {
      var (ny, nm) := if m == 11 then (y + 1, 0) else (y, m + 1);
      SerialMonthAfter(y, m, d);
      NormalizeDayNumber(ny, nm, d - DaysInMonth(y, m));
    }
  }

  /** The same day, counted from the first of the month before. */
  lemma SerialMonthBefore(y: int, m: int, d: int)
    requires 0 <= m < 12
    ensures var (py, pm) := if m == 0 then (y - 1, 11) else (y, m - 1);
            Serial(py, pm, d + DaysInMonth(py, pm)) == Serial(y, m, d)
  {
    var (py, pm) := if m == 0 then (y - 1, 11) else (y, m - 1);
    DaysBeforeMonthStep(py, pm);
    if m == 0 { YearLength(py); }
  }

  /** The same day, counted from the first of the month after. */
  lemma SerialMonthAfter(y: int, m: int, d: int)
    requires 0 <= m < 12
    ensures var (ny, nm) := if m == 11 then (y + 1, 0) else (y, m + 1);
            Serial(ny, nm, d - DaysInMonth(y, m)) == Serial(y, m, d)
  {
    DaysBeforeMonthStep(y, m);
    if m == 11 { YearLength(y); }
  }

  /** `new Date(y, m, d)`: the month rolls over into years first, then the day into months. */
  function Normalize(y: int, m: int, d: int): (r: Date)
    ensures r.Valid()
  {
    NormalizeDay(y + m / 12, m % 12, d)
  }

  /** The normalized date has the day number of (y, m, 1) plus `d - 1`, once the month is rolled into years. */
  lemma NormalizeNumber(y: int, m: int, d: int)
    ensures DayNumber(Normalize(y, m, d)) == Serial(y + m / 12, m % 12, d)
  {
    NormalizeDayNumber(y + m / 12, m % 12, d);
  }

  /** A date already in range is left alone. */
  lemma NormalizeValid(x: Date)
    requires x.Valid()
    ensures Normalize(x.year, x.month, x.day) == x
  {
    assert x.month / 12 == 0 && x.month % 12 == x.month;
  }

  /** A day that exists in the target month is kept as it is. */
  lemma NormalizeInMonth(y: int, m: int, d: int)
    requires 1 <= d <= DaysInMonth(y + m / 12, m % 12)
    ensures Normalize(y, m, d) == Date(y + m / 12, m % 12, d)
  {
    assert 0 <= m % 12 < 12;
  }

  /** The year, month and day of a valid date are fixed by its day number. */
  lemma DayNumberInjective(a: Date, b: Date)
    requires a.Valid() && b.Valid()
    requires DayNumber(a) == DayNumber(b)
    ensures a == b
  {
    SameDayNumberSameYear(a, b);
    SameDayNumberSameMonth(a, b);
  }

  lemma SameDayNumberSameYear(a: Date, b: Date)
    requires a.Valid() && b.Valid()
    requires DayNumber(a) == DayNumber(b)
    ensures a.year == b.year
  {
    DayNumberInYear(a);
    DayNumberInYear(b);
    if a.year < b.year {
      DaysBeforeYearMonotone(a.year + 1, b.year);
      assert false;
    } else if b.year < a.year {
      DaysBeforeYearMonotone(b.year + 1, a.year);
      assert false;
    }
  }

  lemma SameDayNumberSameMonth(a: Date, b: Date)
    requires a.Valid() && b.Valid() && a.year == b.year
    requires DayNumber(a) == DayNumber(b)
    ensures a.month == b.month
  {
    DayInMonthBounds(a);
    DayInMonthBounds(b);
    if a.month < b.month {
      DaysBeforeMonthMonotone(a.year, a.month + 1, b.month);
      assert false;
    } else if b.month < a.month {
      DaysBeforeMonthMonotone(a.year, b.month + 1, a.month);
      assert false;
    }
  }

  lemma DayNumberInYear(x: Date)
    requires x.Valid()
    ensures DaysBeforeYear(x.year) <= DayNumber(x) < DaysBeforeYear(x.year + 1)
  {
    YearLength(x.year);
    DayInMonthBounds(x);
    DaysBeforeMonthMonotone(x.year, x.month + 1, 12);
  }

  lemma DayInMonthBounds(x: Date)
    requires x.Valid()
    ensures DaysBeforeMonth(x.year, x.month) <= DayNumber(x) - DaysBeforeYear(x.year)
    ensures DayNumber(x) - DaysBeforeYear(x.year) < DaysBeforeMonth(x.year, x.month + 1)
  {
    DaysBeforeMonthStep(x.year, x.month);
  }

  lemma DaysBeforeMonthMonotone(y: int, m1: int, m2: int)
    requires 0 <= m1 <= m2 <= 12
    ensures DaysBeforeMonth(y, m1) <= DaysBeforeMonth(y, m2)
  {
  }

  lemma {:induction false} DaysBeforeYearMonotone(y1: int, y2: int)
    requires y1 <= y2
    ensures DaysBeforeYear(y1) <= DaysBeforeYear(y2)
    decreases y2 - y1
  {
    if y1 < y2 {
      YearLength(y1);
      DaysBeforeYearMonotone(y1 + 1, y2);
    }
  }

  /** `setDate(getDate() + k)`: the date `k` days later (earlier for negative `k`). */
  function AddDays(x: Date, k: int): Date
    requires x.Valid()
  {
    Normalize(x.year, x.month, x.day + k)
  }

  /** Adding `k` days moves the day number by exactly `k`, across months and years. */
  lemma AddDaysNumber(x: Date, k: int)
    requires x.Valid()
    ensures AddDays(x, k).Valid()
    ensures DayNumber(AddDays(x, k)) == DayNumber(x) + k
  {
    assert x.month / 12 == 0 && x.month % 12 == x.month;
    NormalizeNumber(x.year, x.month, x.day + k);
  }

  /** Going `k` days forward and `k` days back returns to the same date. */
  lemma AddDaysInverse(x: Date, k: int)
    requires x.Valid()
    ensures AddDays(AddDays(x, k), -k) == x
  {
    var y := AddDays(x, k);
    AddDaysNumber(x, k);
    AddDaysNumber(y, -k);
    DayNumberInjective(AddDays(y, -k), x);
  }

  /** Moving `j` days and then `k` days is moving `j + k` days. */
  lemma AddDaysAdd(x: Date, j: int, k: int)
    requires x.Valid()
    ensures AddDays(AddDays(x, j), k) == AddDays(x, j + k)
  {
    AddDaysNumber(x, j);
    AddDaysNumber(AddDays(x, j), k);
    AddDaysNumber(x, j + k);
    DayNumberInjective(AddDays(AddDays(x, j), k), AddDays(x, j + k));
  }

  /** The weekday advances by `k` modulo 7. */
  lemma WeekdayAddDays(x: Date, k: int)
    requires x.Valid()
    ensures Weekday(AddDays(x, k)) == (Weekday(x) + k) % 7
  {
    AddDaysNumber(x, k);
    ModAdd7(DayNumber(x), k);
  }

  lemma ModAdd7(n: int, k: int)
    ensures (n + k) % 7 == (n % 7 + k) % 7
  {
    var q := n / 7;
    assert n + k == 7 * q + (n % 7 + k);
  }

  /** Day 0 of a month is the last day of the month before: `new Date(y, m + 1, 0)` has `getDate()` equal to the length of month `m`. */
  lemma DayZero(y: int, m: int)
    ensures var p := Normalize(y, m - 1, 1);
            Normalize(y, m, 0) == Date(p.year, p.month, DaysInMonth(p.year, p.month))
  {
    var p := Normalize(y, m - 1, 1);
    var last := Date(p.year, p.month, DaysInMonth(p.year, p.month));
    var (ny, nm) := (y + m / 12, m % 12);
    assert p == Date(y + (m - 1) / 12, (m - 1) % 12, 1);
    assert (p.year, p.month) == if nm == 0 then (ny - 1, 11) else (ny, nm - 1);
    DaysBeforeMonthStep(p.year, p.month);
    if nm == 0 { YearLength(p.year); }
    assert DayNumber(last) == Serial(ny, nm, 0);
    NormalizeNumber(y, m, 0);
    DayNumberInjective(Normalize(y, m, 0), last);
  }

  /** `setMonth`: a day beyond the end of the target month spills into the following month. */
  lemma NormalizeOverflow(y: int, m: int, d: int)
    requires var (ty, tm) := (y + m / 12, m % 12);
             DaysInMonth(ty, tm) < d <= 31
    ensures var (ty, tm) := (y + m / 12, m % 12);
            var n := Normalize(y, m + 1, 1);
            Normalize(y, m, d) == Date(n.year, n.month, d - DaysInMonth(ty, tm))
  {
    var (ty, tm) := (y + m / 12, m % 12);
    var n := Normalize(y, m + 1, 1);
    assert (n.year, n.month) == if tm == 11 then (ty + 1, 0) else (ty, tm + 1);
    var r := Date(n.year, n.month, d - DaysInMonth(ty, tm));
    DaysBeforeMonthStep(ty, tm);
    if tm == 11 { YearLength(ty); }
    assert DayNumber(r) == Serial(ty, tm, d);
    NormalizeNumber(y, m, d);
    DayNumberInjective(Normalize(y, m, d), r);
  }

  // ---------------------------------------------------------------- the date string

  /** The date string `YYYY-MM-DD` (the civil-date part of `toISOString()`). */
  function DateString(x: Date): string {
    DatePrefix(x.year, x.month) + Pad2(x.day)
  }

  /** The `YYYY-MM-` part of a date string, shared by every day of one month. */
  function DatePrefix(y: int, m: int): string {
    YearString(y) + "-" + Pad2(m + 1) + "-"
  }

  /** Four digits for years 0..9999, otherwise a sign and six digits. */
  function YearString(y: int): string {
    if 0 <= y <= 9999 then PadStart(NatToString(y), 4, '0')
    else (if y < 0 then "-" else "+") + PadStart(NatToString(if y < 0 then -y else y), 6, '0')
  }
}
