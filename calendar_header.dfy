/**
 * The header's prev/next buttons: a copy of the current date is moved one day, one week or
 * one month (by the view) and handed to the page.
 */
module CalendarHeader {
  import opened CivilDate
  import opened JsDates

  datatype View = Day | Week | Month | Table | Contacts | Reports | Settings
  datatype Direction = Prev | Next

  /** `direction === "next" ? step : -step`. */
  function Signed(dir: Direction, step: int): (r: int)
    ensures dir == Next ==> r == step
    ensures dir == Prev ==> r == -step
  {
    if dir == Next then step else -step
  }

  /** The date `navigateDate` hands on. */
  function Navigated(x: Date, view: View, dir: Direction): (r: Date)
    requires x.Valid()
    ensures r.Valid()
  {
    match view
    case Day => AddDays(x, Signed(dir, 1))
    case Month => Normalize(x.year, x.month + Signed(dir, 1), x.day)
    case Week => AddDays(x, Signed(dir, 7))
    case _ => x
  }

  /** `navigateDate`: copy the date, move the copy in place by the view's step, and return it. */
  method NavigateDate(currentDate: Date, view: View, dir: Direction) returns (newDate: JsDate)
    requires currentDate.Valid()
    ensures fresh(newDate) && newDate.Valid()
    ensures newDate.Value() == Navigated(currentDate, view, dir)
  {
    newDate := new JsDate.Copy(currentDate);
    if view == Day {
      newDate.SetDate(newDate.GetDate() + Signed(dir, 1));
    } else if view == Month {
      newDate.SetMonth(newDate.month + Signed(dir, 1));
    } else if view == Week {
      newDate.SetDate(newDate.GetDate() + Signed(dir, 7));
    }
  }

  /** In the day view the date moves by exactly one day, across month and year ends. */
  lemma NavigateDay(x: Date, dir: Direction)
    requires x.Valid()
    ensures DayNumber(Navigated(x, Day, dir)) == DayNumber(x) + Signed(dir, 1)
  {
    var k := Signed(dir, 1);
    assert Navigated(x, Day, dir) == AddDays(x, k);
    AddDaysNumber(x, k);
  }

  /** In the week view the date moves by exactly seven days. */
  lemma NavigateWeek(x: Date, dir: Direction)
    requires x.Valid()
    ensures DayNumber(Navigated(x, Week, dir)) == DayNumber(x) + Signed(dir, 7)
  {
    var k := Signed(dir, 7);
    assert Navigated(x, Week, dir) == AddDays(x, k);
    AddDaysNumber(x, k);
  }

  /** A week step keeps the weekday. */
  lemma NavigateWeekday(x: Date, dir: Direction)
    requires x.Valid()
    ensures Weekday(Navigated(x, Week, dir)) == Weekday(x)
  {
    var k := Signed(dir, 7);
    assert Navigated(x, Week, dir) == AddDays(x, k);
    WeekdayAddDays(x, k);
    WholeWeek(Weekday(x), k);
  }

  lemma WholeWeek(w: int, k: int)
    requires 0 <= w < 7 && (k == 7 || k == -7)
    ensures (w + k) % 7 == w
  {
  }

  /** In the day and week views, next then prev (or prev then next) is back where it started. */
  lemma NavigateRoundTrip(x: Date, view: View)
    requires x.Valid() && (view == Day || view == Week)
    ensures Navigated(Navigated(x, view, Next), view, Prev) == x
    ensures Navigated(Navigated(x, view, Prev), view, Next) == x
  {
    var k := if view == Day then 1 else 7;
    AddDaysInverse(x, k);
    AddDaysInverse(x, -k);
  }

  /** The other views pass on the date unchanged. */
  lemma NavigateOtherViews(x: Date, view: View, dir: Direction)
    requires x.Valid() && view != Day && view != Week && view != Month
    ensures Navigated(x, view, dir) == x
  {
  }

  /** The month before or after, as `setMonth(getMonth() ± 1)` counts it: the year rolls over. */
  function TargetMonth(x: Date, dir: Direction): (r: (int, int))
    requires x.Valid()
    ensures 0 <= r.1 < 12
    ensures dir == Next ==> r == if x.month == 11 then (x.year + 1, 0) else (x.year, x.month + 1)
    ensures dir == Prev ==> r == if x.month == 0 then (x.year - 1, 11) else (x.year, x.month - 1)
  {
    var m := x.month + Signed(dir, 1);
    (x.year + m / 12, m % 12)
  }

  /**
   * In the month view the day is kept when the target month has it; otherwise it spills over
   * into the month after the target (31 January, next, is 2 or 3 March).
   */
  lemma NavigateMonth(x: Date, dir: Direction)
    requires x.Valid()
    ensures var (ty, tm) := TargetMonth(x, dir);
            x.day <= DaysInMonth(ty, tm) ==> Navigated(x, Month, dir) == Date(ty, tm, x.day)
    ensures var (ty, tm) := TargetMonth(x, dir);
            var n := Normalize(x.year, x.month + Signed(dir, 1) + 1, 1);
            x.day > DaysInMonth(ty, tm) ==>
              Navigated(x, Month, dir) == Date(n.year, n.month, x.day - DaysInMonth(ty, tm))
  {
    var m := x.month + Signed(dir, 1);
    var (ty, tm) := TargetMonth(x, dir);
    if x.day <= DaysInMonth(ty, tm) {
      NormalizeInMonth(x.year, m, x.day);
    } else {
      NormalizeOverflow(x.year, m, x.day);
    }
  }

  /**
   * Because of that spill-over the month view has no round trip: from a day the next month
   * lacks, next then prev lands on a different day of the month.
   */
  lemma MonthRoundTripLosesDay(x: Date)
    requires x.Valid()
    requires var (ty, tm) := TargetMonth(x, Next); x.day > DaysInMonth(ty, tm)
    ensures Navigated(Navigated(x, Month, Next), Month, Prev).day != x.day
  {
    var (ty, tm) := TargetMonth(x, Next);
    NavigateMonth(x, Next);
    var n := Navigated(x, Month, Next);
    assert 1 <= n.day <= 3;
    NavigateMonth(n, Prev);
  }
}
