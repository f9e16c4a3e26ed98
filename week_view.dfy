/**
 * The week view: the seven days from the Sunday on or before the current date, 24 hour rows,
 * and the events of each (day, hour) slot.
 */
module WeekView {
  import opened Wrappers
  import opened Text
  import opened CivilDate
  import opened Lists
  import opened EventTypes
  import opened TimeFormat
  import opened JsDates

  /** `startOfWeek`: the current date moved back by its weekday index. */
  function StartOfWeek(x: Date): Date
    requires x.Valid()
  {
    AddDays(x, -Weekday(x))
  }

  /** The seven days of the week of `x`, one after the other from its Sunday. */
  function WeekDays(x: Date): seq<Date>
    requires x.Valid()
  {
    seq(7, i => AddDays(StartOfWeek(x), i))
  }

  /**
   * `getWeekDays()`: copy the current date, `setDate(getDate() - getDay())`, then push seven
   * copies, the `i`-th moved by `setDate(startOfWeek.getDate() + i)`.
   */
  method GetWeekDays(currentDate: Date) returns (days: seq<Date>)
    requires currentDate.Valid()
    ensures days == WeekDays(currentDate)
  {
    var startOfWeek := new JsDate.Copy(currentDate);
    var day := startOfWeek.GetDay();
    var diff := startOfWeek.GetDate() - day;
    startOfWeek.SetDate(diff);
    assert currentDate.day + -day == diff;
    assert startOfWeek.Value() == StartOfWeek(currentDate);
    days := [];
    var i := 0;
    while i < 7
      invariant 0 <= i <= 7 && |days| == i
      invariant startOfWeek.Valid() && startOfWeek.Value() == StartOfWeek(currentDate)
      invariant forall k :: 0 <= k < i ==> days[k] == AddDays(StartOfWeek(currentDate), k)
    {
      var date := new JsDate.Copy(startOfWeek.Value());
      date.SetDate(startOfWeek.GetDate() + i);
      days := days + [date.Value()];
      i := i + 1;
    }
  }

  /** The week starts on a Sunday, on or at most six days before the current date. */
  lemma WeekStartsOnSunday(x: Date)
    requires x.Valid()
    ensures StartOfWeek(x).Valid()
    ensures Weekday(StartOfWeek(x)) == 0
    ensures DayNumber(x) - DayNumber(StartOfWeek(x)) == Weekday(x)
    ensures 0 <= DayNumber(x) - DayNumber(StartOfWeek(x)) <= 6
  {
    var w := Weekday(x);
    var s := AddDays(x, -w);
    AddDaysNumber(x, -w);
    var n := DayNumber(x);
    assert w == n % 7;
    assert DayNumber(s) == n - n % 7;
    MultipleOfSeven(n);
  }

  lemma MultipleOfSeven(n: int)
    ensures (n - n % 7) % 7 == 0
  {
    var q := n / 7;
    assert n - n % 7 == 7 * q;
  }

  /** Each day of the week is the day before it moved by one, across month and year ends. */
  lemma WeekDaysConsecutive(x: Date, i: int)
    requires x.Valid() && 0 <= i < 6
    ensures |WeekDays(x)| == 7
    ensures WeekDays(x)[i + 1] == AddDays(WeekDays(x)[i], 1)
  {
    AddDaysAdd(StartOfWeek(x), i, 1);
  }

  /** Day `i` of the week falls on weekday `i`, and the current date is day `getDay()` of its week. */
  lemma WeekDaysColumns(x: Date, i: int)
    requires x.Valid() && 0 <= i < 7
    ensures |WeekDays(x)| == 7
    ensures Weekday(WeekDays(x)[i]) == i
    ensures WeekDays(x)[Weekday(x)] == x
  {
    WeekDayColumn(x, i);
    WeekHoldsDate(x);
  }

  lemma WeekDayColumn(x: Date, i: int)
    requires x.Valid() && 0 <= i < 7
    ensures Weekday(AddDays(StartOfWeek(x), i)) == i
  {
    var s := StartOfWeek(x);
    WeekStartsOnSunday(x);
    assert Weekday(s) == 0;
    ColumnWeekday(s, i);
  }

  lemma ColumnWeekday(s: Date, i: int)
    requires s.Valid() && Weekday(s) == 0 && 0 <= i < 7
    ensures Weekday(AddDays(s, i)) == i
  {
    WeekdayAddDays(s, i);
    assert (Weekday(s) + i) % 7 == i;
  }

  lemma WeekHoldsDate(x: Date)
    requires x.Valid()
    ensures AddDays(StartOfWeek(x), Weekday(x)) == x
  {
    AddDaysAdd(x, -Weekday(x), Weekday(x));
    assert x.day + 0 == x.day;
    NormalizeValid(x);
  }

  /** An hour row of the week view: its label and its hour. */
  datatype WeekHour = WeekHour(display: string, value: int)

  /** `hours`: the 24 rows, labelled on the 12-hour clock. */
  function WeekHours(): (r: seq<WeekHour>)
    ensures |r| == 24
    ensures forall i :: 0 <= i < 24 ==> r[i].value == i
  {
    seq(24, i => WeekHour(HourLabel(i), i))
  }

  /** The row labels are all different, and run 12 AM, 01 AM, ..., 11 AM, 12 PM, 01 PM, ..., 11 PM. */
  lemma WeekHourLabels(i: int, j: int)
    requires 0 <= i < 24 && 0 <= j < 24
    ensures i != j ==> WeekHours()[i].display != WeekHours()[j].display
    ensures WeekHours()[i].display == Pad2(ClockHour(i)) + " " + (if i < 12 then "AM" else "PM")
    ensures 1 <= ClockHour(i) <= 12 && (ClockHour(i) == 12 <==> i == 0 || i == 12)
  {
    if i != j {
      HourLabelsDistinct(i, j);
    }
  }

  /** `getEventsForDayAndHour(date, hour)`: the events on that date string whose start hour parses to `hour`. */
  function EventsForDayAndHour(events: seq<Event>, x: Date, hour: int): (r: seq<Event>)
    ensures forall e :: e in r <==> e in events && e.data.date == DateString(x) && StartHour(e.data.startTime) == Some(hour)
  {
    Filter(events, (e: Event) => e.data.date == DateString(x) && StartHour(e.data.startTime) == Some(hour))
  }

  /** The slot lists its events in the order of the event list. */
  lemma EventsForDayAndHourOrder(events: seq<Event>, x: Date, hour: int)
    ensures IsSubsequence(EventsForDayAndHour(events, x, hour), events)
  {
    FilterIsSubsequence(events, (e: Event) => e.data.date == DateString(x) && StartHour(e.data.startTime) == Some(hour));
  }

  /**
   * The 24 slots of one day split that day's events: every occurrence of an event that starts
   * in hour `h` of the day is in slot `h`, and in no other slot.
   */
  lemma HourSlotsPartition(events: seq<Event>, x: Date, e: Event, h: int, g: int)
    requires e.data.date == DateString(x) && StartHour(e.data.startTime) == Some(h)
    ensures multiset(EventsForDayAndHour(events, x, h))[e] == multiset(events)[e]
    ensures g != h ==> multiset(EventsForDayAndHour(events, x, g))[e] == 0
  {
    FilterCount(events, (e: Event) => e.data.date == DateString(x) && StartHour(e.data.startTime) == Some(h), e);
    FilterCount(events, (e: Event) => e.data.date == DateString(x) && StartHour(e.data.startTime) == Some(g), e);
  }

  /** The add button of slot `hour` proposes `HH:00`, and an event created from it lands in that slot. */
  function AddButtonTime(hour: int): (t: string)
    requires 0 <= hour < 24
    ensures |t| == 5 && StartHour(t) == Some(hour)
  {
    SlotTimeStartHour(hour);
    SlotTime(hour)
  }
}
