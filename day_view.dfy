/**
 * The day view: 24 hour rows for the current date, the events starting in each hour, and the
 * height and offset of each event's block.
 */
module DayView {
  import opened Wrappers
  import opened Text
  import opened CivilDate
  import opened Lists
  import opened EventTypes
  import opened TimeFormat
  import opened MonthView
  import opened WeekView

  /** An hour row of the day view: its label, and its hour as two digits. */
  datatype DayHour = DayHour(display: string, value: string)

  /** `hours`: row `i` shows the 12-hour label and carries `i` padded to two digits. */
  function DayHours(): (r: seq<DayHour>)
    ensures |r| == 24
  {
    seq(24, i => DayHour(HourLabel(i), Pad2(i)))
  }

  /**
   * Row `i`'s value is `i` written with two digits, and the time its add button proposes,
   * `value + ":00"`, starts in hour `i`. The labels are those of the week view.
   */
  lemma DayHourRow(i: int)
    requires 0 <= i < 24
    ensures var row := DayHours()[i];
            |row.value| == 2 && AllDigits(row.value) && DigitsValue(row.value) == i
            && row.value + ":00" == SlotTime(i)
            && StartHour(row.value + ":00") == Some(i)
            && row.display == WeekHours()[i].display
  {
    Pad2Exact(i);
    SlotTimeStartHour(i);
  }

  /** The rows' values "00".."23" are all different. */
  lemma DayHourValuesDistinct(i: int, j: int)
    requires 0 <= i < 24 && 0 <= j < 24 && i != j
    ensures DayHours()[i].value != DayHours()[j].value
  {
    DayHourRow(i);
    DayHourRow(j);
  }

  /** `getEventsForHour(hour)`: the day's events (`getDayEvents`), then those whose start hour parses to `hour`. */
  function EventsForHour(events: seq<Event>, x: Date, hour: int): (r: seq<Event>)
    ensures forall e :: e in r ==> e in EventsForDay(events, x) && StartHour(e.data.startTime) == Some(hour)
  {
    Filter(EventsForDay(events, x), (e: Event) => StartHour(e.data.startTime) == Some(hour))
  }

  /** Filtering by day and then by hour gives the week view's single (day, hour) filter, in the same order. */
  lemma EventsForHourIsSlot(events: seq<Event>, x: Date, hour: int)
    ensures EventsForHour(events, x, hour) == EventsForDayAndHour(events, x, hour)
  {
    FilterFilter(events,
      (e: Event) => e.data.date == DateString(x),
      (e: Event) => StartHour(e.data.startTime) == Some(hour),
      (e: Event) => e.data.date == DateString(x) && StartHour(e.data.startTime) == Some(hour));
  }

  /**
   * `h * 60 + m` for the first two `:`-pieces of a time, each read with `Number`; a missing
   * minutes piece is `undefined` and, like a piece that is not a number, makes the result NaN.
   */
  function Minutes(time: string): Option<int> {
    MinutesOf(Split(time, ':'))
  }

  function MinutesOf(pieces: seq<string>): (r: Option<int>)
    requires |pieces| >= 1
    ensures r.Some? <==> |pieces| > 1 && NumberOf(pieces[0]).Some? && NumberOf(pieces[1]).Some?
    ensures r.Some? ==> r.value == NumberOf(pieces[0]).value * 60 + NumberOf(pieces[1]).value
  {
    var h := NumberOf(pieces[0]);
    var m := if |pieces| > 1 then NumberOf(pieces[1]) else None;
    if h.Some? && m.Some? then Some(h.value * 60 + m.value) else None
  }

  /** A time written `HH:MM` with two-digit hour and minutes is `HH` hours and `MM` minutes. */
  lemma MinutesOfClock(h: int, m: int)
    requires 0 <= h < 100 && 0 <= m < 100
    ensures Minutes(Pad2(h) + ":" + Pad2(m)) == Some(h * 60 + m)
  {
    Pad2Exact(h);
    Pad2Exact(m);
    MinutesOfDigits(Pad2(h), Pad2(m), h, m);
  }

  lemma MinutesOfDigits(hh: string, mm: string, h: int, m: int)
    requires hh != [] && AllDigits(hh) && mm != [] && AllDigits(mm)
    requires h == DigitsValue(hh) && m == DigitsValue(mm)
    ensures Minutes(hh + ":" + mm) == Some(h * 60 + m)
  {
    MinutesSplit(hh, mm);
    NumberOfDigits(hh);
    NumberOfDigits(mm);
    var p := [hh, mm];
    assert p[0] == hh && p[1] == mm;
    MinutesOfPair(p, h, m);
  }

  lemma MinutesSplit(hh: string, mm: string)
    requires AllDigits(hh) && AllDigits(mm)
    ensures Minutes(hh + ":" + mm) == MinutesOf([hh, mm])
  {
    NoColonInDigits(hh);
    NoColonInDigits(mm);
    SplitHourMinutes(hh, mm);
  }

  lemma MinutesOfPair(p: seq<string>, h: int, m: int)
    requires |p| == 2 && NumberOf(p[0]) == Some(h) && NumberOf(p[1]) == Some(m)
    ensures MinutesOf(p) == Some(h * 60 + m)
  {
    var r := MinutesOf(p);
    assert r.Some?;
    assert r.value == h * 60 + m;
  }

  lemma NoColonInDigits(s: string)
    requires AllDigits(s)
    ensures ':' !in s
  {
    assert forall k :: 0 <= k < |s| ==> IsDigit(s[k]);
  }

  /** `calculateEventHeight`: the minutes of the end time less those of the start time, but at least 30. */
  function EventHeight(startTime: string, endTime: string): Option<int> {
    HeightOf(Minutes(startTime), Minutes(endTime))
  }

  /** `Math.max(endMinutes - startMinutes, 30)`, where NaN (`None`) on either side gives NaN. */
  function HeightOf(startMinutes: Option<int>, endMinutes: Option<int>): (r: Option<int>)
    ensures r.Some? <==> startMinutes.Some? && endMinutes.Some?
    ensures r.Some? ==> r.value >= 30
    ensures r.Some? ==> var d := endMinutes.value - startMinutes.value;
                        (d >= 30 ==> r.value == d) && (d < 30 ==> r.value == 30)
  {
    match (startMinutes, endMinutes)
    case (Some(s), Some(e)) => Some(if e - s > 30 then e - s else 30)
    case _ => None
  }

  /** The block's `height`: `Math.min(eventHeight, 120)`, so between 30 and 120 pixels. */
  function BlockHeight(startTime: string, endTime: string): Option<int> {
    Capped(EventHeight(startTime, endTime))
  }

  /** `Math.min(h, 120)`, NaN staying NaN. */
  function Capped(h: Option<int>): (r: Option<int>)
    ensures r.Some? <==> h.Some?
    ensures r.Some? ==> r.value <= 120 && r.value <= h.value
    ensures r.Some? ==> (r.value == h.value || r.value == 120)
  {
    match h
    case Some(v) => Some(if v < 120 then v else 120)
    case None => None
  }

  /** Every drawn height lies between 30 and 120 pixels, and is the computed height whenever that is at most 120. */
  lemma BlockHeightRange(startTime: string, endTime: string)
    ensures var b := BlockHeight(startTime, endTime);
            var h := EventHeight(startTime, endTime);
            (b.Some? <==> h.Some?)
            && (b.Some? ==> 30 <= b.value <= 120 && (h.value <= 120 ==> b.value == h.value))
  {
  }

  /** One drawn event: its height in pixels (`None` for NaN) and its `top` offset. */
  datatype Block = Block(event: Event, height: Option<int>, top: int)

  /** The blocks of an hour's events `evs`, the `i`-th drawn `i * 4` pixels down. */
  function HourBlocks(evs: seq<Event>): (r: seq<Block>)
    ensures |r| == |evs|
  {
    seq(|evs|, i requires 0 <= i < |evs| =>
      Block(evs[i], BlockHeight(evs[i].data.startTime, evs[i].data.endTime), i * 4))
  }

  /**
   * The blocks of an hour are its events in order, stacked 4 pixels apart from the top of the
   * row and nothing else: two blocks never share an offset, and every height is 30..120.
   */
  lemma HourBlocksLayout(evs: seq<Event>, i: int, j: int)
    requires 0 <= i < j < |evs|
    ensures var b := HourBlocks(evs);
            b[i].event == evs[i]
            && b[0].top == 0 && b[j].top - b[i].top == 4 * (j - i)
            && (b[i].height.Some? ==> 30 <= b[i].height.value <= 120)
  {
  }

  /** The icon drawn beside a status. */
  datatype StatusIcon = CheckCircle | ClockIcon | AlertCircle

  /** `getStatusIcon`: Complete, In Progress and Overdue have an icon, Not Started has none. */
  function GetStatusIcon(s: EventStatus): (r: Option<StatusIcon>)
    ensures r.None? <==> s == NotStarted
    ensures r == Some(CheckCircle) <==> s == Complete
    ensures r == Some(ClockIcon) <==> s == InProgress
    ensures r == Some(AlertCircle) <==> s == Overdue
  {
    match s
    case Complete => Some(CheckCircle)
    case InProgress => Some(ClockIcon)
    case Overdue => Some(AlertCircle)
    case NotStarted => None
  }
}
