/**
 * The sidebar's mini calendar (its cells, today's mark, the date a click picks, and its
 * own prev/next month) and the calendar toggles.
 */
module CalendarSidebar {
  import opened CivilDate
  import opened MonthView

  /** A cell of the mini calendar: a blank before the 1st, or the button for a day. */
  datatype MiniCell = Filler | DayButton(day: int, isToday: bool)

  /** The mark on day `day` of the mini calendar's month: the same day, month and year as the current date. */
  predicate IsToday(mini: Date, current: Date, day: int) {
    day == current.day && mini.month == current.month && mini.year == current.year
  }

  /** `new Date(year, month, day)` for a day button of the mini calendar's month. */
  function ClickDate(mini: Date, day: int): (r: Date)
    requires mini.Valid()
    ensures r.Valid()
  {
    Normalize(mini.year, mini.month, day)
  }

  /** A day button picks that very day of the mini calendar's month, and it is marked exactly when that day is the current date. */
  lemma ClickDateMeaning(mini: Date, current: Date, day: int)
    requires mini.Valid() && 1 <= day <= DaysInMonth(mini.year, mini.month)
    ensures ClickDate(mini, day) == Date(mini.year, mini.month, day)
    ensures IsToday(mini, current, day) <==> ClickDate(mini, day) == current
  {
    NormalizeInMonth(mini.year, mini.month, day);
    assert mini.month / 12 == 0 && mini.month % 12 == mini.month;
  }

  /**
   * The cells `renderMiniCalendar` produces: one blank per weekday before the 1st, then the
   * days 1..n of the month, each marked if it is today. There is no padding after the last day.
   */
  function MiniCalendar(mini: Date, current: Date): (r: seq<MiniCell>)
    requires mini.Valid()
    ensures |r| == GetFirstDayOfMonth(mini) + GetDaysInMonth(mini)
    ensures forall k :: 0 <= k < GetFirstDayOfMonth(mini) ==> r[k] == Filler
    ensures forall k :: GetFirstDayOfMonth(mini) <= k < |r| ==>
              r[k] == DayButton(k - GetFirstDayOfMonth(mini) + 1,
                                IsToday(mini, current, k - GetFirstDayOfMonth(mini) + 1))
  {
    var first := GetFirstDayOfMonth(mini);
    var n := GetDaysInMonth(mini);
    seq(first, _ => Filler) + seq(n, i => DayButton(i + 1, IsToday(mini, current, i + 1)))
  }

  /** `renderMiniCalendar`: the two loops that push the blanks and then the day buttons. */
  method RenderMiniCalendar(mini: Date, current: Date) returns (days: seq<MiniCell>)
    requires mini.Valid()
    ensures days == MiniCalendar(mini, current)
  {
    var daysInMonth := GetDaysInMonth(mini);
    var firstDay := GetFirstDayOfMonth(mini);
    days := [];
    var i := 0;
    while i < firstDay
      invariant 0 <= i <= firstDay
      invariant |days| == i
      invariant forall k :: 0 <= k < i ==> days[k] == Filler
    {
      days := days + [Filler];
      i := i + 1;
    }
    var day := 1;
    while day <= daysInMonth
      invariant 1 <= day <= daysInMonth + 1
      invariant |days| == firstDay + day - 1
      invariant forall k :: 0 <= k < firstDay ==> days[k] == Filler
      invariant forall k :: firstDay <= k < |days| ==>
                  days[k] == DayButton(k - firstDay + 1, IsToday(mini, current, k - firstDay + 1))
    {
      days := days + [DayButton(day, IsToday(mini, current, day))];
      day := day + 1;
    }
    var spec := MiniCalendar(mini, current);
    assert forall k :: 0 <= k < |days| ==> days[k] == spec[k];
  }

  /**
   * When the mini calendar shows the current date's month, exactly one cell is marked: the
   * current day's, which sits after the blanks; in any other month no cell is marked.
   */
  lemma TodayMarkedOnce(mini: Date, current: Date, k: int)
    requires mini.Valid() && current.Valid() && 0 <= k < |MiniCalendar(mini, current)|
    ensures var r := MiniCalendar(mini, current);
            r[k].DayButton? && r[k].isToday <==>
              mini.year == current.year && mini.month == current.month
              && k == GetFirstDayOfMonth(mini) + current.day - 1
  {
  }

  /** Next month, as `new Date(year, month + 1)` counts it: day 1 of the month after, the year rolling over. */
  function NextMonthStart(x: Date): (r: Date)
    requires x.Valid()
    ensures r == if x.month == 11 then Date(x.year + 1, 0, 1) else Date(x.year, x.month + 1, 1)
  {
    NormalizeInMonth(x.year, x.month + 1, 1);
    Normalize(x.year, x.month + 1, 1)
  }

  /** The month before, as `new Date(year, month - 1)` counts it: day 1 of the month before. */
  function PrevMonthStart(x: Date): (r: Date)
    requires x.Valid()
    ensures r == if x.month == 0 then Date(x.year - 1, 11, 1) else Date(x.year, x.month - 1, 1)
  {
    NormalizeInMonth(x.year, x.month - 1, 1);
    Normalize(x.year, x.month - 1, 1)
  }

  /** Forward then back (or back then forward) is the first of the month started from. */
  lemma MiniMonthRoundTrip(x: Date)
    requires x.Valid()
    ensures PrevMonthStart(NextMonthStart(x)) == Date(x.year, x.month, 1)
    ensures NextMonthStart(PrevMonthStart(x)) == Date(x.year, x.month, 1)
  {
  }

  /** `{ ...selectedCalendars, [id]: checked }`. */
  function Toggle(selected: map<string, bool>, id: string, checked: bool): (r: map<string, bool>)
    ensures id in r && r[id] == checked
  {
    selected[id := checked]
  }

  /** A toggle changes only the toggled calendar's flag and adds no other key. */
  lemma ToggleOnlyThatKey(selected: map<string, bool>, id: string, checked: bool)
    ensures Toggle(selected, id, checked).Keys == selected.Keys + {id}
    ensures forall k :: k in selected && k != id ==> Toggle(selected, id, checked)[k] == selected[k]
    ensures Toggle(Toggle(selected, id, !checked), id, checked) == Toggle(selected, id, checked)
  {
  }

  /** The sidebar's own state: the month the mini calendar shows, starting at the current date. */
  class SidebarState {
    var miniCalendarDate: Date

    constructor (currentDate: Date)
      ensures miniCalendarDate == currentDate
    {
      miniCalendarDate := currentDate;
    }

    /** The left chevron. */
    method ShowPrevMonth()
      requires miniCalendarDate.Valid()
      modifies this
      ensures miniCalendarDate == PrevMonthStart(old(miniCalendarDate))
    {
      miniCalendarDate := Normalize(miniCalendarDate.year, miniCalendarDate.month - 1, 1);
    }

    /** The right chevron. */
    method ShowNextMonth()
      requires miniCalendarDate.Valid()
      modifies this
      ensures miniCalendarDate == NextMonthStart(old(miniCalendarDate))
    {
      miniCalendarDate := Normalize(miniCalendarDate.year, miniCalendarDate.month + 1, 1);
    }
  }
}
