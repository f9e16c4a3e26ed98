/**
 * The month view: a 6 x 7 grid of day cells built by three loops (the tail of the month
 * before, the days of the month, the head of the month after), and the events of each cell.
 */
module MonthView {
  import opened Wrappers
  import opened Text
  import opened CivilDate
  import opened Lists
  import opened EventTypes
  import opened DisplayCap

  /** One square of the grid: the number shown, whether it is in the reference month, and its date. */
  datatype Cell = Cell(day: int, isCurrentMonth: bool, date: Date)

  /** `getDaysInMonth(date)`: the day number of day 0 of the next month, which is the length of this one. */
  function GetDaysInMonth(x: Date): (n: int)
    requires x.Valid()
    ensures n == DaysInMonth(x.year, x.month)
    ensures 28 <= n <= 31
  {
    DayZeroIsLength(x.year, x.month);
    Normalize(x.year, x.month + 1, 0).day
  }

  lemma DayZeroIsLength(y: int, m: int)
    requires 0 <= m < 12
    ensures Normalize(y, m + 1, 0).day == DaysInMonth(y, m)
  {
    DayZero(y, m + 1);
    NormalizeInMonth(y, m, 1);
    assert m / 12 == 0 && m % 12 == m;
  }

  /** `getFirstDayOfMonth(date)`: the weekday of the first of the month (0 is Sunday). */
  function GetFirstDayOfMonth(x: Date): (w: int)
    requires x.Valid()
    ensures 0 <= w < 7
    ensures w == Weekday(Date(x.year, x.month, 1))
  {
    NormalizeInMonth(x.year, x.month, 1);
    assert x.month / 12 == 0 && x.month % 12 == x.month;
    Weekday(Normalize(x.year, x.month, 1))
  }

  /** `prevMonth` as the view computes it: `new Date(y, m - 1, 0)`. */
  function PrevMonthAnchor(x: Date): Date
    requires x.Valid()
  {
    Normalize(x.year, x.month - 1, 0)
  }

  /** The leading cell `i` places before the anchor day (the loop counts `i` down to 0). */
  function LeadCell(anchor: Date, i: int): Cell {
    Cell(anchor.day - i, false, Normalize(anchor.year, anchor.month, anchor.day - i))
  }

  function CurrentCell(x: Date, day: int): Cell {
    Cell(day, true, Normalize(x.year, x.month, day))
  }

  function NextCell(x: Date, day: int): Cell {
    Cell(day, false, Normalize(x.year, x.month + 1, day))
  }

  /**
   * The cells the three loops produce for reference date `x` when the leading cells count back
   * from `anchor` and the month starts on weekday `fd`: `fd` leading cells, `daysInMonth`
   * current cells, then the rest of 42. The view's grid is the one with `fd` the weekday of
   * the first of the month.
   */
  function Grid(x: Date, anchor: Date, fd: int): seq<Cell>
    requires x.Valid() && 0 <= fd < 7
  {
    var dim := DaysInMonth(x.year, x.month);
    seq(fd, k => LeadCell(anchor, fd - 1 - k))
    + seq(dim, k => CurrentCell(x, k + 1))
    + seq(42 - (fd + dim), k => NextCell(x, k + 1))
  }

  /** Cell `k` of the grid, by the loop that produced it. */
  lemma GridAt(x: Date, anchor: Date, fd: int, k: int)
    requires x.Valid() && 0 <= fd < 7 && 0 <= k < 42
    ensures |Grid(x, anchor, fd)| == 42
    ensures var dim := DaysInMonth(x.year, x.month);
            Grid(x, anchor, fd)[k] ==
              if k < fd then LeadCell(anchor, fd - 1 - k)
              else if k < fd + dim then CurrentCell(x, k - fd + 1)
              else NextCell(x, k - fd - dim + 1)
  {
  }

  /** The three loops of the view, filling `days` by appending one cell at a time. */
  method BuildMonthGrid(x: Date) returns (days: seq<Cell>)
    requires x.Valid()
    ensures days == Grid(x, PrevMonthAnchor(x), Weekday(Date(x.year, x.month, 1)))
  {
    var daysInMonth := GetDaysInMonth(x);
    var firstDay := GetFirstDayOfMonth(x);
    var prevMonth := Normalize(x.year, x.month - 1, 0);
    var d1 := PushPreviousMonthDays([], prevMonth, firstDay);
    var d2 := PushCurrentMonthDays(d1, x, daysInMonth);
    var remainingDays := 42 - |d2|;
    days := PushNextMonthDays(d2, x, remainingDays);
    GridFromLoops(x, prevMonth, firstDay, d1, d2, days);
  }

  /** What the three loops leave behind, one after the other, is the grid. */
  lemma GridFromLoops(x: Date, anchor: Date, fd: int, d1: seq<Cell>, d2: seq<Cell>, days: seq<Cell>)
    requires x.Valid() && 0 <= fd < 7
    requires |d1| == fd
    requires forall k :: 0 <= k < |d1| ==> d1[k] == LeadCell(anchor, |d1| - 1 - k)
    requires |d2| == |d1| + DaysInMonth(x.year, x.month) && d2[..|d1|] == d1
    requires forall k :: |d1| <= k < |d2| ==> d2[k] == CurrentCell(x, k - |d1| + 1)
    requires |days| == 42 && days[..|d2|] == d2
    requires forall k :: |d2| <= k < |days| ==> days[k] == NextCell(x, k - |d2| + 1)
    ensures days == Grid(x, anchor, fd)
  {
    GridFromParts(x, anchor, fd, days);
  }

  /** A sequence that agrees with the three parts of the grid, cell by cell, is the grid. */
  lemma GridFromParts(x: Date, anchor: Date, fd: int, days: seq<Cell>)
    requires x.Valid() && 0 <= fd < 7
    requires |days| == 42
    requires forall k :: 0 <= k < fd ==> days[k] == LeadCell(anchor, fd - 1 - k)
    requires forall k :: fd <= k < fd + DaysInMonth(x.year, x.month) ==> days[k] == CurrentCell(x, k - fd + 1)
    requires forall k :: fd + DaysInMonth(x.year, x.month) <= k < 42 ==>
               days[k] == NextCell(x, k - fd - DaysInMonth(x.year, x.month) + 1)
    ensures days == Grid(x, anchor, fd)
  {
    forall k | 0 <= k < 42
      ensures days[k] == Grid(x, anchor, fd)[k]
    {
      GridAt(x, anchor, fd, k);
    }
    GridAt(x, anchor, fd, 0);
  }

  /** `for (let i = firstDay - 1; i >= 0; i--)`: the `n` days up to `prevMonth`, ascending. */
  method PushPreviousMonthDays(days0: seq<Cell>, prevMonth: Date, n: int) returns (days: seq<Cell>)
    requires n >= 0
    ensures |days| == |days0| + n && days[..|days0|] == days0
    ensures forall k :: |days0| <= k < |days| ==> days[k] == LeadCell(prevMonth, |days| - 1 - k)
  {
    days := days0;
    var i := n - 1;
    while i >= 0
      invariant -1 <= i < n
      invariant |days| == |days0| + n - 1 - i && days[..|days0|] == days0
      invariant forall k :: |days0| <= k < |days| ==> days[k] == LeadCell(prevMonth, |days0| + n - 1 - k)
    {
      days := days + [LeadCell(prevMonth, i)];
      i := i - 1;
    }
  }

  /** `for (let day = 1; day <= daysInMonth; day++)`: days 1..n of the reference month. */
  method PushCurrentMonthDays(days0: seq<Cell>, x: Date, n: int) returns (days: seq<Cell>)
    requires n >= 0
    ensures |days| == |days0| + n && days[..|days0|] == days0
    ensures forall k :: |days0| <= k < |days| ==> days[k] == CurrentCell(x, k - |days0| + 1)
  {
    days := days0;
    var day := 1;
    while day <= n
      invariant 1 <= day <= n + 1
      invariant |days| == |days0| + day - 1 && days[..|days0|] == days0
      invariant forall k :: |days0| <= k < |days| ==> days[k] == CurrentCell(x, k - |days0| + 1)
    {
      days := days + [CurrentCell(x, day)];
      day := day + 1;
    }
  }

  /** `for (let day = 1; day <= remainingDays; day++)`: days 1..n of the month after. */
  method PushNextMonthDays(days0: seq<Cell>, x: Date, n: int) returns (days: seq<Cell>)
    requires n >= 0
    ensures |days| == |days0| + n && days[..|days0|] == days0
    ensures forall k :: |days0| <= k < |days| ==> days[k] == NextCell(x, k - |days0| + 1)
  {
    days := days0;
    var day := 1;
    while day <= n
      invariant 1 <= day <= n + 1
      invariant |days| == |days0| + day - 1 && days[..|days0|] == days0
      invariant forall k :: |days0| <= k < |days| ==> days[k] == NextCell(x, k - |days0| + 1)
    {
      days := days + [NextCell(x, day)];
      day := day + 1;
    }
  }

  /** The grid has 42 cells, of which at least five come from the month after. */
  lemma GridLength(x: Date, anchor: Date, fd: int)
    requires x.Valid() && 0 <= fd < 7
    ensures |Grid(x, anchor, fd)| == 42
    ensures 42 - (fd + DaysInMonth(x.year, x.month)) >= 5
  {
    GridAt(x, anchor, fd, 0);
  }

  /** The first `fd` cells, as many as the weekday of the first of the month, are not in the month. */
  lemma GridLeadingCell(x: Date, anchor: Date, fd: int, j: int)
    requires x.Valid() && 0 <= j < fd < 7
    ensures |Grid(x, anchor, fd)| == 42 && !Grid(x, anchor, fd)[j].isCurrentMonth
  {
    GridAt(x, anchor, fd, j);
  }

  /** After them come the days 1..daysInMonth of the month, in order, flagged as current. */
  lemma GridCurrentCell(x: Date, anchor: Date, fd: int, j: int)
    requires x.Valid() && 0 <= fd < 7
    requires fd <= j < fd + DaysInMonth(x.year, x.month)
    ensures |Grid(x, anchor, fd)| == 42
    ensures Grid(x, anchor, fd)[j] == Cell(j - fd + 1, true, Date(x.year, x.month, j - fd + 1))
  {
    GridAt(x, anchor, fd, j);
    CurrentDay(x, j - fd + 1);
  }

  /** The rest are the days 1, 2, ... of the month after, not flagged as current. */
  lemma GridNextCell(x: Date, anchor: Date, fd: int, j: int)
    requires x.Valid() && 0 <= fd < 7
    requires fd + DaysInMonth(x.year, x.month) <= j < 42
    ensures var n := fd + DaysInMonth(x.year, x.month);
            var nx := Normalize(x.year, x.month + 1, 1);
            |Grid(x, anchor, fd)| == 42 &&
            Grid(x, anchor, fd)[j] == Cell(j - n + 1, false, Date(nx.year, nx.month, j - n + 1))
  {
    var n := fd + DaysInMonth(x.year, x.month);
    GridAt(x, anchor, fd, j);
    NextMonthDay(x, j - n + 1);
  }

  /** Day `d` of the reference month, when it exists, is kept as it is. */
  lemma CurrentDay(x: Date, d: int)
    requires x.Valid() && 1 <= d <= DaysInMonth(x.year, x.month)
    ensures Normalize(x.year, x.month, d) == Date(x.year, x.month, d)
  {
    assert x.month / 12 == 0 && x.month % 12 == x.month;
    NormalizeInMonth(x.year, x.month, d);
  }

  /** Day `d <= 14` of the month after `x`'s is that month's first with day `d`. */
  lemma NextMonthDay(x: Date, d: int)
    requires x.Valid() && 1 <= d <= 14
    ensures var nx := Normalize(x.year, x.month + 1, 1);
            Normalize(x.year, x.month + 1, d) == Date(nx.year, nx.month, d)
  {
    var (y, m) := (x.year, x.month + 1);
    NormalizeInMonth(y, m, 1);
    assert 0 <= m % 12 < 12;
    assert DaysInMonth(y + m / 12, m % 12) >= 28;
    NormalizeInMonth(y, m, d);
  }

  /** The view's anchor `new Date(y, m - 1, 0)` is the last day of the month two before `x`'s. */
  lemma PrevMonthAnchorIsTwoBack(x: Date)
    requires x.Valid()
    ensures var p := Normalize(x.year, x.month - 2, 1);
            PrevMonthAnchor(x) == Date(p.year, p.month, DaysInMonth(p.year, p.month))
  {
    DayZero(x.year, x.month - 1);
  }

  /** The anchor the leading loop evidently intends: day 0 of the reference month, the last day of the month before. */
  function IntendedAnchor(x: Date): Date
    requires x.Valid()
  {
    Normalize(x.year, x.month, 0)
  }

  lemma IntendedAnchorIsOneBack(x: Date)
    requires x.Valid()
    ensures var p := Normalize(x.year, x.month - 1, 1);
            IntendedAnchor(x) == Date(p.year, p.month, DaysInMonth(p.year, p.month))
  {
    DayZero(x.year, x.month);
  }

  /** Counting back `i` days from a date stays in its month while the day stays positive. */
  lemma LeadCellInMonth(anchor: Date, i: int)
    requires anchor.Valid() && 0 <= i < anchor.day
    ensures LeadCell(anchor, i) == Cell(anchor.day - i, false, Date(anchor.year, anchor.month, anchor.day - i))
  {
    assert anchor.month / 12 == 0 && anchor.month % 12 == anchor.month;
    NormalizeInMonth(anchor.year, anchor.month, anchor.day - i);
  }

  /**
   * With the view's anchor, leading cell `j` is day `last - (fd - 1 - j)` of the month two
   * before, where `last` is that month's length: ascending, ending on its last day.
   */
  lemma GridLeadingAsWritten(x: Date, fd: int, j: int)
    requires x.Valid() && 0 <= j < fd < 7
    ensures var g := Grid(x, PrevMonthAnchor(x), fd);
            var i := fd - 1 - j;
            var p := Normalize(x.year, x.month - 2, 1);
            var last := DaysInMonth(p.year, p.month);
            |g| == 42 && g[j] == Cell(last - i, false, Date(p.year, p.month, last - i))
  {
    GridAt(x, PrevMonthAnchor(x), fd, j);
    PrevMonthAnchorIsTwoBack(x);
    LeadCellInMonth(PrevMonthAnchor(x), fd - 1 - j);
  }

  /** With the intended anchor, the leading cells are the last days of the month before. */
  lemma GridLeadingIntended(x: Date, fd: int, j: int)
    requires x.Valid() && 0 <= j < fd < 7
    ensures var g := Grid(x, IntendedAnchor(x), fd);
            var i := fd - 1 - j;
            var p := Normalize(x.year, x.month - 1, 1);
            var last := DaysInMonth(p.year, p.month);
            |g| == 42 && g[j] == Cell(last - i, false, Date(p.year, p.month, last - i))
  {
    GridAt(x, IntendedAnchor(x), fd, j);
    IntendedAnchorIsOneBack(x);
    LeadCellInMonth(IntendedAnchor(x), fd - 1 - j);
  }

  /**
   * With the intended anchor the 42 cells are 42 consecutive days, starting on the Sunday on or
   * before the first of the month, so that cell `k` falls in weekday column `k % 7`.
   */
  lemma IntendedGridConsecutive(x: Date, k: int)
    requires x.Valid() && 0 <= k < 42
    ensures var first := Date(x.year, x.month, 1);
            var g := Grid(x, IntendedAnchor(x), Weekday(first));
            |g| == 42
            && g[k].date.Valid()
            && DayNumber(g[k].date) == DayNumber(first) - Weekday(first) + k
            && Weekday(g[k].date) == k % 7
  {
    var first := Date(x.year, x.month, 1);
    var n := DayNumber(first);
    var fd := Weekday(first);
    IntendedDayNumber(x, fd, k);
    assert fd == n % 7;
    ColumnOfDay(n, k);
  }

  /** With the intended anchor, cell `k` is `k - fd` days after the first of the month. */
  lemma IntendedDayNumber(x: Date, fd: int, k: int)
    requires x.Valid() && 0 <= fd < 7 && 0 <= k < 42
    ensures var g := Grid(x, IntendedAnchor(x), fd);
            |g| == 42
            && g[k].date.Valid()
            && DayNumber(g[k].date) == DayNumber(Date(x.year, x.month, 1)) - fd + k
  {
    GridAt(x, IntendedAnchor(x), fd, k);
    if k < fd {
      IntendedLeadNumber(x, fd, k);
    } else if k < fd + DaysInMonth(x.year, x.month) {
      IntendedCurrentNumber(x, fd, k);
    } else {
      IntendedNextNumber(x, fd, k);
    }
  }

  lemma IntendedLeadNumber(x: Date, fd: int, k: int)
    requires x.Valid() && 0 <= k < fd < 7
    ensures var g := Grid(x, IntendedAnchor(x), fd);
            |g| == 42 && g[k].date.Valid()
            && DayNumber(g[k].date) == DayNumber(Date(x.year, x.month, 1)) - fd + k
  {
    GridAt(x, IntendedAnchor(x), fd, k);
    LeadNumber(x, fd - 1 - k);
  }

  lemma IntendedCurrentNumber(x: Date, fd: int, k: int)
    requires x.Valid() && 0 <= fd < 7 && fd <= k < fd + DaysInMonth(x.year, x.month)
    ensures var g := Grid(x, IntendedAnchor(x), fd);
            |g| == 42 && g[k].date.Valid()
            && DayNumber(g[k].date) == DayNumber(Date(x.year, x.month, 1)) - fd + k
  {
    GridCurrentCell(x, IntendedAnchor(x), fd, k);
  }

  lemma IntendedNextNumber(x: Date, fd: int, k: int)
    requires x.Valid() && 0 <= fd < 7 && fd + DaysInMonth(x.year, x.month) <= k < 42
    ensures var g := Grid(x, IntendedAnchor(x), fd);
            |g| == 42 && g[k].date.Valid()
            && DayNumber(g[k].date) == DayNumber(Date(x.year, x.month, 1)) - fd + k
  {
    var d := k - fd - DaysInMonth(x.year, x.month) + 1;
    GridNextAt(x, IntendedAnchor(x), fd, k);
    assert Grid(x, IntendedAnchor(x), fd)[k].date == Normalize(x.year, x.month + 1, d);
    NextNumber(x, d);
  }

  lemma GridNextAt(x: Date, anchor: Date, fd: int, k: int)
    requires x.Valid() && 0 <= fd < 7 && fd + DaysInMonth(x.year, x.month) <= k < 42
    ensures |Grid(x, anchor, fd)| == 42
    ensures Grid(x, anchor, fd)[k] == NextCell(x, k - fd - DaysInMonth(x.year, x.month) + 1)
  {
    GridAt(x, anchor, fd, k);
  }

  /** Leading cell `i` days before the intended anchor is `i + 1` days before the first. */
  lemma LeadNumber(x: Date, i: int)
    requires x.Valid()
    ensures DayNumber(LeadCell(IntendedAnchor(x), i).date) == DayNumber(Date(x.year, x.month, 1)) - 1 - i
  {
    var a := IntendedAnchor(x);
    IntendedAnchorNumber(x);
    assert a.day + -i == a.day - i;
    AddDaysNumber(a, -i);
  }

  lemma IntendedAnchorNumber(x: Date)
    requires x.Valid()
    ensures DayNumber(IntendedAnchor(x)) == DayNumber(Date(x.year, x.month, 1)) - 1
  {
    assert x.month / 12 == 0 && x.month % 12 == x.month;
    NormalizeNumber(x.year, x.month, 0);
  }

  /** Day `d` of the month after is `daysInMonth + d - 1` days after the first. */
  lemma NextNumber(x: Date, d: int)
    requires x.Valid()
    ensures DayNumber(Normalize(x.year, x.month + 1, d))
            == DayNumber(Date(x.year, x.month, 1)) + DaysInMonth(x.year, x.month) + d - 1
  {
    SerialMonthAfter(x.year, x.month, DaysInMonth(x.year, x.month) + d);
    NormalizeNumber(x.year, x.month + 1, d);
    assert (x.month + 1) / 12 == (if x.month == 11 then 1 else 0);
    assert (x.month + 1) % 12 == (if x.month == 11 then 0 else x.month + 1);
  }

  /** Counting from the Sunday on or before day `n`, the `k`-th day falls on weekday `k % 7`. */
  lemma ColumnOfDay(n: int, k: int)
    ensures (n - n % 7 + k) % 7 == k % 7
  {
    var q := n / 7;
    assert n - n % 7 == 7 * q;
    ModAdd7(7 * q, k);
    assert (7 * q) % 7 == 0;
  }

  /**
   * The events of a cell's date: those whose `date` field is the cell's `YYYY-MM-DD`,
   * in source order.
   */
  function EventsForDay(events: seq<Event>, x: Date): (r: seq<Event>)
    ensures forall i :: 0 <= i < |r| ==> r[i] in events && r[i].data.date == DateString(x)
    ensures forall i :: 0 <= i < |events| && events[i].data.date == DateString(x) ==> events[i] in r
  {
    Filter(events, (e: Event) => e.data.date == DateString(x))
  }

  lemma EventsForDayOrder(events: seq<Event>, x: Date)
    ensures IsSubsequence(EventsForDay(events, x), events)
  {
    FilterIsSubsequence(events, (e: Event) => e.data.date == DateString(x));
  }

  /** `dayEvents`: out-of-month cells list nothing; the others list their date's events. */
  function CellEvents(events: seq<Event>, c: Cell): (r: seq<Event>)
    ensures !c.isCurrentMonth ==> r == []
    ensures c.isCurrentMonth ==> forall e :: e in events ==> (e in r <==> e.data.date == DateString(c.date))
  {
    if c.isCurrentMonth then EventsForDay(events, c.date) else []
  }

  /** A cell flagged as current is one of the month's days, and shows its own day. */
  lemma CurrentCellAt(x: Date, anchor: Date, fd: int, j: int)
    requires x.Valid() && 0 <= fd < 7 && 0 <= j < 42
    requires |Grid(x, anchor, fd)| == 42 && Grid(x, anchor, fd)[j].isCurrentMonth
    ensures fd <= j < fd + DaysInMonth(x.year, x.month)
    ensures Grid(x, anchor, fd)[j] == Cell(j - fd + 1, true, Date(x.year, x.month, j - fd + 1))
  {
    GridAt(x, anchor, fd, j);
    GridCurrentCell(x, anchor, fd, j);
  }

  /** Two different current-month cells of one grid never list the same event. */
  lemma CellEventsDisjoint(x: Date, anchor: Date, fd: int, events: seq<Event>, a: int, b: int)
    requires x.Valid() && 0 <= fd < 7 && 0 <= a < 42 && 0 <= b < 42 && a != b
    requires |Grid(x, anchor, fd)| == 42
    requires Grid(x, anchor, fd)[a].isCurrentMonth && Grid(x, anchor, fd)[b].isCurrentMonth
    ensures forall e :: e in CellEvents(events, Grid(x, anchor, fd)[a]) ==> e !in CellEvents(events, Grid(x, anchor, fd)[b])
  {
    CurrentCellsDiffer(x, anchor, fd, a, b);
    EventsOfDifferentDays(events, Grid(x, anchor, fd)[a], Grid(x, anchor, fd)[b]);
  }

  /** Two different current-month cells carry different date strings. */
  lemma CurrentCellsDiffer(x: Date, anchor: Date, fd: int, a: int, b: int)
    requires x.Valid() && 0 <= fd < 7 && 0 <= a < 42 && 0 <= b < 42 && a != b
    requires |Grid(x, anchor, fd)| == 42
    requires Grid(x, anchor, fd)[a].isCurrentMonth && Grid(x, anchor, fd)[b].isCurrentMonth
    ensures DateString(Grid(x, anchor, fd)[a].date) != DateString(Grid(x, anchor, fd)[b].date)
  {
    var ca, cb := Grid(x, anchor, fd)[a], Grid(x, anchor, fd)[b];
    CurrentCellAt(x, anchor, fd, a);
    CurrentCellAt(x, anchor, fd, b);
    assert ca.date == Date(x.year, x.month, ca.day) && 1 <= ca.day <= 31;
    assert cb.date == Date(x.year, x.month, cb.day) && 1 <= cb.day <= 31;
    assert ca.day != cb.day;
    DateStringDays(x.year, x.month, ca.day, cb.day);
  }

  lemma EventsOfDifferentDays(events: seq<Event>, c: Cell, d: Cell)
    requires DateString(c.date) != DateString(d.date)
    ensures forall e :: e in CellEvents(events, c) ==> e !in CellEvents(events, d)
  {
    forall e | e in CellEvents(events, c)
      ensures e !in CellEvents(events, d)
    {
      var i :| 0 <= i < |CellEvents(events, c)| && CellEvents(events, c)[i] == e;
    }
  }

  /** Two different days of one month have different date strings. */
  lemma DateStringDays(y: int, m: int, d1: int, d2: int)
    requires 1 <= d1 <= 31 && 1 <= d2 <= 31 && d1 != d2
    ensures DateString(Date(y, m, d1)) != DateString(Date(y, m, d2))
  {
    var pre := DatePrefix(y, m);
    Pad2Differ(d1, d2);
    PrefixCancel(pre, Pad2(d1), Pad2(d2));
  }

  lemma Pad2Differ(d1: int, d2: int)
    requires 0 <= d1 < 100 && 0 <= d2 < 100 && d1 != d2
    ensures Pad2(d1) != Pad2(d2)
  {
    Pad2Exact(d1);
    Pad2Exact(d2);
  }

  lemma PrefixCancel(pre: string, a: string, b: string)
    requires a != b
    ensures pre + a != pre + b
  {
    assert (pre + a)[|pre|..] == a;
    assert (pre + b)[|pre|..] == b;
  }

  /** The "today" highlight: a current-month cell whose number, month and year are today's. */
  predicate IsToday(c: Cell, x: Date, today: Date) {
    c.isCurrentMonth && c.day == today.day && x.month == today.month && x.year == today.year
  }

  /** In the grid, a cell is highlighted exactly when it is in the month and its date is today. */
  lemma IsTodayExactly(x: Date, anchor: Date, fd: int, today: Date, k: int)
    requires x.Valid() && 0 <= fd < 7 && 0 <= k < 42
    ensures |Grid(x, anchor, fd)| == 42
    ensures var c := Grid(x, anchor, fd)[k];
            IsToday(c, x, today) <==> c.isCurrentMonth && c.date == today
  {
    GridAt(x, anchor, fd, k);
    if Grid(x, anchor, fd)[k].isCurrentMonth {
      CurrentCellAt(x, anchor, fd, k);
    }
  }

  /** `dayEvents.slice(0, 3)`: at most three events of a cell are listed. */
  function ListedEvents(events: seq<Event>, c: Cell): (r: seq<Event>)
    ensures |r| <= 3 && |r| <= |CellEvents(events, c)|
    ensures r == CellEvents(events, c)[..|r|]
  {
    Shown(CellEvents(events, c), Cap)
  }

  /** The "+N more" counter of a cell: `N` is the number of its events past the third. */
  function MoreCount(events: seq<Event>, c: Cell): (n: Option<nat>)
    ensures n.Some? <==> |CellEvents(events, c)| > 3
    ensures n.Some? ==> n.value == |CellEvents(events, c)| - 3
  {
    Overflow(CellEvents(events, c), Cap)
  }

  /** March 2024 starts on a Friday, so five leading cells are shown. */
  lemma March2024FirstDay()
    ensures Weekday(Date(2024, 2, 1)) == 5
  {
  }

  /**
   * For March 2024 the as-written anchor is 31 January 2024, so the last leading cell shows
   * January 31 where the day before 1 March (29 February 2024) belongs.
   */
  lemma March2024AsWritten()
    ensures var x := Date(2024, 2, 15);
            var g := Grid(x, PrevMonthAnchor(x), Weekday(Date(2024, 2, 1)));
            |g| == 42 && g[4] == Cell(31, false, Date(2024, 0, 31))
  {
    March2024FirstDay();
    GridLeadingAsWritten(Date(2024, 2, 15), 5, 4);
    assert Normalize(2024, 0, 1) == Date(2024, 0, 1) by {
      NormalizeValid(Date(2024, 0, 1));
    }
  }

  lemma March2024Intended()
    ensures var x := Date(2024, 2, 15);
            var g := Grid(x, IntendedAnchor(x), Weekday(Date(2024, 2, 1)));
            |g| == 42 && g[4] == Cell(29, false, Date(2024, 1, 29))
  {
    March2024FirstDay();
    GridLeadingIntended(Date(2024, 2, 15), 5, 4);
    assert Normalize(2024, 1, 1) == Date(2024, 1, 1) by {
      NormalizeValid(Date(2024, 1, 1));
    }
  }
}
