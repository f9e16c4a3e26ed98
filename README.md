# calender-comply in Dafny

A model of the deterministic logic inside the calender-comply calendar application (a
Next.js/React front end and a small events API). Most of the application is markup. The
parts modelled here are these:

- **Calendar dates.** Civil dates behave as JavaScript's `Date` treats them for years it
  reads literally (see "Left out" for years 0 to 99): a 0-based month, Gregorian month
  lengths and weekdays. `new Date(y, m, d)`, `setDate` and `setMonth` roll
  an out-of-range day or month over into the neighbouring months (`CivilDate`, `JsDates`).
- **The views.**
  - The month view builds a 42-cell grid with three loops and gives each day cell its
    events, showing three and a "+N more" counter (`MonthView`).
  - The week view starts on Sunday, has 24 hour rows, and puts events into
    (day, hour) slots (`WeekView`).
  - The day view has 24 hour rows, events per hour, and block heights and offsets
    (`DayView`).
  - The table view has a search filter, a sort comparator, a sort toggle and attendee
    avatars (`TableView`).
  - All four views share the `formatTime` 12-hour label (`TimeFormat`).
- **The sidebar and the header.** The sidebar has a mini calendar, its own month navigation
  and the calendar toggles (`CalendarSidebar`). The header's prev/next buttons move the date
  by one day, one week or one month (`CalendarHeader`).
- **The pages' state.**
  - The home page adds, updates and deletes events, sets a status, and checks the welcome
    form (`HomePage`).
  - The month page adds, edits, saves, deletes and closes, and shows a toast for each
    change (`MonthPage`).
  - Both pages use the same list transforms (`EventLists`).
- **The event modal.** How the form is filled when the modal opens, the default end time,
  the submit gate, the reset on close, the attendee, reminder and file lists, and the unit
  `formatFileSize` chooses (`EventModal`). Its attendee check uses the modal's own email
  pattern (`Email`).
- **The events API.** `POST /api/events` checks the body and fills in defaults. `GET` and
  `POST` map database errors to HTTP statuses (`EventsApi`). Every database call is given
  as the error it throws, if any.

The parts that only compute are functions with lemmas about them. The parts the source
builds step by step are methods with loops and invariants, proved equal to those functions:
- the month grid's three loops;
- the mini calendar's two loops;
- `getWeekDays`, which copies a `Date` and moves it in place;
- the header's `navigateDate`.

State that a component or page keeps is a class whose methods say exactly what their new
state is. Each handler's ensures fixes every field of its class.

`Date.now()` ids, "today", `new Date(event.date)` and `URL.createObjectURL` are parameters.

The default end time of a new event is the start hour plus one with the start's minutes.
The model keeps the code's behaviour here: it does not wrap at midnight, so a 23:30 start
ends at `24:30`.

## Model

| member | source | states |
|---|---|---|
| CivilDate.DaysInMonth | components/month-view.tsx:26-28 | a month has 28 to 31 days, and February has 29 exactly in a leap year |
| CivilDate.Weekday | components/week-view.tsx:28 | `getDay()` is a weekday index 0..6, with 0 for Sunday |
| CivilDate.NormalizeDayNumber | components/month-view.tsx:44 | rolling day `d` of a month into range lands on the day number of that month's first plus `d - 1`: an overflowing or non-positive day moves into the next or previous months |
| CivilDate.NormalizeNumber | components/month-view.tsx:39 | `new Date(y, m, d)` is the day `d - 1` after the first of month `m`, once the month has been rolled into years |
| CivilDate.NormalizeValid | components/calendar-header.tsx:48 | a date that is already in range is left as it is |
| CivilDate.NormalizeInMonth | components/calendar-sidebar.tsx:87 | a day that exists in the target month is kept, in the month and year after the month has rolled over |
| CivilDate.NormalizeOverflow | components/calendar-header.tsx:52 | a day past the end of the target month spills into the month after it, by the surplus |
| CivilDate.DayZero | components/month-view.tsx:27 | day 0 of a month is the last day of the month before |
| CivilDate.DayNumberInjective | components/week-view.tsx:33-36 | two valid dates with the same day number are the same date |
| CivilDate.AddDaysNumber | components/calendar-header.tsx:50 | `setDate(getDate() + k)` moves the day number by exactly `k`, across month and year ends |
| CivilDate.AddDaysInverse | components/calendar-header.tsx:50 | moving `k` days and then `-k` days returns to the date |
| CivilDate.AddDaysAdd | components/week-view.tsx:30-35 | moving `j` days and then `k` days is moving `j + k` days |
| CivilDate.WeekdayAddDays | components/week-view.tsx:30-35 | moving `k` days advances the weekday by `k` modulo 7 |
| JsDates.JsDate.Copy | components/calendar-header.tsx:48 | `new Date(other)` holds the same civil date |
| JsDates.JsDate.Make | components/calendar-sidebar.tsx:87 | `new Date(y, m, d)` holds the rolled-over date |
| JsDates.JsDate.GetDay | components/week-view.tsx:28 | `getDay()` lies in 0..6 |
| JsDates.JsDate.SetDate | components/week-view.tsx:30 | `setDate(d)` leaves day `d` of the current month, rolled over |
| JsDates.JsDate.SetMonth | components/calendar-header.tsx:52 | `setMonth(m)` leaves the current day of month `m`, rolled over |
| Text.NatToStringValue | components/week-view.tsx:46 | `n.toString()` reads back as `n` |
| Text.PadStart | components/week-view.tsx:46 | `padStart` gives the longer of the two lengths, ends with the string, and fills the front |
| Text.Pad2Exact | components/day-view.tsx:32 | 0..99 padded to two digits is exactly two digits that read back as the number |
| Text.Split | components/event-modal.tsx:67 | `split` gives at least one piece, and no piece holds the separator |
| Text.SplitJoin | components/event-modal.tsx:67 | joining the pieces with the separator gives back the string |
| Text.SplitAt | components/event-modal.tsx:67 | the first piece ends at the first separator |
| Text.TrimEmpty | components/event-modal.tsx:90 | `!s.trim()` holds exactly when `s` is whitespace only |
| Text.ParseInt | components/week-view.tsx:55 | `Number.parseInt` is NaN exactly when no digits follow the leading spaces, the sign and, if there is one, the `0x` prefix; the digits are hexadecimal after that prefix and decimal otherwise |
| Text.ParseIntHex | components/week-view.tsx:55 | after `0x` or `0X`, parsing reads hexadecimal digits and stops at the first that is not one |
| Text.ParseIntHexEmpty | components/week-view.tsx:55 | a `0x` prefix with no hexadecimal digit after it is NaN |
| Text.ParseIntHexExample | components/week-view.tsx:55 | `parseInt("0x1A")` is 26, so a start time `0x1A:00` falls in no hour slot |
| Text.ParseIntHexEmptyExample | components/week-view.tsx:55 | `parseInt("0x")` is NaN |
| Text.ParseIntDigits | components/week-view.tsx:55 | a digit string parses to its decimal value |
| Text.ParseIntPrefix | components/week-view.tsx:55 | parsing stops at the first non-digit, unless a lone `0` and an `x` form a hexadecimal prefix |
| Text.NumberOfDigits | components/day-view.tsx:62 | `Number` reads a digit string as its decimal value |
| Text.NumberOfRadix | components/day-view.tsx:62 | `Number` reads a `0x`, `0o` or `0b` literal as its value in that radix, and is NaN when no digit of that radix follows or another character does |
| Text.NumberOfSignedRadix | components/day-view.tsx:62 | a sign before a `0x`, `0o` or `0b` literal makes `Number` NaN |
| Text.ToLower | components/table-view.tsx:80 | lower-casing keeps the length and maps each character |
| Text.ContainsEmpty | components/table-view.tsx:80 | every string includes the empty string |
| Text.LexLessIrreflexive | components/table-view.tsx:103-104 | no string is `<` itself |
| Text.LexLessTransitive | components/table-view.tsx:103-104 | string `<` is transitive |
| Text.LexLessTotal | components/table-view.tsx:103-104 | two different strings are ordered one way or the other |
| Lists.Filter | app/page.tsx:70 | `filter` keeps exactly the elements that pass, and never lengthens the list |
| Lists.FilterIsSubsequence | app/page.tsx:70 | a filter keeps the order of what it keeps |
| Lists.FilterCount | app/page.tsx:70 | a filter keeps every occurrence of an accepted element and none of a rejected one |
| Lists.FilterAll | components/table-view.tsx:77-87 | a filter that accepts everything returns the list |
| Lists.FilterFilter | components/day-view.tsx:45-51 | filtering twice is filtering once by both tests |
| Lists.FilterDisjointUnion | components/week-view.tsx:51-58 | filtering by one of two exclusive tests gives, as a multiset, both filters together |
| Lists.FilterAppend | components/event-modal.tsx:126 | filtering a list with one more element at the end keeps it exactly when it passes |
| DisplayCap.Shown | components/month-view.tsx:132 | `slice(0, 3)` is the first three entries, or all of them when there are fewer |
| DisplayCap.Overflow | components/month-view.tsx:168-169 | the `+N` counter appears exactly when entries are hidden, and `N` is how many |
| DisplayCap.ShownAndHidden | components/table-view.tsx:239-255 | the shown entries and the counter account for every entry once |
| EventLists.Append | app/page.tsx:43-48 | the new event is at the end, with the form data and the given id, and the earlier events are unchanged |
| EventLists.AppendIds | app/page.tsx:48 | appending adds the new id at the end of the ids |
| EventLists.RemoveAppended | app/page.tsx:48-70 | deleting a freshly appended id undoes the append |
| EventLists.ReplaceById | app/page.tsx:62-64 | every entry with the id becomes the form data under that id, and the others stay, with the length kept |
| EventLists.ReplaceByIdIds | app/page.tsx:62-64 | replacing keeps every id in place |
| EventLists.ReplaceByIdLastWins | app/page.tsx:62-64 | the later of two replacements of an id wins |
| EventLists.ReplaceAbsent | app/page.tsx:62-64 | replacing an id the list does not hold changes nothing |
| EventLists.RemoveById | app/page.tsx:69-70 | the result holds no entry with the id and keeps every other entry |
| EventLists.RemoveByIdKeeps | app/page.tsx:69-70 | deletion keeps the order, and each other entry as often as it occurred |
| EventLists.RemoveAbsent | app/page.tsx:69-70 | deleting an id the list does not hold changes nothing |
| EventLists.RemoveIdempotent | app/page.tsx:69-70 | deleting an id twice is deleting it once |
| EventLists.SetStatusById | app/page.tsx:90-94 | the entries with the id get the status, and the others stay, with the length kept |
| EventLists.SetStatusOnlyStatus | app/page.tsx:90-94 | setting a status keeps every id and changes no field but the status |
| EventLists.SetStatusLastWins | app/page.tsx:90-94 | there is no transition guard: the last status set is the one an entry has |
| EventLists.SetStatusAbsent | app/page.tsx:90-94 | setting a status on an id the list does not hold changes nothing |
| Email.PageEmailTestIsPattern | app/page.tsx:107-108 | the welcome form's test accepts exactly the language of its pattern |
| Email.PageEmailTestAccepts | app/page.tsx:107 | a local part, `@`, a domain, `.` and two or more letters pass the form's test |
| Email.ModalEmailTestIsPattern | components/event-modal.tsx:120 | the modal's test accepts exactly the language of its pattern as written |
| Email.ModalMatchIsTest | components/event-modal.tsx:120 | any placement that fits the modal's pattern makes its test accept |
| Email.ModalEmailNeedsBackslash | components/event-modal.tsx:120 | the modal's test accepts nothing that lacks a backslash |
| Email.ModalEmailTestAccepts | components/event-modal.tsx:120 | the modal's test accepts a domain followed by a backslash, one character and the letters |
| Email.PageAcceptedModalRefused | components/event-modal.tsx:120 | every address the welcome form accepts is refused by the modal's test |
| Email.OrdinaryAddress | components/event-modal.tsx:120 | `jane@example.com` passes the form's test and fails the modal's |
| TimeFormat.FormatTimeClock | components/month-view.tsx:72-78 | hour 0 is 12 AM, 1..11 are AM, 12 is 12 PM, and 13..23 are `h - 12` PM; the minutes text is copied |
| TimeFormat.FormatTimeParts | components/table-view.tsx:43-49 | a well-formed time prints as its 12-hour number, the minutes and the meridiem |
| TimeFormat.ClockHourRange | components/week-view.tsx:43 | the 12-hour number of an hour of the day lies in 1..12 |
| TimeFormat.SlotTimeStartHour | components/week-view.tsx:115 | the `HH:00` an hour's add button proposes is five characters and starts in that hour |
| TimeFormat.StartHourOfDigits | components/day-view.tsx:48 | the start hour of `digits:00` is the digits' value |
| TimeFormat.HourLabelsDistinct | components/week-view.tsx:42-49 | the 24 hour labels are pairwise different |
| TimeFormat.SplitHourMinutes | components/event-modal.tsx:67 | `HH:MM` splits into the hour and the minutes |
| MonthView.GetDaysInMonth | components/month-view.tsx:26-28 | day 0 of the next month gives this month's Gregorian length, 28..31 |
| MonthView.DayZeroIsLength | components/month-view.tsx:27 | `new Date(y, m + 1, 0).getDate()` is the length of month `m` |
| MonthView.GetFirstDayOfMonth | components/month-view.tsx:30-32 | the weekday of the first of the month, 0..6 |
| MonthView.BuildMonthGrid | components/month-view.tsx:34-65 | the three loops build exactly the grid for the view's anchor and first weekday |
| MonthView.PushPreviousMonthDays | components/month-view.tsx:39-46 | the leading loop appends `n` days counted back from `prevMonth`, in ascending order |
| MonthView.PushCurrentMonthDays | components/month-view.tsx:48-55 | the second loop appends days 1..n of the month, flagged current |
| MonthView.PushNextMonthDays | components/month-view.tsx:57-65 | the third loop appends days 1..n of the month after, flagged not current |
| MonthView.GridAt | components/month-view.tsx:38-65 | the loop that produced cell `k`, and the cell it produced |
| MonthView.GridLength | components/month-view.tsx:58 | the grid has 42 cells, and at least five of them come from the month after |
| MonthView.GridLeadingCell | components/month-view.tsx:40 | the first cells, as many as the weekday of the first, are not in the month |
| MonthView.GridCurrentCell | components/month-view.tsx:49-55 | after them come days 1..daysInMonth in order, flagged current |
| MonthView.GridNextCell | components/month-view.tsx:57-65 | the rest are days 1, 2, … of the month after, flagged not current |
| MonthView.PrevMonthAnchorIsTwoBack | components/month-view.tsx:39 | `new Date(y, m - 1, 0)` is the last day of the month two before |
| MonthView.GridLeadingAsWritten | components/month-view.tsx:39-46 | as written, the leading cells are the last days of the month two before, ascending, ending on its last day |
| MonthView.IntendedAnchorIsOneBack | components/month-view.tsx:39 | the corrected anchor is the last day of the month before |
| MonthView.GridLeadingIntended | components/month-view.tsx:39-46 | with the corrected anchor, the leading cells are the last days of the month before |
| MonthView.IntendedGridConsecutive | components/month-view.tsx:36-65 | with the corrected anchor, the 42 cells are consecutive days from the Sunday on or before the first, and cell `k` falls on weekday `k % 7` |
| MonthView.March2024AsWritten | components/month-view.tsx:39-46 | for March 2024, the last leading cell shows 31 January |
| MonthView.March2024Intended | components/month-view.tsx:39-46 | with the corrected anchor, that cell is 29 February 2024 |
| MonthView.EventsForDay | components/month-view.tsx:67-70 | a day's events are exactly those whose date is the day's `YYYY-MM-DD` |
| MonthView.EventsForDayOrder | components/month-view.tsx:67-70 | they are listed in source order |
| MonthView.CellEvents | components/month-view.tsx:96 | an out-of-month cell lists nothing, and a current cell lists its date's events |
| MonthView.CurrentCellAt | components/month-view.tsx:49-55 | a cell flagged current is one of the month's days and shows its own day |
| MonthView.CellEventsDisjoint | components/month-view.tsx:96 | two different current cells never list the same event |
| MonthView.CurrentCellsDiffer | components/month-view.tsx:68 | two different current cells carry different date strings |
| MonthView.IsTodayExactly | components/month-view.tsx:97-101 | a cell is highlighted exactly when it is in the month and its date is today |
| MonthView.ListedEvents | components/month-view.tsx:132 | at most three events of a cell are listed: its first ones |
| MonthView.MoreCount | components/month-view.tsx:168-169 | "+N more" appears exactly when a cell has more than three events, with `N` the count less three |
| WeekView.GetWeekDays | components/week-view.tsx:26-39 | the loop returns the seven days of the week of the current date |
| WeekView.WeekStartsOnSunday | components/week-view.tsx:27-30 | the week starts on a Sunday, `getDay()` days before the current date, at most six |
| WeekView.WeekDaysConsecutive | components/week-view.tsx:33-36 | each day of the week is the one before it plus one day, across month and year ends |
| WeekView.WeekDaysColumns | components/week-view.tsx:33-36 | day `i` of the week falls on weekday `i`, and the current date is day `getDay()` of its week |
| WeekView.WeekHoldsDate | components/week-view.tsx:27-35 | the current date is in its own week |
| WeekView.WeekHours | components/week-view.tsx:42-49 | 24 rows with values 0..23 |
| WeekView.WeekHourLabels | components/week-view.tsx:42-49 | the labels are 12 AM, 01 AM … 11 AM, 12 PM, 01 PM … 11 PM, all different |
| WeekView.EventsForDayAndHour | components/week-view.tsx:51-58 | a slot holds exactly the events on that date whose start hour parses to the hour |
| WeekView.EventsForDayAndHourOrder | components/week-view.tsx:51-58 | in source order |
| WeekView.HourSlotsPartition | components/week-view.tsx:51-58 | every occurrence of an event that starts in hour `h` of the day is in slot `h` and in no other |
| WeekView.AddButtonTime | components/week-view.tsx:115 | the add button proposes `HH:00`, and an event created from it lands in that slot |
| DayView.DayHours | components/day-view.tsx:27-34 | 24 rows |
| DayView.DayHourRow | components/day-view.tsx:27-34 | row `i`'s value is `i` in two digits, its add button's time starts in hour `i`, and its label is the week view's |
| DayView.DayHourValuesDistinct | components/day-view.tsx:32 | the values `00`..`23` are all different |
| DayView.EventsForHour | components/day-view.tsx:40-51 | an hour's events are the day's events whose start hour is the hour |
| DayView.EventsForHourIsSlot | components/day-view.tsx:40-51 | filtering by day and then by hour is the week view's slot filter, in the same order |
| DayView.MinutesOf | components/day-view.tsx:62-65 | `h * 60 + m` when both pieces read as numbers, NaN otherwise |
| DayView.MinutesOfClock | components/day-view.tsx:62-65 | a two-digit `HH:MM` is `HH` hours and `MM` minutes |
| DayView.MinutesOfDigits | components/day-view.tsx:62-65 | any digits-colon-digits time is its hours and minutes |
| DayView.HeightOf | components/day-view.tsx:61-68 | `Math.max(duration, 30)`: never below 30, and the duration when that is at least 30; NaN stays NaN |
| DayView.Capped | components/day-view.tsx:135 | `Math.min(h, 120)`: at most 120 and at most `h`, and one of the two |
| DayView.BlockHeightRange | components/day-view.tsx:128-135 | every drawn height lies in 30..120, and is the computed height whenever that is at most 120 |
| DayView.HourBlocks | components/day-view.tsx:127-138 | one block per event of the hour |
| DayView.HourBlocksLayout | components/day-view.tsx:127-136 | blocks keep the events' order and are offset only by `index * 4` |
| DayView.GetStatusIcon | components/day-view.tsx:70-81 | Complete, In Progress and Overdue each have their own icon, and Not Started has none |
| TableView.NextSortToggles | components/table-view.tsx:24-31 | the clicked column becomes selected; the same column flips the direction, another sorts ascending, and two clicks restore the direction |
| TableView.TableState.constructor | components/table-view.tsx:20-22 | no search, ascending by date |
| TableView.TableState.HandleSort | components/table-view.tsx:24-31 | the new column and direction are the toggle's, and the search term is kept |
| TableView.SearchKeeps | components/table-view.tsx:77-87 | the kept rows are exactly the matching events, in list order |
| TableView.EmptySearchKeepsAll | components/table-view.tsx:77-87 | an empty search keeps every event |
| TableView.CompareMeaning | components/table-view.tsx:88-106 | the callback is negative exactly when `a` goes first, positive exactly when `b` does, zero exactly on equal keys, and antisymmetric |
| TableView.BeforeTransitive | components/table-view.tsx:103-104 | the comparator's order is transitive |
| TableView.InsertCount | components/table-view.tsx:88 | inserting a row adds exactly that row |
| TableView.InsertSorted | components/table-view.tsx:88 | inserting into sorted rows keeps them sorted |
| TableView.SortSorted | components/table-view.tsx:88-106 | the rows come out in the comparator's order, as a permutation of the input |
| TableView.RowsMeaning | components/table-view.tsx:77-106 | the table's rows are sorted, a permutation of the matching events, exactly the matching events, and never more than the events |
| TableView.AvatarsCount | components/table-view.tsx:239-255 | at most three avatars, which are the first attendees, and `+N` counts exactly the others |
| CalendarHeader.NavigateDate | components/calendar-header.tsx:47-57 | a fresh copy, moved in place by the view's step, holds the navigated date |
| CalendarHeader.NavigateDay | components/calendar-header.tsx:49-50 | the day view moves by exactly one day |
| CalendarHeader.NavigateWeek | components/calendar-header.tsx:53-54 | the week view moves by exactly seven days |
| CalendarHeader.NavigateWeekday | components/calendar-header.tsx:53-54 | a week step keeps the weekday |
| CalendarHeader.NavigateRoundTrip | components/calendar-header.tsx:49-55 | in the day and week views, next then prev (and prev then next) gives back the date |
| CalendarHeader.NavigateOtherViews | components/calendar-header.tsx:47-56 | the other views pass the date on unchanged |
| CalendarHeader.TargetMonth | components/calendar-header.tsx:52 | the month after or before, with the year rolling over |
| CalendarHeader.NavigateMonth | components/calendar-header.tsx:51-52 | the month view keeps the day when the target month has it, and otherwise spills by the surplus into the month after it |
| CalendarHeader.MonthRoundTripLosesDay | components/calendar-header.tsx:51-52 | from a day the next month lacks, next then prev lands on a different day |
| CalendarSidebar.ClickDateMeaning | components/calendar-sidebar.tsx:79-87 | clicking day `d` picks (mini year, mini month, `d`), and the day is marked exactly when that is the current date |
| CalendarSidebar.MiniCalendar | components/calendar-sidebar.tsx:67-96 | `firstDay` blanks, then days 1..daysInMonth, with no padding to 42 |
| CalendarSidebar.RenderMiniCalendar | components/calendar-sidebar.tsx:67-96 | the two loops produce exactly those cells |
| CalendarSidebar.TodayMarkedOnce | components/calendar-sidebar.tsx:79-82 | in the current date's month exactly the current day's cell is marked, and in other months none is |
| CalendarSidebar.NextMonthStart | components/calendar-sidebar.tsx:162 | the right chevron gives day 1 of the month after, with the year rolling over |
| CalendarSidebar.PrevMonthStart | components/calendar-sidebar.tsx:153 | the left chevron gives day 1 of the month before, with the year rolling over |
| CalendarSidebar.MiniMonthRoundTrip | components/calendar-sidebar.tsx:152-163 | forward then back, or back then forward, is the first of the starting month |
| CalendarSidebar.Toggle | components/calendar-sidebar.tsx:205-209 | the toggled calendar has the new flag |
| CalendarSidebar.ToggleOnlyThatKey | components/calendar-sidebar.tsx:205-209 | a toggle changes only that calendar's flag and adds no other key |
| CalendarSidebar.SidebarState.constructor | components/calendar-sidebar.tsx:41 | the mini calendar starts at the current date |
| CalendarSidebar.SidebarState.ShowPrevMonth | components/calendar-sidebar.tsx:152-154 | the mini calendar moves to the first of the month before |
| CalendarSidebar.SidebarState.ShowNextMonth | components/calendar-sidebar.tsx:161-163 | the mini calendar moves to the first of the month after |
| EventModal.FromEvent | components/event-modal.tsx:49-63 | an edited event's fields are copied, and a missing description, attendees, reminders, notes or files becomes empty |
| EventModal.NewFormTimes | components/event-modal.tsx:64-76 | a new form has the day's date string, the chosen time (or 09:00 without a non-empty one), and the end derived from it |
| EventModal.NewFormDefaults | components/event-modal.tsx:71-84 | every other member of a new form is as in the empty form |
| EventModal.EndTimeOneHourLater | components/event-modal.tsx:66-69 | start `HH:MM` ends at `HH+1`, padded, with the same minutes, and does not wrap at midnight |
| EventModal.EndTimeOfPieces | components/event-modal.tsx:67-69 | the end is the parsed hour plus one, padded, then the minutes piece |
| EventModal.CanSubmitMeaning | components/event-modal.tsx:90 | saving needs a non-blank title and a date, start and end time, and the empty form cannot be saved |
| EventModal.NewFormNeedsTitle | components/event-modal.tsx:64-92 | a new form is never saved as it opens |
| EventModal.CanAddAttendeeNeedsBackslash | components/event-modal.tsx:120-123 | with the pattern as written, only an address that holds a backslash can be added |
| EventModal.PageAddressRefused | components/event-modal.tsx:120-123 | no address the welcome form accepts can be added as an attendee |
| EventModal.IntendedGateAcceptsAddresses | components/event-modal.tsx:120-123 | with the intended pattern, a named attendee with an ordinary address can be added |
| EventModal.SizeUnitOf | components/event-modal.tsx:204-208 | bytes below 1024, KB below 1048576, and MB otherwise |
| EventModal.SizeUnitMonotone | components/event-modal.tsx:204-208 | a larger file never gets a smaller unit |
| EventModal.WithoutAttendeeKeeps | components/event-modal.tsx:134-139 | every attendee with the address goes, and the others stay as often as they were and in order |
| EventModal.WithoutReminderKeeps | components/event-modal.tsx:153-158 | every reminder with the id goes, and the others stay as often as they were and in order |
| EventModal.WithoutFileKeeps | components/event-modal.tsx:177-182 | every file with the id goes, and the others stay as often as they were and in order |
| EventModal.RemoveAddedAttendee | components/event-modal.tsx:122-139 | removing the address of an attendee just added, with no earlier one sharing it, undoes the add |
| EventModal.RemoveAddedReminder | components/event-modal.tsx:141-158 | removing a reminder just added under a fresh id undoes the add |
| EventModal.RemoveAddedFile | components/event-modal.tsx:160-182 | removing a file just added under a fresh id undoes the add |
| EventModal.EventModalState.constructor | components/event-modal.tsx:25-46 | the initial state is the reset state |
| EventModal.EventModalState.SyncForm | components/event-modal.tsx:48-86 | an edited event fills the form, otherwise a selected date starts a new form, otherwise nothing changes; the rest of the state stays |
| EventModal.EventModalState.HandleSubmit | components/event-modal.tsx:88-96 | a form that fails the gate is neither saved nor changed; one that passes is handed on and the modal is reset |
| EventModal.EventModalState.HandleClose | components/event-modal.tsx:98-118 | the form, the attendee and reminder inputs, the chosen file and the tab all go back to their initial values |
| EventModal.EventModalState.AddAttendee | components/event-modal.tsx:122-132 | an attendee that passes the test is appended, with no duplicate check, and the inputs clear; otherwise nothing changes |
| EventModal.EventModalState.RemoveAttendee | components/event-modal.tsx:134-139 | only the attendee list changes, and it loses the address |
| EventModal.EventModalState.AddReminder | components/event-modal.tsx:141-151 | the reminder being set up is appended under the id, and the picker goes back to 30 minutes by notification |
| EventModal.EventModalState.RemoveReminder | components/event-modal.tsx:153-158 | only the reminder list changes, and it loses the id |
| EventModal.EventModalState.HandleFileUpload | components/event-modal.tsx:160-175 | without a chosen file nothing happens; otherwise the file is appended with the id and URL, and the choice clears |
| EventModal.EventModalState.RemoveFile | components/event-modal.tsx:177-182 | only the file list changes, and it loses the id |
| HomePage.SubmitUserOrder | app/page.tsx:96-114 | blank name or email first, then the address pattern, and otherwise the untrimmed values are signed in; every refusal is an error toast |
| HomePage.HomeState.constructor | app/page.tsx:22-41 | no events, no modal, no selection, no unread notification, no toast, no user |
| HomePage.HomeState.HandleAddEvent | app/page.tsx:43-54 | the event is appended with the form data and the id, the modal and its selection, date and time clear, and one more notification is unread |
| HomePage.HomeState.HandleUpdateEvent | app/page.tsx:56-67 | nothing happens without a selected event; otherwise its entries are replaced under its id and the modal closes |
| HomePage.HomeState.HandleDeleteEvent | app/page.tsx:69-73 | every entry with the id goes and the modal closes |
| HomePage.HomeState.HandleEventClick | app/page.tsx:75-78 | the event is selected and the modal opens |
| HomePage.HomeState.HandleDateClick | app/page.tsx:80-83 | the date is kept and the modal opens (the handler is defined but passed to no component) |
| HomePage.HomeState.HandleTimeClick | app/page.tsx:85-88 | the time is kept and the modal opens (the handler is defined but passed to no component) |
| HomePage.HomeState.HandleCalendarAddEvent | app/page.tsx:194-198 | the inline `onAddEvent` the calendar views call: a date that is passed, and a time that is passed and not empty, replace the modal's, a missing one keeps the earlier value, and the modal opens; nothing else changes |
| HomePage.HomeState.HandleUpdateStatus | app/page.tsx:90-94 | only the events change, and only the status of the entries with the id |
| HomePage.HomeState.HandleUserSubmit | app/page.tsx:96-114 | a refusal sets the toast, an acceptance signs the user in, and nothing else changes |
| MonthPage.MarkedMessageNames | app/month/page.tsx:127 | "Event marked as" followed by the status text, different for each status |
| MonthPage.ModalTime | app/month/page.tsx:108 | `time \|\| null`: no time and the empty time both give none |
| MonthPage.MonthPageState.constructor | app/month/page.tsx:10-104 | the current date and the sample events, the modal closed, nothing selected, no toast |
| MonthPage.MonthPageState.HandleAddEvent | app/month/page.tsx:106-111 | the modal opens for a new event on the given date (or the current date) at the given non-empty time (or none) |
| MonthPage.MonthPageState.HandleEditEvent | app/month/page.tsx:113-118 | the modal opens on the event, its parsed date and its start time |
| MonthPage.MonthPageState.HandleDeleteEvent | app/month/page.tsx:120-123 | every entry with the id goes, and a success toast says so |
| MonthPage.MonthPageState.HandleUpdateStatus | app/month/page.tsx:125-128 | the entries with the id get the status, and the toast names it |
| MonthPage.MonthPageState.HandleSaveEvent | app/month/page.tsx:130-146 | while editing, the event's entries are replaced under its id; otherwise the data is appended under the new id; either way the modal closes with nothing being edited |
| MonthPage.MonthPageState.HandleCloseModal | app/month/page.tsx:148-153 | the modal closes and forgets its event, date and time |
| EventsApi.OrDefault | app/api/events/route.ts:63-70 | `value \|\| fallback`: the fallback exactly when the value is missing or empty |
| EventsApi.AttendeeRows | app/api/events/route.ts:71-76 | each attendee becomes its name and address, in order |
| EventsApi.ReminderRows | app/api/events/route.ts:77-82 | each reminder becomes its time and type, in order |
| EventsApi.FileRows | app/api/events/route.ts:83-90 | each file becomes its name, type, URL and size, in order |
| EventsApi.ToNewEvent | app/api/events/route.ts:60-91 | the required members are taken as sent, each falsy optional text gets its default, and each list is mapped, with a missing list empty |
| EventsApi.PostOutcomes | app/api/events/route.ts:44-100 | 400, with the four required names, exactly when the connection works and a required member is falsy; 201, with the body's title, date and times, exactly when nothing fails |
| EventsApi.PostErrorStatus | app/api/events/route.ts:101-128 | a POST error gives 503 exactly for P1001, 409 exactly for P2002, and 500 for any other |
| EventsApi.GetStatuses | app/api/events/route.ts:5-42 | GET answers 200 with the stored events exactly when nothing throws, and otherwise 503 or 500 only |
| EventsApi.Finally | app/api/events/route.ts:129-131 | the handler returns the computed response exactly when `$disconnect` succeeds, and throws the disconnect's own error exactly when it throws |
| EventsApi.DisconnectDecides | app/api/events/route.ts:5-132 | on every path of GET and POST, the early 400 included, a throwing `$disconnect` replaces the response with its error, and a succeeding one leaves `Get`'s or `Post`'s response as it was |
| EventsApi.ConflictOnlyOnPost | app/api/events/route.ts:19-118 | P2002 is 409 on POST and 500 on GET |
| EventsApi.StackOnlyInDevelopment | app/api/events/route.ts:120-127 | a 500 carries the error's message and code, and its stack exactly in development |
| EventsApi.ChildrenMapped | app/api/events/route.ts:71-90 | no child row is dropped or added, and each file row carries that file's data |
| EventsApi.DefaultsOnlyFillGaps | app/api/events/route.ts:62-70 | optional members that are given and non-empty are kept as sent |

## Left out

- Rendering is left out: JSX, class names, icons, hover behaviour, the mini calendar's
  month label, `toLocaleDateString`, and the table's `formatDate`.
- `toISOString()` shifts to UTC. The model's date string is the local civil date written
  `YYYY-MM-DD`, so the day can differ from the one the code gets in time zones east of UTC.
- The four date-string filters (month, week and day views) compare with that civil date
  string, for the same reason.
- `Date.now()` ids, "today" (`new Date()`), `new Date(event.date)` and
  `URL.createObjectURL` are nondeterministic or foreign, so they are method parameters.
- JsDates.JsDate.Make: takes the year literally. `new Date(y, m, d)` adds 1900 to a year
  from 0 to 99, while `setDate` and `setMonth` do not. So for a date in years 0 to 99 the
  model and JavaScript part ways: the sidebar's left chevron on 1 December 99 gives
  1 November 1999 in JavaScript and 1 November 99 in the model.
- MonthView.GetDaysInMonth: takes the year literally, as `JsDates.JsDate.Make` does. For
  years 0 to 99 JavaScript uses 1900 to 1999's month lengths.
- MonthView.GetFirstDayOfMonth: takes the year literally, as `JsDates.JsDate.Make` does.
  For years 0 to 99 JavaScript uses 1900 to 1999's weekdays.
- MonthView.PrevMonthAnchor: takes the year literally, as `JsDates.JsDate.Make` does.
- CalendarSidebar.ClickDate: takes the year literally, as `JsDates.JsDate.Make` does.
- CalendarSidebar.NextMonthStart: takes the year literally, as `JsDates.JsDate.Make` does.
- CalendarSidebar.PrevMonthStart: takes the year literally, as `JsDates.JsDate.Make` does.
- Dates are unbounded. A `Date` holds at most 8.64e15 ms either side of 1970, about
  275 760 years. Beyond that it is an Invalid Date, and that is not modelled.
- Only the calendar day of a `Date` is modelled. Its time of day and its milliseconds play
  no part in the logic modelled here.
- WeekView.GetWeekDays: returns the dates' values, not seven distinct `Date` objects. The
  objects' identity is not used by the view.
- The database (`$connect`, `findMany`, `create`, `$disconnect`), `request.json()` and
  `NextResponse` are I/O. Each awaited call is a parameter saying which error it throws, if
  any. `$disconnect` runs in `finally`, so its error replaces the computed response
  (`EventsApi.PostHandler`, `EventsApi.GetHandler`). What Next.js answers for a handler
  that throws is framework behaviour and is not modelled. A failing `request.json()` and
  the ids and timestamps the database assigns are not modelled.
- Console logging is left out, including the modal's `console.warn` and `console.log`.
- Text.NumberOf: only integer forms are read: an optional sign with decimal digits, or an
  unsigned `0x`, `0o` or `0b` literal. A decimal point, an exponent and `Infinity` are
  `None` in the model, although JavaScript reads them as numbers. No time in the components
  has one.
- Text.ParseInt: results are unbounded integers in the model. JavaScript gives a double,
  which is exact only up to 2^53.
- DayView.HeightOf: NaN is `None`, and no floating-point arithmetic is modelled.
- EventModal.SizeUnitOf: only the unit and the text below 1024 bytes are modelled. The
  `toFixed(1)` of a float division is floating point.
- TableView.Key: the date column compares `date + "T" + startTime` as text. That stands for
  the instant `new Date(...).getTime()` parses it to, which is the same order for
  well-formed `YYYY-MM-DD` and `HH:MM`.
- Strings compare by character in that model. JavaScript compares UTF-16 code units, which
  differ only outside the Basic Multilingual Plane.
- Email.ModalEmailTest: the pattern's `.` matches one character in the model. Without the
  `u` flag JavaScript's `.` matches one UTF-16 code unit, so a character outside the Basic
  Multilingual Plane after the backslash passes in the model and fails in JavaScript.
- The list-valued members of an event (attendees, reminders, files) are not sort columns.
- TableView.SortSorted: the sort is proved ordered and a permutation. JavaScript's
  `Array.prototype.sort` is stable, and the model's insertion sort is too, but that
  stability is not stated.
- Text.ToLower: lower-cases ASCII letters only. JavaScript's `toLowerCase` also maps other
  Unicode letters.
- Event.calendarId: `types/event.ts` declares it required. The modal's form and the month
  page's sample events leave it out, so the model makes it optional.
- ReminderType: `types/event.ts` allows only `"notification"`. The modal and the sample
  events also use `"email"`, so the model has both.
- The modal's colour and reminder-time option lists, its tab switching and its file input
  only feed the form, so only their values are modelled.
- The month page's sample events are the constructor's `initial` parameter.
- Toasts' five-second timer is left out, along with the settings view, the calendar view's
  dispatch, the table page's fixtures, authentication, the calendars API and the
  `[id]` event routes.

## Findings

| source | as written | input that shows it | evidently intended | confidence | as-written member | corrected member |
|---|---|---|---|---|---|---|
| components/month-view.tsx:39 | `prevMonth` is `new Date(y, m - 1, 0)`, the last day of the month two before, so the leading cells count back from it | March 2024: the cell before 1 March shows 31 January where 29 February belongs | `new Date(y, m, 0)`, the last day of the month before, so the 42 cells are consecutive days | not executed | MonthView.GridLeadingAsWritten, MonthView.March2024AsWritten | MonthView.IntendedGridConsecutive, MonthView.March2024Intended |
| components/event-modal.tsx:120 | the pattern has `\\.`, which in a regular-expression literal matches a backslash and then any character | `jane@example.com` is refused, so no ordinary attendee can be added | `\.`, a literal dot, as in app/page.tsx:107 | not executed | Email.ModalEmailTest, Email.OrdinaryAddress, Email.PageAcceptedModalRefused | EventModal.CanAddAttendeeIntended, EventModal.IntendedGateAcceptsAddresses |
