/**
 * The table view: the sort state and its toggle, the case-insensitive search filter, the
 * comparator on the chosen column, the sorted rows, and the attendee avatars with their
 * `+N` counter.
 */
module TableView {
  import opened Wrappers
  import opened Text
  import opened Lists
  import opened EventTypes
  import opened DisplayCap

  // ---------------------------------------------------------------- sort state

  /** The scalar members of an event a column can sort on (`keyof Event`). */
  datatype SortField = IdField | TitleField | DescriptionField | DateField | StartTimeField
                     | EndTimeField | ColorField | KindField | NotesField | StatusField | CalendarIdField

  datatype Direction = Asc | Desc

  /** `handleSort(field)`: the same column flips the direction, another column sorts ascending on it. */
  function NextSort(current: SortField, dir: Direction, field: SortField): (SortField, Direction) {
    if current == field then (current, if dir == Asc then Desc else Asc)
    else (field, Asc)
  }

  /**
   * A click always leaves the clicked column selected; on the selected column it flips the
   * direction, and two clicks on one column give back the direction it had.
   */
  lemma NextSortToggles(current: SortField, dir: Direction, field: SortField)
    ensures NextSort(current, dir, field).0 == field
    ensures current == field ==> NextSort(current, dir, field).1 != dir
    ensures current != field ==> NextSort(current, dir, field).1 == Asc
    ensures var (f, d) := NextSort(current, dir, field);
            current == field ==> NextSort(f, d, field) == (current, dir)
  {
  }

  // ---------------------------------------------------------------- search

  /** `s.toLowerCase().includes(term.toLowerCase())`. */
  predicate MatchesText(s: string, term: string) {
    Contains(ToLower(s), ToLower(term))
  }

  /** The search test: the title, the description, or an attendee's name or address contains the term. */
  predicate Matches(e: Event, term: string) {
    MatchesText(e.data.title, term)
    || (e.data.description.Some? && MatchesText(e.data.description.value, term))
    || (e.data.attendees.Some? &&
        exists a | a in e.data.attendees.value :: MatchesText(a.name, term) || MatchesText(a.email, term))
  }

  /** The `filter` step. */
  function Search(events: seq<Event>, term: string): seq<Event> {
    Filter(events, (e: Event) => Matches(e, term))
  }

  /** The rows kept are exactly the events that match, in their order in the list. */
  lemma SearchKeeps(events: seq<Event>, term: string)
    ensures forall e :: e in Search(events, term) <==> e in events && Matches(e, term)
    ensures IsSubsequence(Search(events, term), events)
    ensures |Search(events, term)| <= |events|
  {
    FilterIsSubsequence(events, (e: Event) => Matches(e, term));
  }

  /** Every string contains the empty one, so an empty search keeps every event. */
  lemma EmptySearchKeepsAll(events: seq<Event>)
    ensures Search(events, "") == events
  {
    forall e | e in events
      ensures Matches(e, "")
    {
      ContainsEmpty(ToLower(e.data.title));
    }
    FilterAll(events, (e: Event) => Matches(e, ""));
  }

  // ---------------------------------------------------------------- comparator

  /**
   * The value compared for a column: the date column compares `date + "T" + startTime`
   * (standing for the instant it parses to), a text member compares lower-cased, and an
   * absent optional member compares as the empty string (`String(v || "")`).
   */
  function Key(e: Event, f: SortField): string {
    match f
    case DateField => e.data.date + "T" + e.data.startTime
    case IdField => ToLower(e.id)
    case TitleField => ToLower(e.data.title)
    case DescriptionField => ToLower(e.data.description.GetOr(""))
    case StartTimeField => ToLower(e.data.startTime)
    case EndTimeField => ToLower(e.data.endTime)
    case ColorField => ToLower(e.data.color)
    case KindField => ToLower(KindText(e.data.kind))
    case NotesField => ToLower(e.data.notes.GetOr(""))
    case StatusField => ToLower(StatusText(e.data.status))
    case CalendarIdField => ToLower(e.data.calendarId.GetOr(""))
  }

  /** The `sort` callback: -1, 1 or 0. */
  function Compare(a: Event, b: Event, f: SortField, dir: Direction): (c: int) {
    if LexLess(Key(a, f), Key(b, f)) then (if dir == Asc then -1 else 1)
    else if LexLess(Key(b, f), Key(a, f)) then (if dir == Asc then 1 else -1)
    else 0
  }

  /** The column's key as a function of the row. */
  function KeyOf(f: SortField): Event -> string {
    (e: Event) => Key(e, f)
  }

  /** `a` goes strictly before `b`: its key is smaller ascending, larger descending. */
  predicate Before(a: Event, b: Event, key: Event -> string, dir: Direction) {
    if dir == Asc then LexLess(key(a), key(b)) else LexLess(key(b), key(a))
  }

  /**
   * The callback puts `a` first exactly when it goes before, `b` first exactly when it goes
   * before, and ties only equal keys; swapping the arguments negates it.
   */
  lemma CompareMeaning(a: Event, b: Event, f: SortField, dir: Direction)
    ensures Compare(a, b, f, dir) < 0 <==> Before(a, b, KeyOf(f), dir)
    ensures Compare(a, b, f, dir) > 0 <==> Before(b, a, KeyOf(f), dir)
    ensures Compare(a, b, f, dir) == 0 <==> Key(a, f) == Key(b, f)
    ensures Compare(b, a, f, dir) == -Compare(a, b, f, dir)
  {
    var x, y := Key(a, f), Key(b, f);
    if LexLess(x, y) && LexLess(y, x) {
      LexLessTransitive(x, y, x);
      LexLessIrreflexive(x);
    }
    if x == y {
      LexLessIrreflexive(x);
    } else {
      LexLessTotal(x, y);
    }
  }

  lemma BeforeTransitive(a: Event, b: Event, c: Event, key: Event -> string, dir: Direction)
    requires Before(a, b, key, dir) && Before(b, c, key, dir)
    ensures Before(a, c, key, dir)
  {
    if dir == Asc {
      LexLessTransitive(key(a), key(b), key(c));
    } else {
      LexLessTransitive(key(c), key(b), key(a));
    }
  }

  lemma BeforeIrreflexive(a: Event, key: Event -> string, dir: Direction)
    ensures !Before(a, a, key, dir)
  {
    LexLessIrreflexive(key(a));
  }

  // ---------------------------------------------------------------- sorting

  /** No row is followed by one that goes strictly before it. */
  predicate Sorted(s: seq<Event>, key: Event -> string, dir: Direction) {
    forall i, j :: 0 <= i < j < |s| ==> !Before(s[j], s[i], key, dir)
  }

  /** `x` placed after every row it does not go before. */
  function Insert(s: seq<Event>, x: Event, key: Event -> string, dir: Direction): seq<Event> {
    if s == [] then [x]
    else if Before(x, s[0], key, dir) then [x] + s
    else [s[0]] + Insert(s[1..], x, key, dir)
  }

  /** The rows in the comparator's order; rows that tie keep their order (a stable sort). */
  function Sort(s: seq<Event>, key: Event -> string, dir: Direction): seq<Event> {
    if s == [] then []
    else Insert(Sort(s[..|s| - 1], key, dir), s[|s| - 1], key, dir)
  }

  lemma {:induction false} InsertCount(s: seq<Event>, x: Event, key: Event -> string, dir: Direction)
    ensures multiset(Insert(s, x, key, dir)) == multiset(s) + multiset{x}
    decreases s
  {
    if s != [] && !Before(x, s[0], key, dir) {
      InsertCount(s[1..], x, key, dir);
      assert s == [s[0]] + s[1..];
    }
  }

  /** What an insertion holds is the inserted row or a row it was given. */
  lemma InsertMember(s: seq<Event>, x: Event, key: Event -> string, dir: Direction, y: Event)
    requires y in Insert(s, x, key, dir)
    ensures y == x || y in s
  {
    InsertCount(s, x, key, dir);
    assert y in multiset(Insert(s, x, key, dir));
  }

  lemma {:induction false} InsertSorted(s: seq<Event>, x: Event, key: Event -> string, dir: Direction)
    requires Sorted(s, key, dir)
    ensures Sorted(Insert(s, x, key, dir), key, dir)
    decreases s
  {
    if s == [] {
    } else if Before(x, s[0], key, dir) {
      var r := [x] + s;
      forall i, j | 0 <= i < j < |r|
        ensures !Before(r[j], r[i], key, dir)
      {
        if i == 0 {
          assert r[j] == s[j - 1];
          if Before(r[j], x, key, dir) {
            BeforeTransitive(r[j], x, s[0], key, dir);
            BeforeIrreflexive(s[0], key, dir);
          }
        } else {
          assert r[i] == s[i - 1] && r[j] == s[j - 1];
        }
      }
    } else {
      var t := Insert(s[1..], x, key, dir);
      InsertSorted(s[1..], x, key, dir);
      var r := [s[0]] + t;
      forall i, j | 0 <= i < j < |r|
        ensures !Before(r[j], r[i], key, dir)
      {
        if i == 0 {
          FirstNotAfter(s, x, key, dir, r[j]);
        } else {
          assert r[i] == t[i - 1] && r[j] == t[j - 1];
        }
      }
    }
  }

  /** Nothing inserted behind the head of a sorted list goes before that head. */
  lemma FirstNotAfter(s: seq<Event>, x: Event, key: Event -> string, dir: Direction, y: Event)
    requires Sorted(s, key, dir) && s != [] && !Before(x, s[0], key, dir)
    requires y in Insert(s[1..], x, key, dir)
    ensures !Before(y, s[0], key, dir)
  {
    InsertMember(s[1..], x, key, dir, y);
    if y != x {
      var k :| 0 <= k < |s[1..]| && s[1..][k] == y;
      assert s[k + 1] == y;
    }
  }

  /** The sort puts the rows in the comparator's order and keeps every row as often as it occurs. */
  lemma {:induction false} SortSorted(s: seq<Event>, key: Event -> string, dir: Direction)
    ensures Sorted(Sort(s, key, dir), key, dir)
    ensures multiset(Sort(s, key, dir)) == multiset(s)
    decreases |s|
  {
    if s != [] {
      var init := s[..|s| - 1];
      SortSorted(init, key, dir);
      InsertSorted(Sort(init, key, dir), s[|s| - 1], key, dir);
      InsertCount(Sort(init, key, dir), s[|s| - 1], key, dir);
      assert s == init + [s[|s| - 1]];
    }
  }

  /** `filteredAndSortedEvents`. */
  function Rows(events: seq<Event>, term: string, f: SortField, dir: Direction): seq<Event> {
    Sort(Search(events, term), KeyOf(f), dir)
  }

  /**
   * The rows are the matching events, each as often as it occurs in the list, in the
   * comparator's order; the heading's count is never more than the number of events.
   */
  lemma RowsMeaning(events: seq<Event>, term: string, f: SortField, dir: Direction)
    ensures Sorted(Rows(events, term, f, dir), KeyOf(f), dir)
    ensures multiset(Rows(events, term, f, dir)) == multiset(Search(events, term))
    ensures forall e :: e in Rows(events, term, f, dir) <==> e in events && Matches(e, term)
    ensures |Rows(events, term, f, dir)| <= |events|
  {
    SortSorted(Search(events, term), KeyOf(f), dir);
    SearchKeeps(events, term);
    var r := Rows(events, term, f, dir);
    assert forall e :: e in r <==> e in multiset(r);
    assert forall e :: e in Search(events, term) <==> e in multiset(Search(events, term));
  }

  // ---------------------------------------------------------------- attendees

  /** The avatars shown for a row and the `+N` counter, with nothing at all without attendees. */
  function Avatars(e: Event): (seq<Attendee>, Option<nat>) {
    match e.data.attendees
    case None => ([], None)
    case Some(a) => (Shown(a, Cap), Overflow(a, Cap))
  }

  /** At most three avatars, the first three attendees, and the counter counts exactly the others. */
  lemma AvatarsCount(e: Event)
    requires e.data.attendees.Some?
    ensures var (shown, more) := Avatars(e);
            var a := e.data.attendees.value;
            |shown| <= 3 && shown == a[..|shown|]
            && (more.Some? <==> |a| > 3)
            && |shown| + more.GetOr(0) == |a|
  {
    ShownAndHidden(e.data.attendees.value, Cap);
  }

  // ---------------------------------------------------------------- state

  /** The table's state: the search term and the sort column and direction. */
  class TableState {
    var searchTerm: string
    var sortField: SortField
    var sortDirection: Direction

    /** The initial state: no search, ascending by date. */
    constructor ()
      ensures searchTerm == "" && sortField == DateField && sortDirection == Asc
    {
      searchTerm := "";
      sortField := DateField;
      sortDirection := Asc;
    }

    /** `handleSort(field)`. */
    method HandleSort(field: SortField)
      modifies this
      ensures (sortField, sortDirection) == NextSort(old(sortField), old(sortDirection), field)
      ensures searchTerm == old(searchTerm)
    {
      if sortField == field {
        sortDirection := if sortDirection == Asc then Desc else Asc;
      } else {
        sortField := field;
        sortDirection := Asc;
      }
    }

    /** The rows the table shows for `events` in the current state. */
    function VisibleRows(events: seq<Event>): seq<Event>
      reads this
    {
      Rows(events, searchTerm, sortField, sortDirection)
    }
  }
}
