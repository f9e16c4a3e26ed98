/**
 * The month page's state and handlers: the event list, the modal's date, time and event
 * being edited, and the toast that reports each change.
 */
module MonthPage {
  import opened Wrappers
  import opened CivilDate
  import opened EventTypes
  import opened EventLists
  import opened Toasts

  const Deleted: string := "Event deleted successfully!"
  const Updated: string := "Event updated successfully!"
  const Created: string := "Event created successfully!"

  /** `` `Event marked as ${status}` ``. */
  function MarkedMessage(status: EventStatus): string {
    "Event marked as " + StatusText(status)
  }

  /** Each status gets its own message, which ends with the status's text. */
  lemma MarkedMessageNames(s: EventStatus, t: EventStatus)
    ensures |MarkedMessage(s)| > 16 && MarkedMessage(s)[16..] == StatusText(s)
    ensures MarkedMessage(s) == MarkedMessage(t) ==> s == t
  {
    assert MarkedMessage(s)[16..] == StatusText(s);
    assert MarkedMessage(t)[16..] == StatusText(t);
    if s != t {
      StatusTextDistinct(s, t);
    }
  }

  lemma StatusTextDistinct(s: EventStatus, t: EventStatus)
    requires s != t
    ensures StatusText(s) != StatusText(t)
  {
  }

  /** `time || null`: no time, and the empty time, both leave the modal without a time. */
  function ModalTime(time: Option<string>): (r: Option<string>)
    ensures r.None? <==> time.None? || time.value == ""
    ensures r.Some? ==> r == time
  {
    if time.None? || time.value == "" then None else time
  }

  /** The month page's state. `currentDate` is the page's `new Date()`, given from outside. */
  class MonthPageState {
    var currentDate: Date
    var events: seq<Event>
    var showEventModal: bool
    var selectedDate: Option<Date>
    var selectedTime: Option<string>
    var editingEvent: Option<Event>
    var toast: Option<Toast>

    /** The initial `useState` values; the page's built-in sample events are `initial`. */
    constructor (today: Date, initial: seq<Event>)
      ensures currentDate == today && events == initial
      ensures !showEventModal && selectedDate == None && selectedTime == None
      ensures editingEvent == None && toast == None
    {
      currentDate := today;
      events := initial;
      showEventModal := false;
      selectedDate := None;
      selectedTime := None;
      editingEvent := None;
      toast := None;
    }

    /**
     * `handleAddEvent(date?, time?)`: the modal opens for a new event on the given date, or
     * on the current date without one, at the given time if there is a non-empty one.
     */
    method HandleAddEvent(date: Option<Date>, time: Option<string>)
      modifies this
      ensures selectedDate == Some(date.GetOr(old(currentDate)))
      ensures selectedTime == ModalTime(time)
      ensures editingEvent == None && showEventModal
      ensures currentDate == old(currentDate) && events == old(events) && toast == old(toast)
    {
      selectedDate := Some(date.GetOr(currentDate));
      selectedTime := ModalTime(time);
      editingEvent := None;
      showEventModal := true;
    }

    /**
     * `handleEditEvent`: the modal opens on the event, at its start time. `parsed` is
     * `new Date(event.date)`, which is given from outside.
     */
    method HandleEditEvent(event: Event, parsed: Date)
      modifies this
      ensures editingEvent == Some(event) && selectedDate == Some(parsed)
      ensures selectedTime == Some(event.data.startTime) && showEventModal
      ensures currentDate == old(currentDate) && events == old(events) && toast == old(toast)
    {
      editingEvent := Some(event);
      selectedDate := Some(parsed);
      selectedTime := Some(event.data.startTime);
      showEventModal := true;
    }

    /** `handleDeleteEvent`: every entry with the id goes and a success toast says so; the modal is left alone. */
    method HandleDeleteEvent(eventId: string)
      modifies this
      ensures events == RemoveById(old(events), eventId)
      ensures toast == Some(Toast(Deleted, Success))
      ensures showEventModal == old(showEventModal) && editingEvent == old(editingEvent)
      ensures selectedDate == old(selectedDate) && selectedTime == old(selectedTime)
      ensures currentDate == old(currentDate)
    {
      events := RemoveById(events, eventId);
      toast := Some(Toast(Deleted, Success));
    }

    /** `handleUpdateStatus`: the status of the entries with the id changes, and the toast names it. */
    method HandleUpdateStatus(eventId: string, status: EventStatus)
      modifies this
      ensures events == SetStatusById(old(events), eventId, status)
      ensures toast == Some(Toast(MarkedMessage(status), Success))
      ensures showEventModal == old(showEventModal) && editingEvent == old(editingEvent)
      ensures selectedDate == old(selectedDate) && selectedTime == old(selectedTime)
      ensures currentDate == old(currentDate)
    {
      events := SetStatusById(events, eventId, status);
      toast := Some(Toast(MarkedMessage(status), Success));
    }

    /**
     * `handleSaveEvent`: while editing, the entries with the edited event's id become the
     * form data under that id; otherwise the data goes at the end under `newId`
     * (`Date.now()` as text). Either way the modal closes and nothing is being edited.
     */
    method HandleSaveEvent(data: EventData, newId: string)
      modifies this
      ensures old(editingEvent).Some? ==>
                events == ReplaceById(old(events), old(editingEvent).value.id, data)
                && toast == Some(Toast(Updated, Success))
      ensures old(editingEvent).None? ==>
                events == Append(old(events), data, newId) && toast == Some(Toast(Created, Success))
      ensures !showEventModal && editingEvent == None
      ensures selectedDate == old(selectedDate) && selectedTime == old(selectedTime)
      ensures currentDate == old(currentDate)
    {
      if editingEvent.Some? {
        events := ReplaceById(events, editingEvent.value.id, data);
        toast := Some(Toast(Updated, Success));
      } else {
        events := Append(events, data, newId);
        toast := Some(Toast(Created, Success));
      }
      showEventModal := false;
      editingEvent := None;
    }

    /** `handleCloseModal`: the modal closes and forgets its event, date and time. */
    method HandleCloseModal()
      modifies this
      ensures !showEventModal && editingEvent == None && selectedDate == None && selectedTime == None
      ensures currentDate == old(currentDate) && events == old(events) && toast == old(toast)
    {
      showEventModal := false;
      editingEvent := None;
      selectedDate := None;
      selectedTime := None;
    }
  }
}
