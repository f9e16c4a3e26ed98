/**
 * The home page's state and handlers: the event list, the event modal's fields, the unread
 * notification count, the toast and the signed-in user.
 */
module HomePage {
  import opened Wrappers
  import opened Text
  import opened CivilDate
  import opened EventTypes
  import opened EventLists
  import opened Email
  import opened Toasts

  datatype UserInfo = UserInfo(name: string, email: string)

  /** What the welcome form's submit decides: an error toast, or the user to sign in. */
  datatype SubmitOutcome = Rejected(toast: Toast) | Accepted(info: UserInfo)

  const BothRequired: string := "Please enter both name and email"
  const InvalidEmail: string := "Please enter a valid email address"

  /** `handleUserSubmit`'s checks, in their order: both fields present, then the address pattern. */
  function SubmitUser(name: string, email: string): SubmitOutcome {
    if Trim(name) == [] || Trim(email) == [] then Rejected(Toast(BothRequired, Error))
    else if !PageEmailTest(email) then Rejected(Toast(InvalidEmail, Error))
    else Accepted(UserInfo(name, email))
  }

  /**
   * A name or address of whitespace only is refused first; otherwise an address outside the
   * form's pattern is refused with the other message; otherwise the user is the values as
   * typed, untrimmed. Every refusal is an error toast.
   */
  lemma SubmitUserOrder(name: string, email: string)
    ensures SubmitUser(name, email) == Rejected(Toast(BothRequired, Error)) <==> Blank(name) || Blank(email)
    ensures SubmitUser(name, email) == Rejected(Toast(InvalidEmail, Error))
            <==> !Blank(name) && !Blank(email) && !PageLanguage(email)
    ensures SubmitUser(name, email) == Accepted(UserInfo(name, email))
            <==> !Blank(name) && !Blank(email) && PageLanguage(email)
    ensures SubmitUser(name, email).Rejected? ==> SubmitUser(name, email).toast.kind == Error
  {
    TrimEmpty(name);
    TrimEmpty(email);
    PageEmailTestIsPattern(email);
  }

  /** The toast and the user after a submit with outcome `o`: the one the outcome names is set, the other kept. */
  function Outcome(o: SubmitOutcome, toast: Option<Toast>, user: Option<UserInfo>): (r: (Option<Toast>, Option<UserInfo>))
    ensures o.Rejected? ==> r == (Some(o.toast), user)
    ensures o.Accepted? ==> r == (toast, Some(o.info))
  {
    match o
    case Rejected(t) => (Some(t), user)
    case Accepted(info) => (toast, Some(info))
  }

  /** The home page's state. */
  class HomeState {
    var events: seq<Event>
    var showEventModal: bool
    var selectedEvent: Option<Event>
    var eventModalDate: Option<Date>
    var eventModalTime: Option<string>
    var unreadNotifications: int
    var toast: Option<Toast>
    var userInfo: Option<UserInfo>

    /** The initial `useState` values. */
    constructor ()
      ensures events == [] && !showEventModal && selectedEvent == None
      ensures eventModalDate == None && eventModalTime == None
      ensures unreadNotifications == 0 && toast == None && userInfo == None
    {
      events := [];
      showEventModal := false;
      selectedEvent := None;
      eventModalDate := None;
      eventModalTime := None;
      unreadNotifications := 0;
      toast := None;
      userInfo := None;
    }

    /**
     * `handleAddEvent`: the form data with the id `newId` (`Date.now()` as text) goes at the
     * end; the modal closes with its selection, date and time cleared, and one more
     * notification is unread.
     */
    method HandleAddEvent(data: EventData, newId: string)
      modifies this
      ensures events == Append(old(events), data, newId)
      ensures !showEventModal && selectedEvent == None && eventModalDate == None && eventModalTime == None
      ensures unreadNotifications == old(unreadNotifications) + 1
      ensures toast == old(toast) && userInfo == old(userInfo)
    {
      events := Append(events, data, newId);
      showEventModal := false;
      selectedEvent := None;
      eventModalDate := None;
      eventModalTime := None;
      unreadNotifications := unreadNotifications + 1;
    }

    /**
     * `handleUpdateEvent`: nothing happens without a selected event; otherwise every entry
     * with its id becomes the form data under that id, and the modal closes. The modal's
     * date and time are left as they were.
     */
    method HandleUpdateEvent(data: EventData)
      modifies this
      ensures old(selectedEvent).None? ==> unchanged(this)
      ensures old(selectedEvent).Some? ==>
                events == ReplaceById(old(events), old(selectedEvent).value.id, data)
                && !showEventModal && selectedEvent == None
                && eventModalDate == old(eventModalDate) && eventModalTime == old(eventModalTime)
                && unreadNotifications == old(unreadNotifications)
                && toast == old(toast) && userInfo == old(userInfo)
    {
      if selectedEvent.None? {
        return;
      }
      events := ReplaceById(events, selectedEvent.value.id, data);
      showEventModal := false;
      selectedEvent := None;
    }

    /** `handleDeleteEvent`: every entry with the id goes, and the modal closes. */
    method HandleDeleteEvent(eventId: string)
      modifies this
      ensures events == RemoveById(old(events), eventId)
      ensures !showEventModal && selectedEvent == None
      ensures eventModalDate == old(eventModalDate) && eventModalTime == old(eventModalTime)
      ensures unreadNotifications == old(unreadNotifications)
      ensures toast == old(toast) && userInfo == old(userInfo)
    {
      events := RemoveById(events, eventId);
      showEventModal := false;
      selectedEvent := None;
    }

    /** `handleEventClick`: select the event and open the modal. */
    method HandleEventClick(event: Event)
      modifies this
      ensures selectedEvent == Some(event) && showEventModal
      ensures events == old(events) && eventModalDate == old(eventModalDate)
      ensures eventModalTime == old(eventModalTime) && unreadNotifications == old(unreadNotifications)
      ensures toast == old(toast) && userInfo == old(userInfo)
    {
      selectedEvent := Some(event);
      showEventModal := true;
    }

    /** `handleDateClick`: remember the date and open the modal. */
    method HandleDateClick(date: Date)
      modifies this
      ensures eventModalDate == Some(date) && showEventModal
      ensures events == old(events) && selectedEvent == old(selectedEvent)
      ensures eventModalTime == old(eventModalTime) && unreadNotifications == old(unreadNotifications)
      ensures toast == old(toast) && userInfo == old(userInfo)
    {
      eventModalDate := Some(date);
      showEventModal := true;
    }

    /** `handleTimeClick`: remember the time and open the modal. */
    method HandleTimeClick(time: string)
      modifies this
      ensures eventModalTime == Some(time) && showEventModal
      ensures events == old(events) && selectedEvent == old(selectedEvent)
      ensures eventModalDate == old(eventModalDate) && unreadNotifications == old(unreadNotifications)
      ensures toast == old(toast) && userInfo == old(userInfo)
    {
      eventModalTime := Some(time);
      showEventModal := true;
    }

    /**
     * The `onAddEvent` handed to the calendar views: a date, when one is passed, and a time,
     * when one is passed and is not empty, replace the modal's; then the modal opens. A
     * missing or empty argument leaves the earlier value in place.
     */
    method HandleCalendarAddEvent(date: Option<Date>, time: Option<string>)
      modifies this
      ensures eventModalDate == (if date.Some? then date else old(eventModalDate))
      ensures eventModalTime == (if time.Some? && time.value != "" then time else old(eventModalTime))
      ensures showEventModal
      ensures events == old(events) && selectedEvent == old(selectedEvent)
      ensures unreadNotifications == old(unreadNotifications)
      ensures toast == old(toast) && userInfo == old(userInfo)
    {
      if date.Some? {
        eventModalDate := date;
      }
      if time.Some? && time.value != "" {
        eventModalTime := time;
      }
      showEventModal := true;
    }

    /** `handleUpdateStatus`: only the events change, and in them only the status of the entries with the id. */
    method HandleUpdateStatus(eventId: string, status: EventStatus)
      modifies this
      ensures events == SetStatusById(old(events), eventId, status)
      ensures showEventModal == old(showEventModal) && selectedEvent == old(selectedEvent)
      ensures eventModalDate == old(eventModalDate) && eventModalTime == old(eventModalTime)
      ensures unreadNotifications == old(unreadNotifications)
      ensures toast == old(toast) && userInfo == old(userInfo)
    {
      events := SetStatusById(events, eventId, status);
    }

    /** `handleUserSubmit`: a refusal sets the toast, an acceptance signs the user in; nothing else changes. */
    method HandleUserSubmit(name: string, email: string)
      modifies this
      ensures (toast, userInfo) == Outcome(SubmitUser(name, email), old(toast), old(userInfo))
      ensures events == old(events) && showEventModal == old(showEventModal)
      ensures selectedEvent == old(selectedEvent) && eventModalDate == old(eventModalDate)
      ensures eventModalTime == old(eventModalTime) && unreadNotifications == old(unreadNotifications)
    {
      ApplyOutcome(SubmitUser(name, email));
    }

    method ApplyOutcome(outcome: SubmitOutcome)
      modifies this
      ensures (toast, userInfo) == Outcome(outcome, old(toast), old(userInfo))
      ensures events == old(events) && showEventModal == old(showEventModal)
      ensures selectedEvent == old(selectedEvent) && eventModalDate == old(eventModalDate)
      ensures eventModalTime == old(eventModalTime) && unreadNotifications == old(unreadNotifications)
    {
      match outcome
      case Rejected(t) => toast := Some(t);
      case Accepted(info) => userInfo := Some(info);
    }
  }
}
