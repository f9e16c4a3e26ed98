/** The event record of the calendar, with its attendees, reminders and attached files. */
module EventTypes {
  import opened Wrappers

  /** The four statuses of an event. */
  datatype EventStatus = NotStarted | InProgress | Complete | Overdue

  /** The text the status is written as. */
  function StatusText(s: EventStatus): string {
    match s
    case NotStarted => "Not Started"
    case InProgress => "In Progress"
    case Complete => "Complete"
    case Overdue => "Overdue"
  }

  /** The nine category tags of an event. */
  datatype EventType = Meeting | Task | Reminder | Lunch | Standup | Design | Prototype | Reunion | Breakfast

  /** The tag the category is written as. */
  function KindText(k: EventType): string {
    match k
    case Meeting => "meeting"
    case Task => "task"
    case Reminder => "reminder"
    case Lunch => "lunch"
    case Standup => "standup"
    case Design => "design"
    case Prototype => "prototype"
    case Reunion => "reunion"
    case Breakfast => "breakfast"
  }

  /** How a reminder is delivered. */
  datatype ReminderType = Notification | Email

  datatype Attendee = Attendee(name: string, email: string)

  /** A reminder `time` minutes before the event. */
  datatype EventReminder = EventReminder(id: string, time: int, kind: ReminderType)

  datatype EventFile = EventFile(id: string, name: string, mime: string, url: string, size: int)

  /**
   * An event without its id (`Omit<Event, "id">`): what the modal edits and hands to its
   * `onSave`. `date` is `YYYY-MM-DD`, `startTime` and `endTime` are `HH:MM`; the optional
   * members are `None` when absent.
   */
  datatype EventData = EventData(
    title: string,
    description: Option<string>,
    date: string,
    startTime: string,
    endTime: string,
    color: string,
    kind: EventType,
    attendees: Option<seq<Attendee>>,
    reminders: Option<seq<EventReminder>>,
    notes: Option<string>,
    files: Option<seq<EventFile>>,
    status: EventStatus,
    calendarId: Option<string>)

  /** An event: `{ ...data, id }`. */
  datatype Event = Event(id: string, data: EventData)
}
