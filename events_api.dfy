/**
 * The `/api/events` route: how a POST body is checked and turned into the record to create,
 * and how the route's outcomes (including a failing database) map to HTTP statuses. The
 * database is not modelled: each awaited call is given as the error it throws, if any.
 */
module EventsApi {
  import opened Wrappers
  import opened EventTypes

  /** A reminder as the JSON body carries it: `type` is whatever text the client sent. */
  datatype BodyReminder = BodyReminder(id: string, time: int, kind: string)

  /**
   * The parsed JSON body of a POST. Every scalar member may be missing (`None`); the lists
   * may be missing too.
   */
  datatype Body = Body(
    title: Option<string>,
    description: Option<string>,
    date: Option<string>,
    startTime: Option<string>,
    endTime: Option<string>,
    color: Option<string>,
    kind: Option<string>,
    status: Option<string>,
    notes: Option<string>,
    attendees: Option<seq<Attendee>>,
    reminders: Option<seq<BodyReminder>>,
    files: Option<seq<EventFile>>)

  /** The child rows the route asks the database to create: the client's ids are not among them. */
  datatype AttendeeRow = AttendeeRow(name: string, email: string)
  datatype ReminderRow = ReminderRow(time: int, kind: string)
  datatype FileRow = FileRow(name: string, kind: string, url: string, size: int)

  /** The `data` handed to `prisma.event.create`. */
  datatype NewEvent = NewEvent(
    title: string, description: string, date: string, startTime: string, endTime: string,
    color: string, kind: string, status: string, notes: string,
    attendees: seq<AttendeeRow>, reminders: seq<ReminderRow>, files: seq<FileRow>)

  /** A thrown error: its Prisma `code` if it has one, its message and its stack. */
  datatype DbError = DbError(code: Option<string>, message: string, stack: string)

  datatype ResponseBody =
    | MissingFields(message: string, required: seq<string>)
    | CreatedEvent(event: NewEvent)
    | EventList(events: seq<NewEvent>)
    | Message(message: string)
    | Failed(message: string, error: string, code: Option<string>, stack: Option<string>)

  datatype Response = Response(status: int, body: ResponseBody)

  /** How a handler settles: with the response it returns, or by throwing an error. */
  datatype Outcome = Returned(response: Response) | Threw(error: DbError)

  const ConnectionFailed: string := "Database connection failed. Please check your database configuration."
  const AlreadyExists: string := "A record with this data already exists."
  const FetchFailed: string := "Failed to fetch events"
  const CreateFailed: string := "Failed to create event"
  const RequiredNames: seq<string> := ["title", "date", "startTime", "endTime"]

  /** A JSON member that JavaScript treats as false: missing, or the empty string. */
  predicate Falsy(o: Option<string>) {
    o.None? || o.value == ""
  }

  /** `value || fallback` for a text member. */
  function OrDefault(o: Option<string>, fallback: string): (r: string)
    ensures Falsy(o) ==> r == fallback
    ensures !Falsy(o) ==> r == o.value
  {
    if Falsy(o) then fallback else o.value
  }

  /** The POST's required-field check. */
  predicate HasRequired(b: Body) {
    !Falsy(b.title) && !Falsy(b.date) && !Falsy(b.startTime) && !Falsy(b.endTime)
  }

  function AttendeeRows(s: seq<Attendee>): (r: seq<AttendeeRow>)
    ensures |r| == |s|
    ensures forall k :: 0 <= k < |s| ==> r[k] == AttendeeRow(s[k].name, s[k].email)
  {
    seq(|s|, k requires 0 <= k < |s| => AttendeeRow(s[k].name, s[k].email))
  }

  function ReminderRows(s: seq<BodyReminder>): (r: seq<ReminderRow>)
    ensures |r| == |s|
    ensures forall k :: 0 <= k < |s| ==> r[k] == ReminderRow(s[k].time, s[k].kind)
  {
    seq(|s|, k requires 0 <= k < |s| => ReminderRow(s[k].time, s[k].kind))
  }

  function FileRows(s: seq<EventFile>): (r: seq<FileRow>)
    ensures |r| == |s|
    ensures forall k :: 0 <= k < |s| ==> r[k] == FileRow(s[k].name, s[k].mime, s[k].url, s[k].size)
  {
    seq(|s|, k requires 0 <= k < |s| => FileRow(s[k].name, s[k].mime, s[k].url, s[k].size))
  }

  /**
   * The record to create from a body that passed the check: the four required members as
   * sent, each optional text replaced by its default when falsy, and each list mapped in
   * order (a missing list is empty).
   */
  function ToNewEvent(b: Body): (r: NewEvent)
    requires HasRequired(b)
    ensures r.title == b.title.value && r.date == b.date.value
    ensures r.startTime == b.startTime.value && r.endTime == b.endTime.value
    ensures r.description == OrDefault(b.description, "") && r.notes == OrDefault(b.notes, "")
    ensures r.color == OrDefault(b.color, "#3788d8")
    ensures r.kind == OrDefault(b.kind, "default") && r.status == OrDefault(b.status, "pending")
    ensures r.attendees == AttendeeRows(b.attendees.GetOr([]))
    ensures r.reminders == ReminderRows(b.reminders.GetOr([]))
    ensures r.files == FileRows(b.files.GetOr([]))
  {
    NewEvent(b.title.value, OrDefault(b.description, ""), b.date.value, b.startTime.value,
             b.endTime.value, OrDefault(b.color, "#3788d8"), OrDefault(b.kind, "default"),
             OrDefault(b.status, "pending"), OrDefault(b.notes, ""),
             AttendeeRows(b.attendees.GetOr([])), ReminderRows(b.reminders.GetOr([])),
             FileRows(b.files.GetOr([])))
  }

  /** The catch block: a dropped connection, then (for POST only) a unique-key clash, then anything else. */
  function ErrorResponse(e: DbError, failure: string, conflicts: bool, development: bool): Response {
    if e.code == Some("P1001") then Response(503, Message(ConnectionFailed))
    else if conflicts && e.code == Some("P2002") then Response(409, Message(AlreadyExists))
    else Response(500, Failed(failure, e.message, e.code, if development then Some(e.stack) else None))
  }

  /**
   * `POST`: the connection is tried first, then the body is checked, then the record is
   * created. `connectError` and `createError` are what `$connect` and `create` throw.
   */
  function Post(b: Body, connectError: Option<DbError>, createError: Option<DbError>, development: bool): Response {
    if connectError.Some? then ErrorResponse(connectError.value, CreateFailed, true, development)
    else if !HasRequired(b) then Response(400, MissingFields("Missing required fields", RequiredNames))
    else if createError.Some? then ErrorResponse(createError.value, CreateFailed, true, development)
    else Response(201, CreatedEvent(ToNewEvent(b)))
  }

  /** `GET`: the stored events (given as `stored`) unless `$connect` or `findMany` throws. */
  function Get(stored: seq<NewEvent>, connectError: Option<DbError>, findError: Option<DbError>, development: bool): Response {
    if connectError.Some? then ErrorResponse(connectError.value, FetchFailed, false, development)
    else if findError.Some? then ErrorResponse(findError.value, FetchFailed, false, development)
    else Response(200, EventList(stored))
  }

  /**
   * The `finally` block: `$disconnect` is awaited after the try or catch block has computed
   * its response, and when it throws, its error replaces that response.
   */
  function Finally(r: Response, disconnectError: Option<DbError>): (o: Outcome)
    ensures disconnectError.None? <==> o == Returned(r)
    ensures disconnectError.Some? ==> o == Threw(disconnectError.value)
    ensures o.Threw? ==> disconnectError == Some(o.error)
  {
    if disconnectError.Some? then Threw(disconnectError.value) else Returned(r)
  }

  /** The whole `POST` handler: the response `Post` computes, then the disconnect. */
  function PostHandler(b: Body, connectError: Option<DbError>, createError: Option<DbError>,
                       disconnectError: Option<DbError>, development: bool): Outcome {
    Finally(Post(b, connectError, createError, development), disconnectError)
  }

  /** The whole `GET` handler: the response `Get` computes, then the disconnect. */
  function GetHandler(stored: seq<NewEvent>, connectError: Option<DbError>, findError: Option<DbError>,
                      disconnectError: Option<DbError>, development: bool): Outcome {
    Finally(Get(stored, connectError, findError, development), disconnectError)
  }

  /**
   * Both handlers disconnect on every path, the early 400 and the error responses included:
   * a disconnect that throws makes the handler throw that error whatever the body and the
   * other calls did, and one that succeeds leaves the computed response as it was.
   */
  lemma DisconnectDecides(b: Body, stored: seq<NewEvent>, connectError: Option<DbError>, callError: Option<DbError>,
                          disconnectError: Option<DbError>, development: bool)
    ensures disconnectError.Some? ==>
              PostHandler(b, connectError, callError, disconnectError, development) == Threw(disconnectError.value)
              && GetHandler(stored, connectError, callError, disconnectError, development) == Threw(disconnectError.value)
    ensures disconnectError.None? ==>
              PostHandler(b, connectError, callError, disconnectError, development) == Returned(Post(b, connectError, callError, development))
              && GetHandler(stored, connectError, callError, disconnectError, development) == Returned(Get(stored, connectError, callError, development))
    ensures PostHandler(b, connectError, callError, disconnectError, development).Returned?
            <==> GetHandler(stored, connectError, callError, disconnectError, development).Returned?
  {
  }

  /** The thrown error that decides a POST's response, if one does. */
  function PostError(b: Body, connectError: Option<DbError>, createError: Option<DbError>): Option<DbError> {
    if connectError.Some? then connectError else if HasRequired(b) then createError else None
  }

  /**
   * A POST answers 400 exactly when the connection works and a required member is falsy,
   * and 201 exactly when the body passes and nothing throws; the 400 lists the four
   * required names, and a created event has the body's title, date and times.
   */
  lemma PostOutcomes(b: Body, connectError: Option<DbError>, createError: Option<DbError>, development: bool)
    ensures var r := Post(b, connectError, createError, development);
            (r.status == 400 <==> connectError.None? && (Falsy(b.title) || Falsy(b.date) || Falsy(b.startTime) || Falsy(b.endTime)))
            && (r.status == 201 <==> connectError.None? && HasRequired(b) && createError.None?)
            && (r.status == 400 ==> r.body.MissingFields? && r.body.required == RequiredNames)
            && (r.status == 201 ==> r.body.CreatedEvent? && r.body.event.title == b.title.value
                                    && r.body.event.date == b.date.value
                                    && r.body.event.startTime == b.startTime.value
                                    && r.body.event.endTime == b.endTime.value)
  {
  }

  /** Every POST error status comes from the error's code: P1001 is 503, P2002 is 409, any other is 500. */
  lemma PostErrorStatus(b: Body, connectError: Option<DbError>, createError: Option<DbError>, development: bool)
    requires PostError(b, connectError, createError).Some?
    ensures var e := PostError(b, connectError, createError).value;
            var r := Post(b, connectError, createError, development);
            (r.status == 503 <==> e.code == Some("P1001"))
            && (r.status == 409 <==> e.code == Some("P2002"))
            && (r.status == 500 <==> e.code != Some("P1001") && e.code != Some("P2002"))
  {
  }

  /** GET has no 409: the clash code that gives 409 on POST gives 500 on GET; its statuses are 200, 503 and 500 only. */
  lemma GetStatuses(stored: seq<NewEvent>, connectError: Option<DbError>, findError: Option<DbError>, development: bool)
    ensures var r := Get(stored, connectError, findError, development);
            r.status in {200, 500, 503}
            && (r.status == 200 <==> connectError.None? && findError.None?)
            && (r.status == 200 ==> r.body == EventList(stored))
  {
  }

  lemma ConflictOnlyOnPost(e: DbError, development: bool)
    requires e.code == Some("P2002")
    ensures ErrorResponse(e, CreateFailed, true, development).status == 409
    ensures ErrorResponse(e, FetchFailed, false, development).status == 500
  {
  }

  /** A 500 response carries the error's stack exactly in development. */
  lemma StackOnlyInDevelopment(e: DbError, failure: string, conflicts: bool, development: bool)
    ensures var r := ErrorResponse(e, failure, conflicts, development);
            r.status == 500 ==> r.body.Failed? && (r.body.stack.Some? <==> development)
                                && r.body.code == e.code && r.body.error == e.message
  {
  }

  /** A stored event's children keep their order and their data, the client ids aside; none is dropped or added. */
  lemma ChildrenMapped(b: Body, k: int)
    requires HasRequired(b)
    ensures |ToNewEvent(b).attendees| == |b.attendees.GetOr([])|
    ensures |ToNewEvent(b).reminders| == |b.reminders.GetOr([])|
    ensures |ToNewEvent(b).files| == |b.files.GetOr([])|
    ensures b.attendees.None? ==> ToNewEvent(b).attendees == []
    ensures 0 <= k < |b.files.GetOr([])| ==>
              var f := b.files.value[k];
              ToNewEvent(b).files[k] == FileRow(f.name, f.mime, f.url, f.size)
  {
  }

  /** A body whose optional members are all given, non-empty, keeps them as sent: the defaults only fill gaps. */
  lemma DefaultsOnlyFillGaps(b: Body)
    requires HasRequired(b)
    requires !Falsy(b.description) && !Falsy(b.color) && !Falsy(b.kind) && !Falsy(b.status) && !Falsy(b.notes)
    ensures var r := ToNewEvent(b);
            r.description == b.description.value && r.color == b.color.value && r.kind == b.kind.value
            && r.status == b.status.value && r.notes == b.notes.value
  {
  }
}
