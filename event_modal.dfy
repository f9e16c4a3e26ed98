/**
 * The event modal: the form it edits, how the form is filled when the modal opens, the
 * submit gate, the reset on close, and the attendee, reminder and file lists it edits.
 */
module EventModal {
  import opened Wrappers
  import opened Text
  import opened Lists
  import opened CivilDate
  import opened EventTypes
  import opened Email
  import opened TimeFormat

  const DefaultColor: string := "bg-blue-100 border-blue-400"
  const DefaultStart: string := "09:00"
  const DetailsTab: string := "details"
  const DefaultReminderTime: int := 30

  /** The empty form: blank texts, empty lists, a blue meeting that has not started. */
  function DefaultForm(): EventData {
    EventData("", Some(""), "", "", "", DefaultColor, Meeting, Some([]), Some([]), Some(""), Some([]), NotStarted, None)
  }

  /** The form filled from the event being edited; a missing optional member becomes empty. */
  function FromEvent(e: Event): (r: EventData)
    ensures r.title == e.data.title && r.date == e.data.date
    ensures r.startTime == e.data.startTime && r.endTime == e.data.endTime
    ensures r.color == e.data.color && r.kind == e.data.kind && r.status == e.data.status
    ensures r.description == Some(e.data.description.GetOr(""))
    ensures r.attendees == Some(e.data.attendees.GetOr([])) && r.reminders == Some(e.data.reminders.GetOr([]))
    ensures r.notes == Some(e.data.notes.GetOr("")) && r.files == Some(e.data.files.GetOr([]))
    ensures r.calendarId == None
  {
    EventData(e.data.title, Some(e.data.description.GetOr("")), e.data.date, e.data.startTime,
              e.data.endTime, e.data.color, e.data.kind, Some(e.data.attendees.GetOr([])),
              Some(e.data.reminders.GetOr([])), Some(e.data.notes.GetOr("")),
              Some(e.data.files.GetOr([])), e.data.status, None)
  }

  /** `selectedTime || "09:00"`. */
  function StartTimeFor(selectedTime: Option<string>): string {
    if selectedTime.None? || selectedTime.value == "" then DefaultStart else selectedTime.value
  }

  /**
   * The default end time: the start's hour plus one, padded to two digits, then the start's
   * minutes text. An hour that does not parse gives `NaN`, and missing minutes `undefined`.
   */
  function EndTimeFor(startTime: string): string {
    var pieces := Split(startTime, ':');
    EndTimeText(ParseInt(pieces[0]), if |pieces| > 1 then pieces[1] else "undefined")
  }

  /** The end time from the parsed start hour and the start's minutes text. */
  function EndTimeText(hour: Option<int>, minutes: string): string {
    EndHour(hour) + ":" + minutes
  }

  /** `(parseInt(hours) + 1).toString().padStart(2, "0")`, from the parsed hour. */
  function EndHour(hour: Option<int>): string {
    match hour
    case None => "NaN"
    case Some(h) => Pad2(h + 1)
  }

  /** The form for a new event on `date`. */
  function NewForm(date: Date, selectedTime: Option<string>): EventData
    requires date.Valid()
  {
    var startTime := StartTimeFor(selectedTime);
    DefaultForm().(date := DateString(date), startTime := startTime, endTime := EndTimeFor(startTime))
  }

  /**
   * A new form holds the day's date, the chosen time if there is a non-empty one and 09:00
   * otherwise, and the end derived from that start.
   */
  lemma NewFormTimes(date: Date, selectedTime: Option<string>)
    requires date.Valid()
    ensures NewForm(date, selectedTime).date == DateString(date)
    ensures NewForm(date, selectedTime).startTime
            == if selectedTime.Some? && selectedTime.value != "" then selectedTime.value else DefaultStart
    ensures NewForm(date, selectedTime).endTime == EndTimeFor(NewForm(date, selectedTime).startTime)
  {
  }

  /** Every other member of a new form is as in the empty form. */
  lemma NewFormDefaults(date: Date, selectedTime: Option<string>)
    requires date.Valid()
    ensures NewForm(date, selectedTime).(date := "", startTime := "", endTime := "") == DefaultForm()
  {
  }

  /**
   * For a start `HH:MM` the end is an hour later with the same minutes (the default 09:00
   * ends at 10:00), and it does not wrap at midnight: hour 23 ends at hour 24.
   */
  lemma EndTimeOneHourLater(h: nat, mm: string)
    requires h < 99 && ':' !in mm
    ensures EndTimeFor(Pad2(h) + ":" + mm) == Pad2(h + 1) + ":" + mm
  {
    var p := Pad2(h);
    Pad2Exact(h);
    HourNoColon(p);
    SplitHourMinutes(p, mm);
    HourValue(p, h);
    EndTimeOfPieces(p + ":" + mm, p, mm, h);
  }

  lemma EndTimeOfPieces(start: string, p: string, mm: string, h: int)
    requires Split(start, ':') == [p, mm] && ParseInt(p) == Some(h)
    ensures EndTimeFor(start) == Pad2(h + 1) + ":" + mm
  {
    assert EndTimeFor(start) == EndTimeText(Some(h), mm);
  }

  lemma HourValue(p: string, h: int)
    requires p != [] && AllDigits(p) && DigitsValue(p) == h
    ensures ParseInt(p) == Some(h)
  {
    ParseIntDigits(p);
  }

  lemma HourNoColon(p: string)
    requires AllDigits(p)
    ensures ':' !in p
  {
    assert forall k :: 0 <= k < |p| ==> IsDigit(p[k]);
  }

  /** `handleSubmit`'s gate: a title that is not blank, and a date, start and end time. */
  predicate CanSubmit(form: EventData) {
    Trim(form.title) != [] && form.date != "" && form.startTime != "" && form.endTime != ""
  }

  /** A whitespace-only title, or any missing date or time, blocks the save. */
  lemma CanSubmitMeaning(form: EventData)
    ensures CanSubmit(form) <==> !Blank(form.title) && form.date != "" && form.startTime != "" && form.endTime != ""
    ensures !CanSubmit(DefaultForm())
  {
    TrimEmpty(form.title);
    TrimEmpty("");
  }

  /** A new form is never saved as it opens: it has no title yet. */
  lemma NewFormNeedsTitle(date: Date, selectedTime: Option<string>)
    requires date.Valid()
    ensures !CanSubmit(NewForm(date, selectedTime))
  {
    TrimEmpty("");
  }

  /** `addAttendee`'s test (and the add button's enabled state): a name, an address, and the modal's pattern. */
  predicate CanAddAttendee(a: Attendee) {
    Trim(a.name) != [] && Trim(a.email) != [] && ModalEmailTest(a.email)
  }

  /** With the pattern as written, only an address holding a backslash can be added. */
  lemma CanAddAttendeeNeedsBackslash(a: Attendee)
    requires CanAddAttendee(a)
    ensures '\\' in a.email && !Blank(a.name)
  {
    ModalEmailNeedsBackslash(a.email);
    TrimEmpty(a.name);
  }

  /** An address the welcome form accepts can never be added as an attendee. */
  lemma PageAddressRefused(a: Attendee)
    requires PageEmailTest(a.email)
    ensures !CanAddAttendee(a)
  {
    PageAcceptedModalRefused(a.email);
  }

  /** The gate with the pattern the modal evidently means: the welcome form's, with `\.` for the dot. */
  predicate CanAddAttendeeIntended(a: Attendee) {
    Trim(a.name) != [] && Trim(a.email) != [] && PageEmailTest(a.email)
  }

  /** With the intended pattern, any named attendee with an ordinary address can be added. */
  lemma IntendedGateAcceptsAddresses(name: string, l: string, d: string, t: string)
    requires !Blank(name) && LocalPart(l) && DomainPart(d) && TopLevel(t)
    ensures CanAddAttendeeIntended(Attendee(name, l + "@" + d + "." + t))
  {
    var e := l + "@" + d + "." + t;
    PageEmailTestAccepts(l, d, t);
    TrimEmpty(name);
    TrimEmpty(e);
    assert e[0] == l[0] && LocalChar(l[0]);
  }

  /** The units `formatFileSize` chooses between. */
  datatype SizeUnit = Bytes | Kilobytes | Megabytes

  function SizeUnitOf(bytes: int): (u: SizeUnit)
    ensures u == Bytes <==> bytes < 1024
    ensures u == Kilobytes <==> 1024 <= bytes < 1048576
    ensures u == Megabytes <==> 1048576 <= bytes
  {
    if bytes < 1024 then Bytes else if bytes < 1048576 then Kilobytes else Megabytes
  }

  /** The text `formatFileSize` writes below 1024: the number itself, then ` bytes`. */
  function BytesText(bytes: int): string {
    IntToString(bytes) + " bytes"
  }

  /** The unit grows with the size: a larger file never gets a smaller unit. */
  lemma SizeUnitMonotone(a: int, b: int)
    requires a <= b
    ensures SizeUnitOf(a) == Megabytes ==> SizeUnitOf(b) == Megabytes
    ensures SizeUnitOf(b) == Bytes ==> SizeUnitOf(a) == Bytes
  {
  }

  /** The attendee, reminder and file lists with an entry removed by key. */
  function WithoutAttendee(s: seq<Attendee>, email: string): seq<Attendee> {
    Filter(s, (a: Attendee) => a.email != email)
  }

  function WithoutReminder(s: seq<EventReminder>, id: string): seq<EventReminder> {
    Filter(s, (r: EventReminder) => r.id != id)
  }

  function WithoutFile(s: seq<EventFile>, id: string): seq<EventFile> {
    Filter(s, (f: EventFile) => f.id != id)
  }

  /** Removing an attendee drops every entry with the address, keeps the others as often as they were and in order. */
  lemma WithoutAttendeeKeeps(s: seq<Attendee>, email: string, a: Attendee)
    ensures multiset(WithoutAttendee(s, email))[a] == if a.email == email then 0 else multiset(s)[a]
    ensures IsSubsequence(WithoutAttendee(s, email), s)
  {
    FilterCount(s, (a: Attendee) => a.email != email, a);
    FilterIsSubsequence(s, (a: Attendee) => a.email != email);
  }

  lemma WithoutReminderKeeps(s: seq<EventReminder>, id: string, r: EventReminder)
    ensures multiset(WithoutReminder(s, id))[r] == if r.id == id then 0 else multiset(s)[r]
    ensures IsSubsequence(WithoutReminder(s, id), s)
  {
    FilterCount(s, (r: EventReminder) => r.id != id, r);
    FilterIsSubsequence(s, (r: EventReminder) => r.id != id);
  }

  lemma WithoutFileKeeps(s: seq<EventFile>, id: string, f: EventFile)
    ensures multiset(WithoutFile(s, id))[f] == if f.id == id then 0 else multiset(s)[f]
    ensures IsSubsequence(WithoutFile(s, id), s)
  {
    FilterCount(s, (f: EventFile) => f.id != id, f);
    FilterIsSubsequence(s, (f: EventFile) => f.id != id);
  }

  /** Removing the address of an attendee just added, when no earlier attendee had it, undoes the add. */
  lemma RemoveAddedAttendee(s: seq<Attendee>, a: Attendee)
    requires forall x :: x in s ==> x.email != a.email
    ensures WithoutAttendee(s + [a], a.email) == s
  {
    FilterAppend(s, a, (x: Attendee) => x.email != a.email);
    FilterAll(s, (x: Attendee) => x.email != a.email);
  }

  /** Removing a reminder just added under a fresh id undoes the add. */
  lemma RemoveAddedReminder(s: seq<EventReminder>, r: EventReminder)
    requires forall x :: x in s ==> x.id != r.id
    ensures WithoutReminder(s + [r], r.id) == s
  {
    FilterAppend(s, r, (x: EventReminder) => x.id != r.id);
    FilterAll(s, (x: EventReminder) => x.id != r.id);
  }

  /** Removing a file just added under a fresh id undoes the add. */
  lemma RemoveAddedFile(s: seq<EventFile>, f: EventFile)
    requires forall x :: x in s ==> x.id != f.id
    ensures WithoutFile(s + [f], f.id) == s
  {
    FilterAppend(s, f, (x: EventFile) => x.id != f.id);
    FilterAll(s, (x: EventFile) => x.id != f.id);
  }

  /** The reminder being set up: minutes before, and how it is sent. */
  datatype ReminderDraft = ReminderDraft(time: int, kind: ReminderType)

  /** The file chosen in the file input. */
  datatype FileChoice = FileChoice(name: string, mime: string, size: int)

  /** The modal's state. */
  class EventModalState {
    var formData: EventData
    var activeTab: string
    var newAttendee: Attendee
    var newReminder: ReminderDraft
    var fileUpload: Option<FileChoice>

    /** The state a closed modal is left in. */
    predicate IsReset()
      reads this
    {
      formData == DefaultForm() && newAttendee == Attendee("", "")
      && newReminder == ReminderDraft(DefaultReminderTime, Notification)
      && fileUpload == None && activeTab == DetailsTab
    }

    /** The initial `useState` values, which are the reset state. */
    constructor ()
      ensures IsReset()
    {
      formData := DefaultForm();
      activeTab := DetailsTab;
      newAttendee := Attendee("", "");
      newReminder := ReminderDraft(DefaultReminderTime, Notification);
      fileUpload := None;
    }

    /**
     * The effect run when the modal's inputs change: an edited event fills the form,
     * otherwise a selected date starts a new one, otherwise the form stays as it is.
     */
    method SyncForm(editingEvent: Option<Event>, selectedDate: Option<Date>, selectedTime: Option<string>)
      requires selectedDate.Some? ==> selectedDate.value.Valid()
      modifies this
      ensures editingEvent.Some? ==> formData == FromEvent(editingEvent.value)
      ensures editingEvent.None? && selectedDate.Some? ==> formData == NewForm(selectedDate.value, selectedTime)
      ensures editingEvent.None? && selectedDate.None? ==> formData == old(formData)
      ensures activeTab == old(activeTab) && newAttendee == old(newAttendee)
      ensures newReminder == old(newReminder) && fileUpload == old(fileUpload)
    {
      if editingEvent.Some? {
        formData := FromEvent(editingEvent.value);
      } else if selectedDate.Some? {
        formData := NewForm(selectedDate.value, selectedTime);
      }
    }

    /** `handleClose`: every part of the modal goes back to its initial value. */
    method HandleClose()
      modifies this
      ensures IsReset()
    {
      formData := DefaultForm();
      newAttendee := Attendee("", "");
      newReminder := ReminderDraft(DefaultReminderTime, Notification);
      fileUpload := None;
      activeTab := DetailsTab;
    }

    /**
     * `handleSubmit`: a form that fails the gate is neither saved nor changed; one that
     * passes is handed to `onSave` (the result) and the modal is reset.
     */
    method HandleSubmit() returns (saved: Option<EventData>)
      modifies this
      ensures !CanSubmit(old(formData)) ==> saved == None && unchanged(this)
      ensures CanSubmit(old(formData)) ==> saved == Some(old(formData)) && IsReset()
    {
      if !CanSubmit(formData) {
        return None;
      }
      saved := Some(formData);
      HandleClose();
    }

    /**
     * `addAttendee`: an attendee that passes the test is appended (a copy, with no check for
     * a repeated address) and the inputs clear; otherwise nothing changes.
     */
    method AddAttendee()
      modifies this
      ensures CanAddAttendee(old(newAttendee)) ==>
                formData == old(formData).(attendees := Some(old(formData).attendees.GetOr([]) + [old(newAttendee)]))
                && newAttendee == Attendee("", "")
      ensures !CanAddAttendee(old(newAttendee)) ==> formData == old(formData) && newAttendee == old(newAttendee)
      ensures activeTab == old(activeTab) && newReminder == old(newReminder) && fileUpload == old(fileUpload)
    {
      ApplyAddAttendee(CanAddAttendee(newAttendee));
    }

    method ApplyAddAttendee(accepted: bool)
      modifies this
      ensures accepted ==>
                formData == old(formData).(attendees := Some(old(formData).attendees.GetOr([]) + [old(newAttendee)]))
                && newAttendee == Attendee("", "")
      ensures !accepted ==> formData == old(formData) && newAttendee == old(newAttendee)
      ensures activeTab == old(activeTab) && newReminder == old(newReminder) && fileUpload == old(fileUpload)
    {
      if accepted {
        formData := formData.(attendees := Some(formData.attendees.GetOr([]) + [newAttendee]));
        newAttendee := Attendee("", "");
      }
    }

    /** `removeAttendee`: the attendees with the address go; no other part of the form changes. */
    method RemoveAttendee(email: string)
      modifies this
      ensures formData == old(formData).(attendees := Some(WithoutAttendee(old(formData).attendees.GetOr([]), email)))
      ensures activeTab == old(activeTab) && newAttendee == old(newAttendee)
      ensures newReminder == old(newReminder) && fileUpload == old(fileUpload)
    {
      formData := formData.(attendees := Some(WithoutAttendee(formData.attendees.GetOr([]), email)));
    }

    /** `addReminder`: the reminder being set up is appended under `id` (`Date.now()` as text) and the picker resets. */
    method AddReminder(id: string)
      modifies this
      ensures formData == old(formData).(reminders := Some(old(formData).reminders.GetOr([])
                                                            + [EventReminder(id, old(newReminder).time, old(newReminder).kind)]))
      ensures newReminder == ReminderDraft(DefaultReminderTime, Notification)
      ensures activeTab == old(activeTab) && newAttendee == old(newAttendee) && fileUpload == old(fileUpload)
    {
      var reminder := EventReminder(id, newReminder.time, newReminder.kind);
      formData := formData.(reminders := Some(formData.reminders.GetOr([]) + [reminder]));
      newReminder := ReminderDraft(DefaultReminderTime, Notification);
    }

    /** `removeReminder`: the reminders with the id go; no other part of the form changes. */
    method RemoveReminder(id: string)
      modifies this
      ensures formData == old(formData).(reminders := Some(WithoutReminder(old(formData).reminders.GetOr([]), id)))
      ensures activeTab == old(activeTab) && newAttendee == old(newAttendee)
      ensures newReminder == old(newReminder) && fileUpload == old(fileUpload)
    {
      formData := formData.(reminders := Some(WithoutReminder(formData.reminders.GetOr([]), id)));
    }

    /**
     * `handleFileUpload`: without a chosen file nothing happens; otherwise the file is
     * appended under `id` (`Date.now()` as text) with `url` (its object URL) and the choice
     * clears.
     */
    method HandleFileUpload(id: string, url: string)
      modifies this
      ensures old(fileUpload).None? ==> unchanged(this)
      ensures old(fileUpload).Some? ==>
                var f := old(fileUpload).value;
                formData == old(formData).(files := Some(old(formData).files.GetOr([])
                                                          + [EventFile(id, f.name, f.mime, url, f.size)]))
                && fileUpload == None
      ensures activeTab == old(activeTab) && newAttendee == old(newAttendee) && newReminder == old(newReminder)
    {
      if fileUpload.Some? {
        var f := fileUpload.value;
        formData := formData.(files := Some(formData.files.GetOr([]) + [EventFile(id, f.name, f.mime, url, f.size)]));
        fileUpload := None;
      }
    }

    /** `removeFile`: the files with the id go; no other part of the form changes. */
    method RemoveFile(id: string)
      modifies this
      ensures formData == old(formData).(files := Some(WithoutFile(old(formData).files.GetOr([]), id)))
      ensures activeTab == old(activeTab) && newAttendee == old(newAttendee)
      ensures newReminder == old(newReminder) && fileUpload == old(fileUpload)
    {
      formData := formData.(files := Some(WithoutFile(formData.files.GetOr([]), id)));
    }
  }
}
