/**
 * The list transforms the pages apply to their `events` state: append a new event, replace
 * the entries with an id by the form data, filter an id out, and set the status of the
 * entries with an id. Each is a pure spread, `map` or `filter` in the pages.
 */
module EventLists {
  import opened Lists
  import opened EventTypes

  /** The ids of the events, in list order. */
  function Ids(events: seq<Event>): (r: seq<string>)
    ensures |r| == |events|
    ensures forall k :: 0 <= k < |events| ==> r[k] == events[k].id
  {
    seq(|events|, k requires 0 <= k < |events| => events[k].id)
  }

  /** `[...events, { ...data, id }]`. */
  function Append(events: seq<Event>, data: EventData, id: string): (r: seq<Event>)
    ensures |r| == |events| + 1 && r[..|events|] == events
    ensures r[|events|] == Event(id, data)
  {
    events + [Event(id, data)]
  }

  /** `events.map(e => e.id === id ? { ...data, id } : e)`. */
  function ReplaceById(events: seq<Event>, id: string, data: EventData): (r: seq<Event>)
    ensures |r| == |events|
    ensures forall k :: 0 <= k < |events| && events[k].id == id ==> r[k] == Event(id, data)
    ensures forall k :: 0 <= k < |events| && events[k].id != id ==> r[k] == events[k]
  {
    seq(|events|, k requires 0 <= k < |events| => if events[k].id == id then Event(id, data) else events[k])
  }

  /** `events.filter(e => e.id !== id)`. */
  function RemoveById(events: seq<Event>, id: string): (r: seq<Event>)
    ensures forall k :: 0 <= k < |r| ==> r[k].id != id && r[k] in events
    ensures forall e :: e in events && e.id != id ==> e in r
  {
    Filter(events, (e: Event) => e.id != id)
  }

  /** `events.map(e => e.id === id ? { ...e, status } : e)`. */
  function SetStatusById(events: seq<Event>, id: string, status: EventStatus): (r: seq<Event>)
    ensures |r| == |events|
    ensures forall k :: 0 <= k < |events| && events[k].id == id ==>
              r[k] == Event(id, events[k].data.(status := status))
    ensures forall k :: 0 <= k < |events| && events[k].id != id ==> r[k] == events[k]
  {
    seq(|events|, k requires 0 <= k < |events| =>
      if events[k].id == id then Event(id, events[k].data.(status := status)) else events[k])
  }

  // ---------------------------------------------------------------- append

  /** Appending adds the new id at the end and leaves the earlier ids as they were. */
  lemma AppendIds(events: seq<Event>, data: EventData, id: string)
    ensures Ids(Append(events, data, id)) == Ids(events) + [id]
  {
    var r := Append(events, data, id);
    assert forall k :: 0 <= k < |events| ==> r[k] == events[k];
  }

  /** Deleting a freshly appended id undoes the append. */
  lemma {:induction false} RemoveAppended(events: seq<Event>, data: EventData, id: string)
    requires id !in Ids(events)
    ensures RemoveById(Append(events, data, id), id) == events
  {
    assert forall k :: 0 <= k < |events| ==> Ids(events)[k] in Ids(events);
    assert forall k :: 0 <= k < |events| ==> events[k].id != id;
    RemoveAbsent(events, id);
    FilterAppend(events, Event(id, data), (e: Event) => e.id != id);
  }

  // ---------------------------------------------------------------- replace

  /** Replacing keeps every id, in place: the list is the same length and no entry moves. */
  lemma ReplaceByIdIds(events: seq<Event>, id: string, data: EventData)
    ensures Ids(ReplaceById(events, id, data)) == Ids(events)
  {
  }

  /** The later of two replacements of the same id wins, so replacing twice with the same data is replacing once. */
  lemma ReplaceByIdLastWins(events: seq<Event>, id: string, d1: EventData, d2: EventData)
    ensures ReplaceById(ReplaceById(events, id, d1), id, d2) == ReplaceById(events, id, d2)
  {
  }

  /** Replacing an id the list does not hold changes nothing. */
  lemma ReplaceAbsent(events: seq<Event>, id: string, data: EventData)
    requires id !in Ids(events)
    ensures ReplaceById(events, id, data) == events
  {
    assert forall k :: 0 <= k < |events| ==> Ids(events)[k] != id;
  }

  // ---------------------------------------------------------------- remove

  /**
   * Removal keeps the order of the other entries, keeps every other entry as often as it
   * occurred, and keeps no entry with the id.
   */
  lemma RemoveByIdKeeps(events: seq<Event>, id: string, e: Event)
    ensures IsSubsequence(RemoveById(events, id), events)
    ensures multiset(RemoveById(events, id))[e] == if e.id == id then 0 else multiset(events)[e]
  {
    FilterIsSubsequence(events, (e: Event) => e.id != id);
    FilterCount(events, (e: Event) => e.id != id, e);
  }

  /** Removing an id the list does not hold changes nothing. */
  lemma RemoveAbsent(events: seq<Event>, id: string)
    requires forall k :: 0 <= k < |events| ==> events[k].id != id
    ensures RemoveById(events, id) == events
  {
    FilterAll(events, (e: Event) => e.id != id);
  }

  /** Removing the same id twice is removing it once. */
  lemma RemoveIdempotent(events: seq<Event>, id: string)
    ensures RemoveById(RemoveById(events, id), id) == RemoveById(events, id)
  {
    RemoveAbsent(RemoveById(events, id), id);
  }

  // ---------------------------------------------------------------- status

  /** Setting the status keeps every id in place and changes no field but the status. */
  lemma SetStatusOnlyStatus(events: seq<Event>, id: string, status: EventStatus, k: int)
    requires 0 <= k < |events|
    ensures Ids(SetStatusById(events, id, status)) == Ids(events)
    ensures SetStatusById(events, id, status)[k].data
            == events[k].data.(status := SetStatusById(events, id, status)[k].data.status)
  {
  }

  /**
   * There is no transition guard: whatever status an entry had, and whatever was set before,
   * the last status set on its id is the one it has.
   */
  lemma SetStatusLastWins(events: seq<Event>, id: string, s: EventStatus, t: EventStatus)
    ensures SetStatusById(SetStatusById(events, id, s), id, t) == SetStatusById(events, id, t)
  {
    var a, b := SetStatusById(SetStatusById(events, id, s), id, t), SetStatusById(events, id, t);
    forall k | 0 <= k < |events|
      ensures a[k] == b[k]
    {
      if events[k].id == id {
        assert events[k].data.(status := s).(status := t) == events[k].data.(status := t);
      }
    }
  }

  /** Setting a status on an id the list does not hold changes nothing. */
  lemma SetStatusAbsent(events: seq<Event>, id: string, status: EventStatus)
    requires id !in Ids(events)
    ensures SetStatusById(events, id, status) == events
  {
    assert forall k :: 0 <= k < |events| ==> Ids(events)[k] != id;
  }
}
