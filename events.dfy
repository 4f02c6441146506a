/** The web variant's event store: class EventManager of
    src/events/EventManager.js. Events are keyed by their numeric `id`; a
    logbook entry is found by its own numeric `id`. */
module Events {
  import opened Js
  import opened Duration
  import opened WebStorage

  // ------------------------------------------------------ the event list

  /** `!this.currentEventId` is false: the id is present and not 0. */
  predicate IsSet(id: Option<int>) {
    id.Some? && id.value != 0
  }

  function HasId(id: int): Event -> bool {
    (e: Event) => e.id == id
  }

  function NotEntry(entryId: int): LogbookEntry -> bool {
    (x: LogbookEntry) => x.id != entryId
  }

  /** `this.events.find(e => e.id === id)`, as the position of the match. */
  function FindId(events: seq<Event>, id: int): (r: Option<nat>)
    ensures r.Some? ==> r.value < |events| && events[r.value].id == id
    ensures r.Some? ==> forall j :: 0 <= j < r.value ==> events[j].id != id
    ensures r.None? ==> forall j :: 0 <= j < |events| ==> events[j].id != id
  {
    FindFirst(events, HasId(id))
  }

  /** An event's logbook, an absent one read as empty. */
  function Logbook(e: Event): seq<LogbookEntry> {
    e.logbook.GetOr([])
  }

  /** addLogbookEntry(eventId, entry): with no event of that id nothing
      changes; otherwise the first such event gains `entry` at the end of its
      logbook (created when missing) and no other event changes. */
  function WithEntry(events: seq<Event>, id: int, entry: LogbookEntry): (r: seq<Event>)
    ensures |r| == |events|
    ensures FindId(r, id) == FindId(events, id)
    ensures FindId(events, id).None? ==> r == events
    ensures FindId(events, id).Some? ==>
      var i := FindId(events, id).value;
      && (forall j :: 0 <= j < |events| && j != i ==> r[j] == events[j])
      && r[i].(logbook := events[i].logbook) == events[i]
      && r[i].logbook.Some?
      && |Logbook(r[i])| == |Logbook(events[i])| + 1
      && Logbook(r[i])[..|Logbook(events[i])|] == Logbook(events[i])
      && Logbook(r[i])[|Logbook(events[i])|] == entry
  {
    match FindId(events, id)
    case None => events
    case Some(i) =>
      var r := events[i := events[i].(logbook := Some(Logbook(events[i]) + [entry]))];
      FindIdKept(events, r, id);
      r
  }

  /** Lists with the same ids at the same positions find an id at the same place. */
  lemma FindIdKept(a: seq<Event>, b: seq<Event>, id: int)
    requires |a| == |b| && forall j :: 0 <= j < |a| ==> a[j].id == b[j].id
    ensures FindId(a, id) == FindId(b, id)
  {
    var ra, rb := FindId(a, id), FindId(b, id);
    if ra.Some? {
      assert b[ra.value].id == id;
    }
    if rb.Some? {
      assert a[rb.value].id == id;
    }
  }

  /** deleteLogbookEntry(eventId, entryId): a no-op when there is no such
      event or it has no logbook; otherwise every entry with that id leaves
      the first such event's logbook, the others stay, and no other event changes. */
  function WithoutEntry(events: seq<Event>, id: int, entryId: int): (r: seq<Event>)
    ensures |r| == |events|
    ensures FindId(events, id).None? ==> r == events
    ensures FindId(events, id).Some? && events[FindId(events, id).value].logbook.None? ==> r == events
    ensures FindId(events, id).Some? && events[FindId(events, id).value].logbook.Some? ==>
      var i := FindId(events, id).value;
      && (forall j :: 0 <= j < |events| && j != i ==> r[j] == events[j])
      && r[i].(logbook := events[i].logbook) == events[i]
      && r[i].logbook.Some?
      && r[i].logbook.value == Filter(events[i].logbook.value, NotEntry(entryId))
      && (forall x :: x in r[i].logbook.value <==> x in events[i].logbook.value && x.id != entryId)
  {
    match FindId(events, id)
    case None => events
    case Some(i) =>
      if events[i].logbook.None? then events
      else events[i := events[i].(logbook := Some(Filter(events[i].logbook.value, NotEntry(entryId))))]
  }

  /** The logbook deleteLogbookEntry leaves holds every other entry exactly
      as often as before and none with the deleted id. */
  lemma DeleteKeepsOthers(events: seq<Event>, id: int, entryId: int, x: LogbookEntry)
    requires FindId(events, id).Some? && events[FindId(events, id).value].logbook.Some?
    ensures var i := FindId(events, id).value;
      multiset(Logbook(WithoutEntry(events, id, entryId)[i]))[x]
        == if x.id == entryId then 0 else multiset(Logbook(events[i]))[x]
  {
    var i := FindId(events, id).value;
    FilterMultiset(events[i].logbook.value, NotEntry(entryId), x);
  }

  /** With one entry of that id, at position `k`, deleting it is splicing
      position `k` out: the others stay in their order. */
  lemma DeleteUniqueEntry(events: seq<Event>, id: int, entryId: int, k: nat)
    requires FindId(events, id).Some? && events[FindId(events, id).value].logbook.Some?
    requires var log := Logbook(events[FindId(events, id).value]);
      k < |log| && log[k].id == entryId && forall j :: 0 <= j < |log| && j != k ==> log[j].id != entryId
    ensures var i := FindId(events, id).value;
      Logbook(WithoutEntry(events, id, entryId)[i]) == SpliceOne(Logbook(events[i]), k)
  {
    var i := FindId(events, id).value;
    FilterRemovesOnly(events[i].logbook.value, k, NotEntry(entryId));
  }

  function EntryDate(x: LogbookEntry): int {
    x.date
  }

  /** The in-place `event.logbook.sort(...)` of updateLogbookEntries: with the
      current event id set and its event holding a logbook, that logbook is
      reordered newest date first; nothing else changes. */
  function SortLogbook(events: seq<Event>, currentEventId: Option<int>): (r: seq<Event>)
    ensures |r| == |events|
    ensures forall j :: 0 <= j < |events| ==> r[j].(logbook := events[j].logbook) == events[j]
    ensures forall j :: 0 <= j < |events| ==>
      (r[j].logbook.Some? <==> events[j].logbook.Some?) &&
      multiset(Logbook(r[j])) == multiset(Logbook(events[j]))
    ensures !IsSet(currentEventId) ==> r == events
    ensures IsSet(currentEventId) && FindId(events, currentEventId.value).Some? ==>
      var i := FindId(events, currentEventId.value).value;
      && SortedDesc(Logbook(r[i]), EntryDate)
      && (forall j :: 0 <= j < |events| && j != i ==> r[j] == events[j])
    ensures IsSet(currentEventId) && FindId(events, currentEventId.value).None? ==> r == events
  {
    if !IsSet(currentEventId) then events
    else match FindId(events, currentEventId.value)
      case None => events
      case Some(i) =>
        if events[i].logbook.None? then events
        else
          var sorted := SortDesc(events[i].logbook.value, EntryDate);
          ReorderLogbook(events, i, sorted);
          events[i := events[i].(logbook := Some(sorted))]
  }

  /** Replacing one event's logbook by a reordering of it keeps every other
      field and every other event, and each logbook's contents. */
  lemma ReorderLogbook(events: seq<Event>, i: nat, log: seq<LogbookEntry>)
    requires i < |events| && events[i].logbook.Some? && multiset(log) == multiset(events[i].logbook.value)
    ensures var r := events[i := events[i].(logbook := Some(log))];
      && Logbook(r[i]) == log
      && (forall j :: 0 <= j < |events| ==> r[j].(logbook := events[j].logbook) == events[j])
      && (forall j :: 0 <= j < |events| ==>
            (r[j].logbook.Some? <==> events[j].logbook.Some?) && multiset(Logbook(r[j])) == multiset(Logbook(events[j])))
      && (forall j :: 0 <= j < |events| && j != i ==> r[j] == events[j])
  {
  }

  predicate IsCompleted(e: Event) {
    e.endDate.Some?
  }

  function StartKey(e: Event): int {
    e.startDate
  }

  /** updateEventsList(): the events with an end date, newest start first. */
  function CompletedEvents(events: seq<Event>): (r: seq<Event>)
    ensures forall e :: e in r <==> e in events && e.endDate.Some?
    ensures SortedDesc(r, StartKey)
    ensures multiset(r) == multiset(Filter(events, IsCompleted))
  {
    var kept := Filter(events, IsCompleted);
    var r := SortDesc(kept, StartKey);
    SameElements(r, kept);
    r
  }

  /** Adding an entry whose id the event's logbook does not yet hold, then
      deleting that id, gives the events back. */
  lemma {:induction false} DeleteUndoesAdd(events: seq<Event>, id: int, entry: LogbookEntry)
    requires FindId(events, id).Some? && events[FindId(events, id).value].logbook.Some?
    requires forall x :: x in events[FindId(events, id).value].logbook.value ==> x.id != entry.id
    ensures WithoutEntry(WithEntry(events, id, entry), id, entry.id) == events
  {
    var i := FindId(events, id).value;
    var old_log := events[i].logbook.value;
    var added := WithEntry(events, id, entry);
    assert added[i].logbook.value == old_log + [entry];
    FilterConcat(old_log, [entry], NotEntry(entry.id));
    assert forall j :: 0 <= j < |old_log| ==> old_log[j] in old_log;
    FilterAll(old_log, NotEntry(entry.id));
    assert Filter([entry], NotEntry(entry.id)) == [] by {
      assert [entry][1..] == [];
    }
    assert Filter(old_log + [entry], NotEntry(entry.id)) == old_log + [];
    assert added[i] == events[i].(logbook := Some(old_log + [entry]));
    assert FindId(added, id) == Some(i);
    var r := WithoutEntry(added, id, entry.id);
    assert r == added[i := added[i].(logbook := Some(Filter(old_log + [entry], NotEntry(entry.id))))];
    assert old_log + [] == old_log;
    assert r[i] == added[i].(logbook := Some(old_log));
    assert events[i].logbook == Some(old_log);
    assert r[i] == events[i];
    assert r == events;
  }

  /** After addLogbookEntry the entry sits in the logbook of the event the id
      finds, and every entry that was in any logbook is still there. */
  lemma EntryAdded(events: seq<Event>, id: int, entry: LogbookEntry)
    requires FindId(events, id).Some?
    ensures var r := WithEntry(events, id, entry);
      entry in Logbook(r[FindId(r, id).value])
    ensures forall j, x :: 0 <= j < |events| && x in Logbook(events[j]) ==> x in Logbook(WithEntry(events, id, entry)[j])
  {
    var r := WithEntry(events, id, entry);
    var i := FindId(events, id).value;
    assert Logbook(r[i]) == Logbook(events[i]) + [entry];
  }

  /** The day/hour/minute split of a completed event's duration is exact to the minute. */
  lemma CompletedDuration(e: Event)
    requires e.endDate.Some? && e.startDate <= e.endDate.value
    ensures var d := CalculateDuration(e.startDate, e.endDate.value);
      && 0 <= d.hours < 24 && 0 <= d.minutes < 60
      && TotalMs(d) <= e.endDate.value - e.startDate < TotalMs(d) + MsPerMinute
  {
    DurationBounds(e.endDate.value - e.startDate);
  }

  // ------------------------------------------------------------- the class

  class EventManager {
    var events: seq<Event>
    var currentEventId: Option<int>
    /** The page's localStorage. */
    const storage: LocalStorage

    /** `events_<currentUser>` after saveEvents() of `evts`, given what the
        key family held before: written only while someone is signed in. */
    function Persisted(before: map<string, seq<Event>>, evts: seq<Event>): map<string, seq<Event>>
      reads storage
    {
      if storage.SignedIn().Some? then before[storage.SignedIn().value := evts] else before
    }

    constructor (storage: LocalStorage)
      ensures events == [] && currentEventId.None? && this.storage == storage
    {
      events := [];
      currentEventId := None;
      this.storage := storage;
    }

    method SaveEvents()
      modifies storage`events
      ensures storage.events == old(Persisted(storage.events, events))
    {
      var currentUser := storage.SignedIn();
      if currentUser.Some? {
        storage.events := storage.events[currentUser.value := events];
      }
    }

    method AddEvent(event: Event)
      modifies this`events, storage`events
      ensures events == old(events) + [event]
      ensures storage.events == Persisted(old(storage.events), events)
    {
      events := events + [event];
      SaveEvents();
    }

    /** clearEvents(); `confirmed` is the answer to the confirm dialog. */
    method ClearEvents(confirmed: bool)
      modifies this`events, storage`events
      ensures confirmed ==> events == [] && storage.events == Persisted(old(storage.events), [])
      ensures !confirmed ==> events == old(events) && storage.events == old(storage.events)
    {
      if confirmed {
        events := [];
        SaveEvents();
      }
    }

    method AddLogbookEntry(eventId: int, entry: LogbookEntry)
      modifies this`events, storage`events
      ensures events == WithEntry(old(events), eventId, entry)
      ensures FindId(old(events), eventId).None? ==> storage.events == old(storage.events)
      ensures FindId(old(events), eventId).Some? ==> storage.events == Persisted(old(storage.events), events)
    {
      var found := FindId(events, eventId);
      if found.None? { return; }
      var i := found.value;
      var event := events[i];
      events := events[i := event.(logbook := Some(Logbook(event) + [entry]))];
      SaveEvents();
    }

    /** updateLogbookEntries(): sorts the current event's logbook in place
        (the rest of the method draws the list). */
    method UpdateLogbookEntries()
      modifies this`events
      ensures events == SortLogbook(old(events), currentEventId)
    {
      if !IsSet(currentEventId) { return; }
      var found := FindId(events, currentEventId.value);
      if found.None? { return; }
      var i := found.value;
      if events[i].logbook.None? { return; }
      events := events[i := events[i].(logbook := Some(SortDesc(events[i].logbook.value, EntryDate)))];
    }

    /** deleteLogbookEntry(eventId, entryId): the filtered list is saved, then
        sorted for display. */
    method DeleteLogbookEntry(eventId: int, entryId: int)
      modifies this`events, storage`events
      ensures var i := FindId(old(events), eventId);
        i.None? || old(events)[i.value].logbook.None? ==>
          events == old(events) && storage.events == old(storage.events)
      ensures var i := FindId(old(events), eventId);
        i.Some? && old(events)[i.value].logbook.Some? ==>
          var kept := WithoutEntry(old(events), eventId, entryId);
          && storage.events == Persisted(old(storage.events), kept)
          && events == SortLogbook(kept, currentEventId)
    {
      var found := FindId(events, eventId);
      if found.None? { return; }
      var i := found.value;
      if events[i].logbook.None? { return; }
      events := events[i := events[i].(logbook := Some(Filter(events[i].logbook.value, NotEntry(entryId))))];
      SaveEvents();
      UpdateLogbookEntries();
    }

    method OpenLogbookModal(eventId: int)
      modifies this`events, this`currentEventId
      ensures currentEventId == Some(eventId)
      ensures events == SortLogbook(old(events), Some(eventId))
    {
      currentEventId := Some(eventId);
      UpdateLogbookEntries();
    }

    method CloseLogbookModal()
      modifies this`currentEventId
      ensures currentEventId.None?
    {
      currentEventId := None;
    }

    /** handleLogbookSubmit: with no current event nothing is added; otherwise
        an entry stamped `now` (its id and its date) goes to the current
        event's logbook, is saved, and the logbook is sorted for display. */
    method HandleLogbookSubmit(title: string, note: string, now: int)
      modifies this`events, storage`events
      ensures !IsSet(currentEventId) ==> events == old(events) && storage.events == old(storage.events)
      ensures IsSet(currentEventId) ==>
        var added := WithEntry(old(events), currentEventId.value, LogbookEntry(now, title, note, now));
        && events == SortLogbook(added, currentEventId)
        && storage.events ==
             if FindId(old(events), currentEventId.value).Some? then Persisted(old(storage.events), added)
             else old(storage.events)
    {
      if !IsSet(currentEventId) { return; }
      var entry := LogbookEntry(now, title, note, now);
      AddLogbookEntry(currentEventId.value, entry);
      UpdateLogbookEntries();
    }

    /** loadSavedState(username): a stored list replaces the events. */
    method LoadSavedState(username: string)
      modifies this`events
      ensures events == if username in storage.events then storage.events[username] else old(events)
    {
      if username in storage.events {
        events := storage.events[username];
      }
    }

    /** What the events list shows. */
    function Shown(): seq<Event>
      reads this
    {
      CompletedEvents(events)
    }
  }
}
