/** The desktop variant's session log: class ChastityTimer of app.js.

    Dates are epoch milliseconds. An ISO-8601 string produced by toISOString
    stands for the millisecond value it prints, which it determines, so the
    source's comparisons of ISO strings are comparisons of integers here. The
    clock (`new Date()`) is the parameter `now` of each operation. */
module DesktopSession {
  import opened Js
  import opened Duration

  type Ms = int

  /** A stopped session as stored in `events`. */
  datatype Event = Event(startDate: Ms, endDate: Ms, duration: Duration)

  /** A logbook note; `eventId` is the ISO start of the event it belongs to,
      or null when the form was submitted with no event chosen. */
  datatype LogbookEntry = LogbookEntry(eventId: Option<Ms>, title: string, note: string, timestamp: Ms)

  /** The JSON record in the data file. A field that is null or absent is None. */
  datatype SavedState = SavedState(
    startTime: Option<Ms>,
    lastUpdated: Ms,
    events: Option<seq<Event>>,
    stoppedEvents: Option<seq<Ms>>,
    logbookEntries: Option<seq<LogbookEntry>>)

  /** The fields of a ChastityTimer that its operations read and write.
      `stoppedEvents` is the JavaScript Set, as its elements in insertion order;
      `timerActive` says whether the one-second interval is installed. */
  datatype Session = Session(
    startTime: Option<Ms>,
    timerActive: bool,
    events: seq<Event>,
    stoppedEvents: seq<Ms>,
    logbookEntries: seq<LogbookEntry>,
    currentEventId: Option<Ms>)

  /** A row of the logbook list: an entry with its index in `logbookEntries`,
      which the delete button captures. */
  datatype IndexedEntry = IndexedEntry(index: nat, entry: LogbookEntry)

  /** The state after the constructor. */
  const Initial := Session(None, false, [], [], [], None)

  /** `date.setMilliseconds(0)`: down to the whole second (for dates before
      1970 too, as Dafny's `%` is never negative, like Date's millisecond field). */
  function Normalize(t: Ms): (n: Ms)
    ensures n % 1000 == 0 && n <= t < n + 1000
  {
    t - t % 1000
  }

  /** What every ChastityTimer keeps: the stopped set has no repeats and a
      running start is a whole second. */
  predicate WellFormed(s: Session) {
    Distinct(s.stoppedEvents) && (s.startTime.Some? ==> s.startTime.value % 1000 == 0)
  }

  /** WellFormed, and the running start has not been stopped. Loading a file
      into a running timer can break the second half, nothing else does. */
  predicate Consistent(s: Session) {
    WellFormed(s) && (s.startTime.Some? ==> s.startTime.value !in s.stoppedEvents)
  }

  // ------------------------------------------------------------ operations

  /** startTimer(startDate): a start whose whole-second form was already
      stopped is refused and nothing changes; otherwise it becomes the running
      start and the interval is installed. */
  function Start(s: Session, startDate: Ms): (r: Session)
    ensures Normalize(startDate) in s.stoppedEvents ==> r == s
    ensures Normalize(startDate) !in s.stoppedEvents ==>
      && r.startTime == Some(Normalize(startDate)) && r.timerActive
      && r.startTime.value <= startDate < r.startTime.value + 1000
    ensures r.events == s.events && r.stoppedEvents == s.stoppedEvents
    ensures r.logbookEntries == s.logbookEntries && r.currentEventId == s.currentEventId
    ensures WellFormed(s) ==> WellFormed(r)
  {
    var normalized := Normalize(startDate);
    if normalized in s.stoppedEvents then s
    else s.(startTime := Some(normalized), timerActive := true)
  }

  /** saveEvent(date): records the event from `date` to `now`, both to the
      whole second, and marks its start as stopped. */
  function RecordEvent(s: Session, date: Ms, now: Ms): (r: Session)
    ensures r.events == s.events + [Event(Normalize(date), Normalize(now),
                                          CalculateDuration(Normalize(date), Normalize(now)))]
    ensures Normalize(date) in r.stoppedEvents
    ensures forall x :: x in r.stoppedEvents <==> x in s.stoppedEvents || x == Normalize(date)
    ensures r.startTime == s.startTime && r.logbookEntries == s.logbookEntries
    ensures r.timerActive == s.timerActive && r.currentEventId == s.currentEventId
  {
    var start := Normalize(date);
    var end := Normalize(now);
    s.(events := s.events + [Event(start, end, CalculateDuration(start, end))],
       stoppedEvents := SetAdd(s.stoppedEvents, start))
  }

  /** stopTimer(): clears the interval; with a running start, appends exactly
      one event for it and marks it stopped; the start is cleared. */
  function Stop(s: Session, now: Ms): (r: Session)
    ensures r.startTime.None? && !r.timerActive
    ensures s.startTime.None? ==> r == s.(timerActive := false)
    ensures s.startTime.Some? ==>
      var start := Normalize(s.startTime.value);
      && |r.events| == |s.events| + 1 && r.events[..|s.events|] == s.events
      && r.events[|s.events|] == Event(start, Normalize(now), CalculateDuration(start, Normalize(now)))
      && start in r.stoppedEvents
    ensures forall x :: x in r.stoppedEvents <==>
      x in s.stoppedEvents || (s.startTime.Some? && x == Normalize(s.startTime.value))
    ensures r.logbookEntries == s.logbookEntries && r.currentEventId == s.currentEventId
  {
    var s1 := if s.startTime.Some? then
                var marked := s.(stoppedEvents := SetAdd(s.stoppedEvents, Normalize(s.startTime.value)));
                RecordEvent(marked, s.startTime.value, now)
              else s;
    assert s.startTime.Some? ==> s1.events[..|s.events|] == s.events;
    s1.(startTime := None, timerActive := false)
  }

  /** clearEvents(): all three collections are emptied together. */
  function Clear(s: Session): (r: Session)
    ensures r.events == [] && r.stoppedEvents == [] && r.logbookEntries == []
    ensures r.startTime == s.startTime && r.timerActive == s.timerActive
    ensures r.currentEventId == s.currentEventId
  {
    s.(events := [], stoppedEvents := [], logbookEntries := [])
  }

  /** The logbook form's submit handler: one entry tagged with the current
      event id is appended. */
  function SubmitEntry(s: Session, title: string, note: string, now: Ms): (r: Session)
    ensures |r.logbookEntries| == |s.logbookEntries| + 1
    ensures r.logbookEntries[..|s.logbookEntries|] == s.logbookEntries
    ensures r.logbookEntries[|s.logbookEntries|].eventId == s.currentEventId
    ensures r.logbookEntries[|s.logbookEntries|] == LogbookEntry(s.currentEventId, title, note, now)
    ensures r.(logbookEntries := s.logbookEntries) == s
  {
    s.(logbookEntries := s.logbookEntries + [LogbookEntry(s.currentEventId, title, note, now)])
  }

  /** The delete button: `logbookEntries.splice(index, 1)` with the index it
      captured when the list was drawn. */
  function DeleteAt(s: Session, index: int): (r: Session)
    ensures r.(logbookEntries := s.logbookEntries) == s
    ensures index >= |s.logbookEntries| ==> r == s
  {
    s.(logbookEntries := SpliceOne(s.logbookEntries, index))
  }

  /** The entries for event `id` at position `from` or later, with their indices. */
  function Tagged(entries: seq<LogbookEntry>, id: Option<Ms>, from: nat): (r: seq<IndexedEntry>)
    requires from <= |entries|
    ensures forall k :: 0 <= k < |r| ==>
      from <= r[k].index < |entries| && entries[r[k].index] == r[k].entry && r[k].entry.eventId == id
    ensures forall i :: from <= i < |entries| && entries[i].eventId == id ==> IndexedEntry(i, entries[i]) in r
    ensures IncreasingIndices(r)
    decreases |entries| - from
  {
    if from == |entries| then []
    else
      var rest := Tagged(entries, id, from + 1);
      if entries[from].eventId == id then
        ConsIncreasing(IndexedEntry(from, entries[from]), rest);
        [IndexedEntry(from, entries[from])] + rest
      else rest
  }

  /** The order of the main list: each index after the ones before it, so
      none appears twice. */
  predicate IncreasingIndices(r: seq<IndexedEntry>) {
    forall k, l :: 0 <= k < l < |r| ==> r[k].index < r[l].index
  }

  lemma ConsIncreasing(x: IndexedEntry, rest: seq<IndexedEntry>)
    requires IncreasingIndices(rest)
    requires forall k :: 0 <= k < |rest| ==> x.index < rest[k].index
    ensures IncreasingIndices([x] + rest)
  {
    var r := [x] + rest;
    forall k, l | 0 <= k < l < |r| ensures r[k].index < r[l].index {
      assert r[l] == rest[l - 1];
      if k > 0 {
        assert r[k] == rest[k - 1];
      }
    }
  }

  function EntryTime(e: IndexedEntry): int {
    e.entry.timestamp
  }

  /** updateLogbookEntriesList(): the entries of the current event, newest
      first, each with its index in the main list. */
  function EntriesView(s: Session): (r: seq<IndexedEntry>)
    ensures forall k :: 0 <= k < |r| ==>
      && r[k].index < |s.logbookEntries| && s.logbookEntries[r[k].index] == r[k].entry
      && r[k].entry.eventId == s.currentEventId
    ensures forall i :: 0 <= i < |s.logbookEntries| && s.logbookEntries[i].eventId == s.currentEventId ==>
      IndexedEntry(i, s.logbookEntries[i]) in r
    ensures SortedDesc(r, EntryTime)
    ensures forall k, l :: 0 <= k < l < |r| ==> r[k].index != r[l].index
  {
    var tagged := Tagged(s.logbookEntries, s.currentEventId, 0);
    var r := SortDesc(tagged, EntryTime);
    SameElements(r, tagged);
    forall k | 0 <= k < |r|
      ensures r[k].index < |s.logbookEntries| && s.logbookEntries[r[k].index] == r[k].entry
      ensures r[k].entry.eventId == s.currentEventId
    {
      assert r[k] in tagged;
      var j :| 0 <= j < |tagged| && tagged[j] == r[k];
    }
    assert Distinct(tagged) by {
      forall k, l | 0 <= k < l < |tagged| ensures tagged[k] != tagged[l] {
        assert tagged[k].index < tagged[l].index;
      }
    }
    PermutationKeepsDistinct(tagged, r);
    forall k, l | 0 <= k < l < |r| ensures r[k].index != r[l].index {
      assert r[k] != r[l];
    }
    r
  }

  /** padNumber(n): `n.toString().padStart(2, '0')`. */
  function PadNumber(n: int): (r: string)
    ensures |r| >= 2
    ensures 0 <= n < 10 ==> r == ['0', DigitChar(n)]
    ensures n >= 10 ==> r == IntToString(n, 10)
  {
    PadStart(IntToString(n, 10), 2, '0')
  }

  // ----------------------------------------------------------- persistence

  /** saveState(): the record written to the data file. */
  function Snapshot(s: Session, now: Ms): (r: SavedState)
    ensures r.events.Some? && r.stoppedEvents.Some? && r.logbookEntries.Some?
    ensures r.lastUpdated == now
  {
    SavedState(s.startTime, now, Some(s.events), Some(s.stoppedEvents), Some(s.logbookEntries))
  }

  /** The collections loadSavedState takes from the file: each one present replaces
      the current one, `stoppedEvents` through `new Set(...)`. */
  function LoadCollections(s: Session, data: SavedState): (r: Session)
    ensures data.events.Some? ==> r.events == data.events.value
    ensures data.events.None? ==> r.events == s.events
    ensures data.stoppedEvents.Some? ==>
      Distinct(r.stoppedEvents) && forall x :: x in r.stoppedEvents <==> x in data.stoppedEvents.value
    ensures data.stoppedEvents.None? ==> r.stoppedEvents == s.stoppedEvents
    ensures data.logbookEntries.Some? ==> r.logbookEntries == data.logbookEntries.value
    ensures data.logbookEntries.None? ==> r.logbookEntries == s.logbookEntries
    ensures r.startTime == s.startTime && r.timerActive == s.timerActive && r.currentEventId == s.currentEventId
    ensures WellFormed(s) ==> WellFormed(r)
  {
    s.(events := data.events.GetOr(s.events),
       stoppedEvents := if data.stoppedEvents.Some? then SetOf(data.stoppedEvents.value) else s.stoppedEvents,
       logbookEntries := data.logbookEntries.GetOr(s.logbookEntries))
  }

  /** loadSavedState() on a file holding `data`: the collections, then a
      startTimer of the saved start, if there is one. */
  function Load(s: Session, data: SavedState): (r: Session)
    ensures WellFormed(s) ==> WellFormed(r)
  {
    var s1 := LoadCollections(s, data);
    if data.startTime.Some? then Start(s1, data.startTime.value) else s1
  }

  /** Whether loading `data` restarts its saved start (and so saves the file again). */
  predicate Restarts(s: Session, data: SavedState) {
    data.startTime.Some? && Normalize(data.startTime.value) !in LoadCollections(s, data).stoppedEvents
  }

  // ---------------------------------------------------------------- lemmas

  /** Starting at a time whose whole second is stopped is refused, however
      far into that second the time is. */
  lemma StartRejectsStopped(s: Session, startDate: Ms)
    requires Normalize(startDate) in s.stoppedEvents
    ensures Start(s, startDate) == s
  {
  }

  /** Once stopped, a start can never be started again: stopping puts it in
      the stopped set, and every operation but clearEvents keeps it there. */
  lemma {:induction false} StoppedCannotRestart(s: Session, now: Ms, t: Ms)
    requires s.startTime.Some? && Normalize(t) == Normalize(s.startTime.value)
    ensures var r := Stop(s, now); Start(r, t) == r && r.startTime.None?
  {
    var r := Stop(s, now);
    assert Normalize(s.startTime.value) in r.stoppedEvents;
  }

  /** What stays in the stopped set: nothing but Clear and Load takes a start out. */
  lemma StoppedPersists(s: Session, x: Ms, t: Ms, now: Ms, title: string, note: string, i: int)
    requires x in s.stoppedEvents
    ensures x in Start(s, t).stoppedEvents
    ensures x in Stop(s, now).stoppedEvents
    ensures x in SubmitEntry(s, title, note, now).stoppedEvents
    ensures x in DeleteAt(s, i).stoppedEvents
  {
  }

  /** Every operation but Load keeps a consistent session consistent. */
  lemma OperationsKeepConsistent(s: Session, t: Ms, now: Ms, title: string, note: string, i: int)
    requires Consistent(s)
    ensures Consistent(Start(s, t))
    ensures Consistent(Stop(s, now))
    ensures Consistent(Clear(s))
    ensures Consistent(SubmitEntry(s, title, note, now))
    ensures Consistent(DeleteAt(s, i))
  {
    var r := Stop(s, now);
    if s.startTime.Some? {
      assert Distinct(r.stoppedEvents) by {
        var marked := SetAdd(s.stoppedEvents, Normalize(s.startTime.value));
        assert Distinct(marked);
      }
    }
  }

  /** Loading at start-up (no timer running) gives a consistent session. */
  lemma LoadAtStartupConsistent(s: Session, data: SavedState)
    requires WellFormed(s) && s.startTime.None?
    ensures Consistent(Load(s, data))
  {
  }

  /** saveState followed by loadSavedState restores the events, the stopped
      set (in the same order) and the logbook, and restarts the saved start; a
      session with no start leaves the loading timer's start alone. */
  lemma {:induction false} LoadAfterSave(s: Session, now: Ms, before: Session)
    requires Consistent(s)
    ensures var r := Load(before, Snapshot(s, now));
      && r.events == s.events && r.stoppedEvents == s.stoppedEvents
      && r.logbookEntries == s.logbookEntries
      && (s.startTime.Some? ==> r.startTime == s.startTime && r.timerActive)
      && (s.startTime.None? ==> r.startTime == before.startTime)
      && r.currentEventId == before.currentEventId
  {
    SetOfDistinct(s.stoppedEvents);
    if s.startTime.Some? {
      assert Normalize(s.startTime.value) == s.startTime.value;
    }
  }

  /** In particular the app's start-up load of what it saved restores the
      session, except for the logbook modal's current event. */
  lemma StartupRoundTrip(s: Session, now: Ms)
    requires Consistent(s)
    ensures Load(Initial, Snapshot(s, now)) == s.(timerActive := s.startTime.Some?, currentEventId := None)
  {
    LoadAfterSave(s, now, Initial);
  }

  /** Stopping records the elapsed time to the minute: for a stop after the
      start the duration adds up to the whole-second difference, less under a minute. */
  lemma StopDuration(s: Session, now: Ms)
    requires s.startTime.Some? && Normalize(s.startTime.value) <= Normalize(now)
    ensures var e := Stop(s, now).events[|s.events|];
      var diff := e.endDate - e.startDate;
      && 0 <= e.duration.hours < 24 && 0 <= e.duration.minutes < 60
      && TotalMs(e.duration) <= diff < TotalMs(e.duration) + MsPerMinute
  {
    var start := Normalize(s.startTime.value);
    DurationBounds(Normalize(now) - start);
  }

  /** Deleting row `k` of the list (while the list is as it was drawn) removes
      exactly that entry and leaves every other event's entries as they were, in order. */
  lemma {:induction false} DeleteFromView(s: Session, k: nat)
    requires k < |EntriesView(s)|
    ensures var row := EntriesView(s)[k];
      var r := DeleteAt(s, row.index);
      && multiset(r.logbookEntries) + multiset{row.entry} == multiset(s.logbookEntries)
      && Filter(r.logbookEntries, NotFor(s.currentEventId)) == Filter(s.logbookEntries, NotFor(s.currentEventId))
  {
    var row := EntriesView(s)[k];
    SpliceOneAt(s.logbookEntries, row.index);
    FilterSpliceRejected(s.logbookEntries, row.index, NotFor(s.currentEventId));
  }

  function NotFor(id: Option<Ms>): LogbookEntry -> bool {
    (e: LogbookEntry) => e.eventId != id
  }

  // ------------------------------------------------------------- the class

  class ChastityTimer {
    var startTime: Option<Ms>
    var timerActive: bool
    var events: seq<Event>
    var stoppedEvents: seq<Ms>
    var logbookEntries: seq<LogbookEntry>
    var currentEventId: Option<Ms>
    /** The user data path received over IPC. */
    var dataPath: Option<string>
    /** The data file's contents; None while it does not exist. */
    var file: Option<SavedState>

    function State(): Session
      reads this
    {
      Session(startTime, timerActive, events, stoppedEvents, logbookEntries, currentEventId)
    }

    predicate Valid()
      reads this
    {
      WellFormed(State())
    }

    /** `if (!this.dataPath) return;` — a missing or empty path. */
    predicate HasDataPath()
      reads this
    {
      dataPath.Some? && dataPath.value != ""
    }

    /** The data file after saveState() at `now`, given what it held before. */
    function AfterSave(before: Option<SavedState>, now: Ms): Option<SavedState>
      reads this
    {
      if HasDataPath() then Some(Snapshot(State(), now)) else before
    }

    /** The constructor; `file` is whatever the data file already holds. */
    constructor (file: Option<SavedState>)
      ensures State() == Initial && dataPath.None? && this.file == file && Valid()
    {
      startTime := None;
      timerActive := false;
      events := [];
      stoppedEvents := [];
      logbookEntries := [];
      currentEventId := None;
      dataPath := None;
      this.file := file;
    }

    method SaveState(now: Ms)
      modifies this`file
      ensures file == old(AfterSave(file, now))
    {
      if !HasDataPath() { return; }
      file := Some(SavedState(startTime, now, Some(events), Some(stoppedEvents), Some(logbookEntries)));
    }

    method StartTimer(startDate: Ms, now: Ms)
      requires Valid()
      modifies this
      ensures Valid() && State() == Start(old(State()), startDate) && dataPath == old(dataPath)
      ensures file == if Normalize(startDate) in old(stoppedEvents) then old(file) else AfterSave(old(file), now)
    {
      var normalized := Normalize(startDate);
      if normalized in stoppedEvents {
        return;  // alert: the timer has been stopped and cannot be restarted
      }
      startTime := Some(normalized);
      timerActive := true;
      SaveState(now);
    }

    method SaveEvent(date: Ms, now: Ms)
      requires Valid()
      modifies this
      ensures Valid() && State() == RecordEvent(old(State()), date, now) && dataPath == old(dataPath)
      ensures file == AfterSave(old(file), now)
    {
      var normalizedStart := Normalize(date);
      var normalizedEnd := Normalize(now);
      events := events + [Event(normalizedStart, normalizedEnd, CalculateDuration(normalizedStart, normalizedEnd))];
      stoppedEvents := SetAdd(stoppedEvents, normalizedStart);
      SaveState(now);
    }

    method StopTimer(now: Ms)
      requires Valid()
      modifies this
      ensures Valid() && State() == Stop(old(State()), now) && dataPath == old(dataPath)
      ensures file == AfterSave(old(file), now)
    {
      timerActive := false;
      if startTime.Some? {
        var normalized := Normalize(startTime.value);
        stoppedEvents := SetAdd(stoppedEvents, normalized);
        SaveEvent(startTime.value, now);
      }
      startTime := None;
      SaveState(now);
    }

    method ClearEvents(now: Ms)
      requires Valid()
      modifies this
      ensures Valid() && State() == Clear(old(State())) && dataPath == old(dataPath)
      ensures file == AfterSave(old(file), now)
    {
      events := [];
      stoppedEvents := [];
      logbookEntries := [];
      SaveState(now);
    }

    /** The logbook icon of a past event (and showLogbookModal). */
    method OpenEventLogbook(event: Event)
      modifies this`currentEventId
      ensures currentEventId == Some(event.startDate)
    {
      currentEventId := Some(event.startDate);
    }

    /** The running timer's logbook icon: only opens while a start is running. */
    method OpenCurrentLogbook()
      modifies this`currentEventId
      ensures currentEventId == if old(startTime).Some? then old(startTime) else old(currentEventId)
    {
      if startTime.Some? {
        currentEventId := startTime;
      }
    }

    method SubmitLogbookEntry(title: string, note: string, now: Ms)
      requires Valid()
      modifies this
      ensures Valid() && State() == SubmitEntry(old(State()), title, note, now) && dataPath == old(dataPath)
      ensures file == AfterSave(old(file), now)
    {
      var entry := LogbookEntry(currentEventId, title, note, now);
      logbookEntries := logbookEntries + [entry];
      SaveState(now);
    }

    method DeleteLogbookEntry(index: int, now: Ms)
      requires Valid()
      modifies this
      ensures Valid() && State() == DeleteAt(old(State()), index) && dataPath == old(dataPath)
      ensures file == AfterSave(old(file), now)
    {
      logbookEntries := SpliceOne(logbookEntries, index);
      SaveState(now);
    }

    method LoadSavedState(now: Ms)
      requires Valid()
      modifies this
      ensures Valid() && dataPath == old(dataPath)
      ensures !old(HasDataPath()) || old(file).None? ==> State() == old(State()) && file == old(file)
      ensures old(HasDataPath()) && old(file).Some? ==>
        && State() == Load(old(State()), old(file).value)
        && file == if Restarts(old(State()), old(file).value) then AfterSave(old(file), now) else old(file)
    {
      if !HasDataPath() { return; }
      if file.None? { return; }
      var data := file.value;
      if data.events.Some? {
        events := data.events.value;
      }
      if data.stoppedEvents.Some? {
        stoppedEvents := SetOf(data.stoppedEvents.value);
      }
      if data.logbookEntries.Some? {
        logbookEntries := data.logbookEntries.value;
      }
      assert State() == LoadCollections(old(State()), data);
      if data.startTime.Some? {
        StartTimer(data.startTime.value, now);
      }
    }

    /** The IPC reply with the user data path, which triggers the load. */
    method ReceiveDataPath(path: string, now: Ms)
      requires Valid()
      modifies this
      ensures Valid() && dataPath == Some(path)
      ensures path == "" ==> State() == old(State()) && file == old(file)
      ensures path != "" && old(file).None? ==> State() == old(State()) && file == old(file)
      ensures path != "" && old(file).Some? ==>
        && State() == Load(old(State()), old(file).value)
        && file == if Restarts(old(State()), old(file).value) then AfterSave(old(file), now) else old(file)
    {
      dataPath := Some(path);
      LoadSavedState(now);
    }
  }

  /** A client of the class: save, then a new timer started on the same file
      restores what was saved. */
  method SaveThenReload(t: ChastityTimer, now: Ms, later: Ms, path: string) returns (u: ChastityTimer)
    requires t.Valid() && Consistent(t.State()) && t.HasDataPath() && path != ""
    modifies t`file
    ensures u.events == t.events && u.stoppedEvents == t.stoppedEvents
    ensures u.logbookEntries == t.logbookEntries && u.startTime == t.startTime
    ensures u.timerActive == t.startTime.Some?
  {
    t.SaveState(now);
    u := new ChastityTimer(t.file);
    u.ReceiveDataPath(path, later);
    LoadAfterSave(t.State(), now, Initial);
  }
}
