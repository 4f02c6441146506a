/** The web variant's session clock: class TimerManager of
    src/timer/TimerManager.js. Dates are epoch milliseconds; the clock
    (`new Date()`, `Date.now()`) is the parameter `now` of each operation; the
    installed one-second interval is the flag `timerActive`. */
module Timer {
  import opened Js
  import opened Duration
  import opened WebStorage
  import opened Events

  /** The fields of a TimerManager. */
  datatype Clock = Clock(
    timerActive: bool,
    startTime: Option<int>,
    endTime: Option<int>,
    isPaused: bool,
    pauseStartTime: Option<int>,
    totalPausedTime: int)

  /** The state the constructor sets up before it loads. */
  const Idle := Clock(false, None, None, false, None, 0)

  /** A clock is paused exactly when it holds the moment the pause began, and
      the interval never runs while paused. */
  predicate ClockInvariant(c: Clock) {
    (c.isPaused <==> c.pauseStartTime.Some?) && (c.timerActive ==> !c.isPaused)
  }

  // ------------------------------------------------------------ operations

  /** The reset that startTimer and startCustomTimer share, from `start`. */
  function Begin(start: int): (r: Clock)
    ensures ClockInvariant(r) && r.timerActive && r.startTime == Some(start)
    ensures r.endTime.None? && !r.isPaused && r.pauseStartTime.None? && r.totalPausedTime == 0
  {
    Clock(true, Some(start), None, false, None, 0)
  }

  /** stopTimer(): without a start nothing happens; otherwise the interval
      stops and the end is recorded; the start stays. */
  function Stop(c: Clock, now: int): (r: Clock)
    ensures c.startTime.None? ==> r == c
    ensures c.startTime.Some? ==> !r.timerActive && r.endTime == Some(now)
    ensures r.startTime == c.startTime && r.isPaused == c.isPaused
    ensures r.pauseStartTime == c.pauseStartTime && r.totalPausedTime == c.totalPausedTime
    ensures ClockInvariant(c) ==> ClockInvariant(r)
  {
    if c.startTime.None? then c else c.(timerActive := false, endTime := Some(now))
  }

  /** The resume branch of togglePause(): the time since the pause began is
      added to the paused total, and the interval runs again. */
  function Resume(c: Clock, now: int): (r: Clock)
    ensures !r.isPaused && r.pauseStartTime.None? && r.timerActive
    ensures c.pauseStartTime.Some? ==> r.totalPausedTime == c.totalPausedTime + (now - c.pauseStartTime.value)
    ensures c.pauseStartTime.None? ==> r.totalPausedTime == c.totalPausedTime
    ensures r.startTime == c.startTime && r.endTime == c.endTime
    ensures ClockInvariant(r)
  {
    var total := if c.pauseStartTime.Some? then c.totalPausedTime + (now - c.pauseStartTime.value)
                 else c.totalPausedTime;
    c.(isPaused := false, pauseStartTime := None, totalPausedTime := total, timerActive := true)
  }

  /** A confirmed pause: paused from `now`, interval stopped. */
  function Pause(c: Clock, now: int): (r: Clock)
    ensures r.isPaused && r.pauseStartTime == Some(now) && !r.timerActive
    ensures r.startTime == c.startTime && r.endTime == c.endTime && r.totalPausedTime == c.totalPausedTime
    ensures ClockInvariant(r)
  {
    c.(isPaused := true, pauseStartTime := Some(now), timerActive := false)
  }

  /** The reason handleConfirm records, or None when it does nothing: no
      button selected, or "other" with only white space typed. "other" takes
      the typed text, trimmed; any other button its own reason. */
  function UnlockReason(selected: Option<string>, customText: string): (r: Option<string>)
    ensures r.None? <==> selected.None? || (selected.value == "other" && AllWhiteSpace(customText))
    ensures selected.Some? && selected.value != "other" ==> r == selected
    ensures selected == Some("other") && r.Some? ==> r.value == Trim(customText) && r.value != ""
  {
    TrimEmptyIff(customText);
    match selected
    case None => None
    case Some(reason) =>
      if reason == "other" then
        var typed := Trim(customText);
        if typed == "" then None else Some(typed)
      else Some(reason)
  }

  /** The milliseconds updateTimer shows: time since the start less the
      paused total and, while paused, less the current pause. */
  function Elapsed(c: Clock, now: int): (r: Option<int>)
    ensures r.None? <==> c.startTime.None?
  {
    if c.startTime.None? then None
    else
      var elapsed := now - c.startTime.value - c.totalPausedTime;
      Some(if c.isPaused && c.pauseStartTime.Some? then elapsed - (now - c.pauseStartTime.value) else elapsed)
  }

  /** The four fields of the running clock. */
  function Display(c: Clock, now: int): (r: Option<ClockFace>)
    ensures r.None? <==> c.startTime.None?
    ensures r.Some? && Elapsed(c, now).value >= 0 ==>
      0 <= r.value.hours < 24 && 0 <= r.value.minutes < 60 && 0 <= r.value.seconds < 60
  {
    match Elapsed(c, now)
    case None => None
    case Some(ms) =>
      if ms >= 0 then
        FaceBounds(ms);
        Some(Face(ms))
      else Some(Face(ms))
  }

  // --------------------------------------------------- the stored events

  predicate IsOpenTimerStart(e: Event) {
    e.kind == "timer_start" && e.endDate.None?
  }

  /** `events.find(e => e.type === 'timer_start' && !e.endDate)`, as a position. */
  function FindOpen(events: seq<Event>): (r: Option<nat>)
    ensures r.Some? ==> r.value < |events| && IsOpenTimerStart(events[r.value])
    ensures r.Some? ==> forall j :: 0 <= j < r.value ==> !IsOpenTimerStart(events[j])
    ensures r.None? ==> forall j :: 0 <= j < |events| ==> !IsOpenTimerStart(events[j])
  {
    FindFirst(events, IsOpenTimerStart)
  }

  /** The event startTimer and startCustomTimer add: stamped `id`, starting
      at `start`, open, with an empty logbook. */
  function NewTimerEvent(id: int, start: int): (r: Event)
    ensures IsOpenTimerStart(r) && Logbook(r) == []
    ensures r.id == id && r.startDate == start
  {
    Event(id, start, "timer_start", None, Some([]))
  }

  /** stopTimer's update of the stored events: the first open timer_start
      event gets its end date, and then no timer_start event up to it is open. */
  function CloseOpen(events: seq<Event>, end: int): (r: seq<Event>)
    ensures |r| == |events|
    ensures FindOpen(events).None? ==> r == events
    ensures FindOpen(events).Some? ==>
      var i := FindOpen(events).value;
      && r[i] == events[i].(endDate := Some(end))
      && (forall j :: 0 <= j < |events| && j != i ==> r[j] == events[j])
      && (forall j :: 0 <= j <= i ==> !IsOpenTimerStart(r[j]))
  {
    match FindOpen(events)
    case None => events
    case Some(i) => events[i := events[i].(endDate := Some(end))]
  }

  /** The logbook entry a confirmed pause records. */
  function UnlockEntry(reason: string, now: int): (r: LogbookEntry)
    ensures |r.note| == 21 + |reason| && r.note[21..] == reason
    ensures r.id == now && r.date == now
  {
    LogbookEntry(now, "Unlock Reason", "Device unlocked for: " + reason, now)
  }

  /** handleConfirm's update of the stored events: the entry goes at the end
      of the first open timer_start event's logbook (created when missing);
      that event stays the first open one and no other event changes. */
  function AppendToOpen(events: seq<Event>, entry: LogbookEntry): (r: seq<Event>)
    ensures |r| == |events|
    ensures FindOpen(r) == FindOpen(events)
    ensures FindOpen(events).None? ==> r == events
    ensures FindOpen(events).Some? ==>
      var i := FindOpen(events).value;
      && r[i].(logbook := events[i].logbook) == events[i]
      && r[i].logbook == Some(Logbook(events[i]) + [entry])
      && (forall j :: 0 <= j < |events| && j != i ==> r[j] == events[j])
  {
    match FindOpen(events)
    case None => events
    case Some(i) =>
      var r := events[i := events[i].(logbook := Some(Logbook(events[i]) + [entry]))];
      assert IsOpenTimerStart(r[i]);
      assert forall j :: 0 <= j < i ==> r[j] == events[j];
      r
  }

  // ----------------------------------------------------------- persistence

  /** The record saveState() writes under `timer_<user>`. */
  function Snapshot(c: Clock): (r: TimerRecord)
    ensures r.isPaused.Some? && r.totalPausedTime.Some?
  {
    TimerRecord(c.startTime, c.endTime, Some(c.isPaused), c.pauseStartTime, Some(c.totalPausedTime))
  }

  /** loadSavedState() on a stored record: only a started, unstopped record
      is taken; `isPaused` defaults to false and the paused total to 0; the
      interval is installed unless the record was paused. */
  function Restore(c: Clock, rec: TimerRecord): (r: Clock)
    ensures !(rec.startTime.Some? && rec.endTime.None?) ==> r == c
    ensures rec.startTime.Some? && rec.endTime.None? ==>
      && r.startTime == rec.startTime && r.endTime == c.endTime
      && r.isPaused == rec.isPaused.GetOr(false)
      && r.pauseStartTime == rec.pauseStartTime
      && r.totalPausedTime == rec.totalPausedTime.GetOr(0)
      && r.timerActive == (!r.isPaused || c.timerActive)
  {
    if rec.startTime.Some? && rec.endTime.None? then
      var paused := rec.isPaused.GetOr(false);
      c.(startTime := rec.startTime, isPaused := paused, pauseStartTime := rec.pauseStartTime,
         totalPausedTime := rec.totalPausedTime.GetOr(0), timerActive := !paused || c.timerActive)
    else c
  }

  // ---------------------------------------------------------------- lemmas

  /** While paused, the shown time stands still at the moment of the pause. */
  lemma PausedElapsedFrozen(c: Clock, now: int)
    requires c.startTime.Some? && c.isPaused && c.pauseStartTime.Some?
    ensures Elapsed(c, now) == Some(c.pauseStartTime.value - c.startTime.value - c.totalPausedTime)
  {
  }

  /** Pausing keeps the time shown at the moment of the pause, for as long as
      the pause lasts; resuming later continues from that same time, so the
      paused interval is exactly left out. */
  lemma PauseResumeContinuity(c: Clock, t: int, t': int, later: int)
    requires ClockInvariant(c) && c.startTime.Some? && !c.isPaused
    ensures Elapsed(Pause(c, t), t') == Elapsed(c, t)
    ensures Elapsed(Resume(Pause(c, t), t'), later) == Some(Elapsed(c, t).value + (later - t'))
  {
  }

  /** While running, the shown time advances with the clock. */
  lemma RunningElapsedAdvances(c: Clock, now: int, d: int)
    requires c.startTime.Some? && !c.isPaused
    ensures Elapsed(c, now + d) == Some(Elapsed(c, now).value + d)
  {
  }

  /** A fresh start shows the time since its start, split as the clock face. */
  lemma BeginShowsSinceStart(start: int, now: int)
    requires start <= now
    ensures Elapsed(Begin(start), now) == Some(now - start)
    ensures var f := Display(Begin(start), now).value;
      && 0 <= f.hours < 24 && 0 <= f.minutes < 60 && 0 <= f.seconds < 60
      && TotalMs(Duration(f.days, f.hours, f.minutes)) + f.seconds * MsPerSecond <= now - start
      && now - start < TotalMs(Duration(f.days, f.hours, f.minutes)) + f.seconds * MsPerSecond + MsPerSecond
  {
    FaceBounds(now - start);
  }

  /** Loading what was saved of a started, unstopped clock restores it; the
      interval is running exactly when the clock was not paused. */
  lemma {:induction false} RestoreAfterSnapshot(c: Clock, before: Clock)
    requires ClockInvariant(c) && c.startTime.Some? && c.endTime.None?
    ensures var r := Restore(before, Snapshot(c));
      && r.(timerActive := c.timerActive, endTime := c.endTime) == c
      && r.endTime == before.endTime
      && (!c.isPaused ==> r.timerActive)
  {
    var r := Restore(before, Snapshot(c));
    assert r.isPaused == c.isPaused;
  }

  /** In particular the constructor's load restores a saved running clock. */
  lemma StartupRestores(c: Clock)
    requires ClockInvariant(c) && c.startTime.Some? && c.endTime.None?
    ensures Restore(Idle, Snapshot(c)) == c.(timerActive := !c.isPaused)
  {
    RestoreAfterSnapshot(c, Idle);
  }

  /** A stopped clock, once saved, is never loaded back. */
  lemma StoppedNotRestored(c: Clock, now: int, before: Clock)
    requires c.startTime.Some?
    ensures Restore(before, Snapshot(Stop(c, now))) == before
  {
  }

  /** Every operation keeps the clock invariant; so does loading, into a
      clock whose interval is not running (as in the constructor), any record
      saved from a clock that kept it. */
  lemma OperationsKeepInvariant(c: Clock, now: int, c0: Clock)
    requires ClockInvariant(c) && ClockInvariant(c0) && !c0.timerActive
    ensures ClockInvariant(Stop(c, now)) && ClockInvariant(Resume(c, now)) && ClockInvariant(Pause(c, now))
    ensures ClockInvariant(Restore(c0, Snapshot(c)))
  {
  }

  /** As written, a confirmed pause is not saved: the record in storage is
      the one togglePause wrote before the dialog opened, of the running
      clock. Reloaded before the resume, the clock runs again and counts the
      pause as elapsed time. */
  lemma {:induction false} UnsavedPauseLostOnReload(c: Clock, t: int, later: int)
    requires ClockInvariant(c) && c.startTime.Some? && c.endTime.None? && !c.isPaused
    ensures var reloaded := Restore(Idle, Snapshot(c));
      && !reloaded.isPaused && reloaded.timerActive
      && Elapsed(reloaded, later) == Some(Elapsed(Pause(c, t), later).value + (later - t))
  {
    StartupRestores(c);
  }

  /** For instance: started at 0, paused at one second, reloaded at five
      seconds, the clock shows five seconds instead of one. */
  lemma UnsavedPauseExample()
    ensures var c := Begin(0);
      && Elapsed(Pause(c, 1000), 5000) == Some(1000)
      && Elapsed(Restore(Idle, Snapshot(c)), 5000) == Some(5000)
  {
  }

  /** Saved after the pause, the clock comes back paused, showing the time
      of the pause. */
  lemma {:induction false} SavedPauseSurvivesReload(c: Clock, t: int, later: int)
    requires ClockInvariant(c) && c.startTime.Some? && c.endTime.None? && !c.isPaused
    ensures var reloaded := Restore(Idle, Snapshot(Pause(c, t)));
      && reloaded == Pause(c, t)
      && Elapsed(reloaded, later) == Elapsed(c, t)
  {
    StartupRestores(Pause(c, t));
  }

  // ------------------------------------------------------------- the class

  class TimerManager {
    var timerActive: bool
    var startTime: Option<int>
    var endTime: Option<int>
    var isPaused: bool
    var pauseStartTime: Option<int>
    var totalPausedTime: int
    const eventManager: EventManager

    function State(): Clock
      reads this
    {
      Clock(timerActive, startTime, endTime, isPaused, pauseStartTime, totalPausedTime)
    }

    /** The `timer_<user>` records after saveState(), given what they held before. */
    function SavedTimers(before: map<string, TimerRecord>): map<string, TimerRecord>
      reads this, eventManager.storage
    {
      var user := eventManager.storage.SignedIn();
      if user.Some? then before[user.value := Snapshot(State())] else before
    }

    /** The signed-in user's events once handleConfirm has appended `entry`
        to the first open timer_start event; None when nothing is written
        (nobody signed in, or no open event). */
    function Unlocked(before: map<string, seq<Event>>, entry: LogbookEntry): (r: Option<seq<Event>>)
      reads eventManager.storage
      ensures r.Some? ==> eventManager.storage.SignedIn().Some?
    {
      var user := eventManager.storage.SignedIn();
      if user.None? then None
      else
        var events := if user.value in before then before[user.value] else [];
        if FindOpen(events).Some? then Some(AppendToOpen(events, entry)) else None
    }

    /** The clock after loadSavedState() from `c`. */
    function Loaded(c: Clock): Clock
      reads eventManager.storage
    {
      var user := eventManager.storage.SignedIn();
      if user.Some? then Restore(c, eventManager.storage.TimerOf(user.value)) else c
    }

    constructor (eventManager: EventManager)
      ensures this.eventManager == eventManager
      ensures State() == Loaded(Idle)
    {
      timerActive := false;
      startTime := None;
      endTime := None;
      isPaused := false;
      pauseStartTime := None;
      totalPausedTime := 0;
      this.eventManager := eventManager;
      new;
      LoadSavedState();
    }

    method LoadSavedState()
      modifies this
      ensures State() == Loaded(old(State()))
    {
      var currentUser := eventManager.storage.SignedIn();
      if currentUser.None? { return; }
      var saved := eventManager.storage.TimerOf(currentUser.value);
      if saved.startTime.Some? && saved.endTime.None? {
        startTime := saved.startTime;
        isPaused := saved.isPaused.GetOr(false);
        pauseStartTime := saved.pauseStartTime;
        totalPausedTime := saved.totalPausedTime.GetOr(0);
        if !isPaused {
          timerActive := true;
        }
      }
    }

    method SaveState()
      modifies eventManager.storage`timers
      ensures eventManager.storage.timers == SavedTimers(old(eventManager.storage.timers))
    {
      var currentUser := eventManager.storage.SignedIn();
      if currentUser.None? { return; }
      var state := TimerRecord(startTime, endTime, Some(isPaused), pauseStartTime, Some(totalPausedTime));
      eventManager.storage.timers := eventManager.storage.timers[currentUser.value := state];
    }

    /** startTimer(): a no-op while the interval runs; otherwise a fresh
        clock from `now`, saved, and one new open timer_start event. */
    method StartTimer(now: int)
      modifies this, eventManager`events, eventManager.storage`timers, eventManager.storage`events
      ensures old(timerActive) ==>
        && State() == old(State()) && eventManager.events == old(eventManager.events)
        && eventManager.storage.timers == old(eventManager.storage.timers)
        && eventManager.storage.events == old(eventManager.storage.events)
      ensures !old(timerActive) ==>
        && State() == Begin(now)
        && eventManager.storage.timers == SavedTimers(old(eventManager.storage.timers))
        && eventManager.events == old(eventManager.events) + [NewTimerEvent(now, now)]
        && eventManager.storage.events == eventManager.Persisted(old(eventManager.storage.events), eventManager.events)
    {
      if timerActive { return; }
      startTime := Some(now);
      endTime := None;
      isPaused := false;
      pauseStartTime := None;
      totalPausedTime := 0;
      timerActive := true;
      SaveState();
      eventManager.AddEvent(NewTimerEvent(now, now));
    }

    /** startCustomTimer(): the same from the chosen date `selected`, whether
        or not the interval already runs. */
    method StartCustomTimer(selected: int, now: int)
      modifies this, eventManager`events, eventManager.storage`timers, eventManager.storage`events
      ensures State() == Begin(selected)
      ensures eventManager.storage.timers == SavedTimers(old(eventManager.storage.timers))
      ensures eventManager.events == old(eventManager.events) + [NewTimerEvent(now, selected)]
      ensures eventManager.storage.events == eventManager.Persisted(old(eventManager.storage.events), eventManager.events)
    {
      startTime := Some(selected);
      endTime := None;
      isPaused := false;
      pauseStartTime := None;
      totalPausedTime := 0;
      timerActive := true;
      SaveState();
      eventManager.AddEvent(NewTimerEvent(now, selected));
    }

    /** stopTimer(): with a start, the clock stops and is saved, and the
        signed-in user's first open timer_start event, read back from
        storage, is closed; that list becomes the event manager's. */
    method StopTimer(now: int)
      modifies this, eventManager`events, eventManager.storage`timers, eventManager.storage`events
      ensures old(startTime).None? ==>
        && State() == old(State()) && eventManager.events == old(eventManager.events)
        && eventManager.storage.timers == old(eventManager.storage.timers)
        && eventManager.storage.events == old(eventManager.storage.events)
      ensures old(startTime).Some? ==>
        && State() == Stop(old(State()), now)
        && eventManager.storage.timers == SavedTimers(old(eventManager.storage.timers))
      ensures old(startTime).Some? ==>
        var user := eventManager.storage.SignedIn();
        if user.Some? && FindOpen(old(eventManager.storage.EventsOf(user.value))).Some? then
          var closed := CloseOpen(old(eventManager.storage.EventsOf(user.value)), now);
          eventManager.storage.events == old(eventManager.storage.events)[user.value := closed]
          && eventManager.events == closed
        else
          eventManager.storage.events == old(eventManager.storage.events)
          && eventManager.events == old(eventManager.events)
    {
      if startTime.None? { return; }
      timerActive := false;
      endTime := Some(now);
      SaveState();
      var currentUser := eventManager.storage.SignedIn();
      if currentUser.Some? {
        var events := eventManager.storage.EventsOf(currentUser.value);
        var found := FindOpen(events);
        if found.Some? {
          var i := found.value;
          events := events[i := events[i].(endDate := Some(now))];
          eventManager.storage.events := eventManager.storage.events[currentUser.value := events];
          eventManager.events := events;
        }
      }
    }

    /** togglePause(): resumes a paused clock; from a running one it only
        opens the reason dialog. Either way the clock is then saved. */
    method TogglePause(now: int)
      modifies this, eventManager.storage`timers
      ensures State() == if old(isPaused) then Resume(old(State()), now) else old(State())
      ensures eventManager.storage.timers == SavedTimers(old(eventManager.storage.timers))
    {
      if isPaused {
        isPaused := false;
        if pauseStartTime.Some? {
          totalPausedTime := totalPausedTime + (now - pauseStartTime.value);
          pauseStartTime := None;
        }
        timerActive := true;
      }
      SaveState();
    }

    /** handleConfirm in the reason dialog, with the selected button's reason
        (None when no button is selected) and the typed text. A recorded
        reason pauses the clock (which is not saved) and goes into the
        logbook of the signed-in user's first open timer_start event. */
    method ConfirmPause(selected: Option<string>, customText: string, now: int)
      modifies this, eventManager`events, eventManager.storage`events
      ensures UnlockReason(selected, customText).None? ==>
        State() == old(State()) && eventManager.events == old(eventManager.events)
        && eventManager.storage.events == old(eventManager.storage.events)
      ensures UnlockReason(selected, customText).Some? ==>
        var reason := UnlockReason(selected, customText).value;
        var added := Unlocked(old(eventManager.storage.events), UnlockEntry(reason, now));
        && State() == Pause(old(State()), now)
        && (added.Some? ==>
              && eventManager.storage.events == old(eventManager.storage.events)[eventManager.storage.SignedIn().value := added.value]
              && eventManager.events == added.value)
        && (added.None? ==>
              && eventManager.storage.events == old(eventManager.storage.events)
              && eventManager.events == old(eventManager.events))
    {
      var reason := UnlockReason(selected, customText);
      if reason.None? { return; }
      isPaused := true;
      pauseStartTime := Some(now);
      timerActive := false;
      RecordUnlock(reason.value, now);
    }

    /** The logbook half of handleConfirm: the unlock entry goes at the end
        of the signed-in user's first open timer_start event, stored and
        shown; nothing is written when there is none. */
    method RecordUnlock(reason: string, now: int)
      modifies eventManager`events, eventManager.storage`events
      ensures var added := Unlocked(old(eventManager.storage.events), UnlockEntry(reason, now));
        && (added.Some? ==>
              && eventManager.storage.events == old(eventManager.storage.events)[eventManager.storage.SignedIn().value := added.value]
              && eventManager.events == added.value)
        && (added.None? ==>
              && eventManager.storage.events == old(eventManager.storage.events)
              && eventManager.events == old(eventManager.events))
    {
      var currentUser := eventManager.storage.SignedIn();
      if currentUser.Some? {
        var events := eventManager.storage.EventsOf(currentUser.value);
        var found := FindOpen(events);
        if found.Some? {
          var i := found.value;
          var entry := UnlockEntry(reason, now);
          events := events[i := events[i].(logbook := Some(Logbook(events[i]) + [entry]))];
          eventManager.storage.events := eventManager.storage.events[currentUser.value := events];
          eventManager.events := events;
        }
      }
    }

    /** handleConfirm followed by saveState(), so that a reload before the
        resume finds the clock paused. */
    method ConfirmPauseAndSave(selected: Option<string>, customText: string, now: int)
      modifies this, eventManager`events, eventManager.storage`events, eventManager.storage`timers
      ensures UnlockReason(selected, customText).None? ==>
        && State() == old(State()) && eventManager.storage.timers == old(eventManager.storage.timers)
        && eventManager.events == old(eventManager.events)
        && eventManager.storage.events == old(eventManager.storage.events)
      ensures UnlockReason(selected, customText).Some? ==>
        var reason := UnlockReason(selected, customText).value;
        var added := Unlocked(old(eventManager.storage.events), UnlockEntry(reason, now));
        && State() == Pause(old(State()), now)
        && eventManager.storage.timers == SavedTimers(old(eventManager.storage.timers))
        && (added.Some? ==>
              && eventManager.storage.events == old(eventManager.storage.events)[eventManager.storage.SignedIn().value := added.value]
              && eventManager.events == added.value)
        && (added.None? ==>
              && eventManager.storage.events == old(eventManager.storage.events)
              && eventManager.events == old(eventManager.events))
    {
      ConfirmPause(selected, customText, now);
      if UnlockReason(selected, customText).Some? {
        SaveState();
      }
    }

    /** openLogbook(): opens the logbook of the signed-in user's first open
        timer_start event, as stored. */
    method OpenLogbook()
      modifies eventManager`events, eventManager`currentEventId
      ensures var user := eventManager.storage.SignedIn();
        if user.Some? && FindOpen(eventManager.storage.EventsOf(user.value)).Some? then
          var e := eventManager.storage.EventsOf(user.value)[FindOpen(eventManager.storage.EventsOf(user.value)).value];
          eventManager.currentEventId == Some(e.id)
          && eventManager.events == SortLogbook(old(eventManager.events), Some(e.id))
        else
          eventManager.currentEventId == old(eventManager.currentEventId)
          && eventManager.events == old(eventManager.events)
    {
      var currentUser := eventManager.storage.SignedIn();
      if currentUser.Some? {
        var events := eventManager.storage.EventsOf(currentUser.value);
        var found := FindOpen(events);
        if found.Some? {
          var id := events[found.value].id;
          eventManager.currentEventId := Some(id);
          eventManager.OpenLogbookModal(id);
        }
      }
    }

    /** What updateTimer() shows at `now`. */
    function Shown(now: int): Option<ClockFace>
      reads this
    {
      Display(State(), now)
    }
  }
}
