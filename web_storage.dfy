/** The web variant's records and its `localStorage`, one field per key
    family. A stored value is the record JSON.stringify wrote, read back with
    JSON.parse; a key that is absent reads as the default the source supplies
    with `|| '{}'` or `|| '[]'`. Dates are epoch milliseconds. */
module WebStorage {
  import opened Js

  datatype LogbookEntry = LogbookEntry(id: int, title: string, note: string, date: int)

  /** An event; `kind` is the JSON field `type`. An absent `endDate` or
      `logbook` is None. */
  datatype Event = Event(id: int, startDate: int, kind: string, endDate: Option<int>,
                         logbook: Option<seq<LogbookEntry>>)

  /** The record under `timer_<user>`; a field that is null or absent is None. */
  datatype TimerRecord = TimerRecord(startTime: Option<int>, endTime: Option<int>, isPaused: Option<bool>,
                                     pauseStartTime: Option<int>, totalPausedTime: Option<int>)

  /** A value of the `users` object. */
  datatype UserRecord = UserRecord(username: string, password: string, createdAt: int)

  const NoTimerRecord := TimerRecord(None, None, None, None, None)

  class LocalStorage {
    var currentUser: Option<string>
    var rememberedUser: Option<string>
    /** The `users` key; absent reads as the empty object. */
    var users: map<string, UserRecord>
    /** The `events_<user>` keys. */
    var events: map<string, seq<Event>>
    /** The `timer_<user>` keys. */
    var timers: map<string, TimerRecord>

    constructor ()
      ensures currentUser.None? && rememberedUser.None?
      ensures users == map[] && events == map[] && timers == map[]
    {
      currentUser := None;
      rememberedUser := None;
      users := map[];
      events := map[];
      timers := map[];
    }

    /** `localStorage.getItem('currentUser')` checked for truthiness: an empty
        name counts as nobody signed in. */
    function SignedIn(): (u: Option<string>)
      reads this
      ensures u.Some? ==> u == currentUser && u.value != ""
      ensures u.None? ==> currentUser.None? || currentUser.value == ""
    {
      if currentUser.Some? && currentUser.value != "" then currentUser else None
    }

    /** `JSON.parse(localStorage.getItem('events_' + user) || '[]')`. */
    function EventsOf(user: string): seq<Event>
      reads this
    {
      if user in events then events[user] else []
    }

    /** `JSON.parse(localStorage.getItem('timer_' + user) || '{}')`. */
    function TimerOf(user: string): TimerRecord
      reads this
    {
      if user in timers then timers[user] else NoTimerRecord
    }
  }
}
