# chastracker session bookkeeping in Dafny

This project models the bookkeeping core of chastracker, an app that keeps a
log of chastity sessions. A session is started, can be paused with a
reason, and is stopped. Logbook notes are attached to sessions, and users
sign in. The app exists in two variants that share no code:

- **Desktop variant** (`app.js`, class `ChastityTimer`). A session is keyed by
  its ISO start string. Stopped starts are kept in a Set so they can never be
  restarted. Logbook notes form one flat list tagged with the start. The
  state is saved to a JSON data file and loaded back from it. The desktop
  credential store is `user-manager.js` (bcrypt hashes in an electron-store).
- **Web variant**:
  - `src/timer/TimerManager.js`, the session clock with pause and resume;
  - `src/events/EventManager.js`, events keyed by numeric id, each with its
    own logbook;
  - `src/auth/AuthManager.js`, sign-in over `localStorage`;
  - `src/utils/passwordUtils.js`, the hex-encoded password hash.

How the model represents the source:

- Dates are integer epoch milliseconds. An ISO string produced by
  `toISOString` stands for the millisecond value it prints, which it
  determines. So comparing ISO strings is comparing integers.
- Every read of the clock (`new Date()`, `Date.now()`) inside one handler is
  the same parameter `now`.
- An installed `setInterval` is a boolean `timerActive`.
- The answer to a `confirm` dialog is a boolean parameter.
- JavaScript's truncating `%`, `Math.floor`, `setMilliseconds(0)`,
  `toString(radix)`, `padStart`, `trim`, `find`, `filter`, `splice` and the
  stable `sort` are written out in module `Js`. Falsy tests are kept
  exactly: an id of 0, an empty user name and an empty data path all count as
  absent.
- A JavaScript `Set` is the sequence of its elements in insertion order. This
  is what `Array.from` and `new Set(array)` observe.
- Storage is typed state:
  - the desktop data file is one record, `DesktopSession.SavedState`;
  - `localStorage` is class `WebStorage.LocalStorage`, one field per key
    family (`users`, `currentUser`, `rememberedUser`, `events_<user>`,
    `timer_<user>`);
  - the electron-store is a field of `UserStore.UserManager`.
- Hash functions are uninterpreted parameters: the SHA-256 digest of the
  UTF-8 encoding, `bcrypt.hash` (with its salt) and `bcrypt.compare`.

The files:

| file | module | models |
|---|---|---|
| `js.dfy` | `Js` | JavaScript built-ins the core relies on |
| `duration.dfy` | `Duration` | `calculateDuration` and the clock face of both variants |
| `desktop_session.dfy` | `DesktopSession` | `app.js` `ChastityTimer` |
| `web_storage.dfy` | `WebStorage` | the web records and `localStorage` |
| `events.dfy` | `Events` | `src/events/EventManager.js` |
| `timer.dfy` | `Timer` | `src/timer/TimerManager.js` |
| `passwords.dfy` | `Passwords` | `src/utils/passwordUtils.js` |
| `auth.dfy` | `Auth` | `src/auth/AuthManager.js` |
| `user_store.dfy` | `UserStore` | `user-manager.js` |

Each class is written the same way:

- A pure specification function gives the new state: `DesktopSession.Stop`,
  `Timer.Resume`, `Events.WithEntry`, `Auth.Register` and so on.
- Each class method is proved to produce exactly that new state, and exactly
  what it writes to storage.
- The lemmas state the properties of the specification functions:
  round trips, invariants, bounds and order.
- `ChastityTimer.Valid()` means the stopped set has no repeats and a running
  start is a whole second. The constructor establishes it and every method
  keeps it.

## Model

| member | source | states |
|---|---|---|
| `Js.Rem` | app.js:505-508 | JavaScript `%`: the remainder takes the sign of the dividend, lies strictly between minus and plus the divisor, and differs from the dividend by a multiple of the divisor; together these fix its value |
| `Js.NatToString` | app.js:618-620 | `toString(radix)` of a natural number: at least one digit, exactly one digit iff the number is below the radix |
| `Js.NatToStringReadsBack` | app.js:618-620 | every character `toString(radix)` writes is a digit of that radix, there is no leading zero, and the digits read back as the number |
| `Js.PadStart` | app.js:618-620 | `padStart`: the result has at least the target length, ends with the input, and the filler precedes it |
| `Js.Trim` | src/timer/TimerManager.js:232 | `trim()` gives the part of the text between a white-space prefix and a white-space suffix, and that part neither starts nor ends with white space |
| `Js.TrimEmptyIff` | src/timer/TimerManager.js:232-233 | the trimmed reason is empty exactly when every typed character is white space |
| `Js.SetAdd` | app.js:499 | `Set.add`: the element is present afterwards, nothing else is added, a present element leaves the set as it was, and the set stays repeat-free |
| `Js.AddAll` | app.js:453 | adding an array's elements one by one yields exactly the elements of both, with no repeats created |
| `Js.SetOf` | app.js:453 | `new Set(array)` is repeat-free and holds exactly the array's elements |
| `Js.SetOfDistinct` | app.js:452-454 | `new Set(Array.from(set))` gives back the same set in the same order |
| `Js.Filter` | src/events/EventManager.js:133 | `filter` keeps exactly the elements that satisfy the predicate |
| `Js.FilterMultiset` | src/events/EventManager.js:133 | `filter` keeps each accepted element as often as it occurs and drops every rejected one |
| `Js.FilterRemovesOnly` | src/events/EventManager.js:133 | when exactly one element is rejected, `filter` is `splice` of that position: the others stay in their order |
| `Js.FindFirst` | src/events/EventManager.js:118 | `find` yields the first position that satisfies the predicate, or none when no position does |
| `Js.SpliceOne` | app.js:658 | `splice(i, 1)` with an index in range removes exactly position i; an index past the end changes nothing |
| `Js.SpliceOneAt` | app.js:658 | removing position i keeps the elements before it, shifts those after it by one, and takes exactly that element out of the multiset |
| `Js.FilterSpliceRejected` | app.js:637-658 | removing an entry of the shown event leaves the entries of every other event as they were, in order |
| `Js.SortDesc` | app.js:639 | `sort` by a newest-first comparator gives a newest-first permutation of the input |
| `Js.PermutationKeepsDistinct` | app.js:639 | a reordering, such as the sort, of a repeat-free list is repeat-free |
| `Js.InsertDescSorted` | app.js:639 | inserting into a newest-first list keeps it newest first |
| `Js.InsertDescMultiset` | app.js:639 | inserting adds exactly the one element to the list's contents |
| `Js.SortedDescPairwise` | app.js:639 | newest first between neighbours means that no element is newer than any element before it |
| `Duration.CalculateDuration` | app.js:504-510 | for an end at or after the start: at least 0 days, fewer than 24 hours and 60 minutes, the whole minutes within one minute of the difference (src/events/EventManager.js:190-196 computes the same) |
| `Duration.Face` | src/timer/TimerManager.js:300-303 | the four fields updateTimer shows; its bounds and exactness to the second are stated in `Duration.FaceBounds` |
| `Duration.DurationBounds` | app.js:504-510 | for a difference of zero or more: at least 0 days, fewer than 24 hours and 60 minutes, and the whole minutes come to within one minute of the difference |
| `Duration.FaceBounds` | app.js:600-612 | the running clock's fields: seconds are below 60 and the face is exact to the second |
| `Duration.FutureStart` | app.js:504-510 | a start one millisecond in the future shows -1 days, -1 hours and -1 minutes |
| `DesktopSession.Normalize` | app.js:559-560 | `setMilliseconds(0)` gives the whole second at or below the time |
| `DesktopSession.Start` | app.js:557-568 | a start whose whole second is in the stopped set changes nothing; otherwise `startTime` becomes that whole second and the interval runs |
| `DesktopSession.RecordEvent` | app.js:486-502 | saveEvent appends one event from the whole-second start to the whole-second now, with its duration, and adds the start to the stopped set and nothing else; the start, the logbook, the running flag and the current event are unchanged |
| `DesktopSession.Stop` | app.js:582-598 | with a running start, exactly one event is appended and the rest are kept; the stopped set gains exactly that start and nothing else; `startTime` becomes null in every case |
| `DesktopSession.Clear` | app.js:622-629 | events, the stopped set and the logbook are all emptied together; nothing else changes |
| `DesktopSession.SubmitEntry` | app.js:355-367 | one entry tagged with `currentEventId` is appended and the other entries are unchanged |
| `DesktopSession.DeleteAt` | app.js:656-659 | delete at the captured index changes only the logbook, and does nothing for an index past the end |
| `DesktopSession.Tagged` | app.js:637-638 | the entries with the current event id, each paired with its index in the main list (all of them, and only them), in the order of the main list, so no index appears twice |
| `DesktopSession.EntriesView` | app.js:636-644 | the logbook list holds exactly the entries of the current event, each once and with its true index, newest timestamp first |
| `DesktopSession.PadNumber` | app.js:618-620 | at least two characters; a single digit gets a leading '0'; 10 and above is the plain decimal |
| `DesktopSession.LoadCollections` | app.js:449-457 | each collection present in the file replaces the current one, an empty one too; `stoppedEvents` becomes the file's elements without repeats; an absent collection stays; the other fields and the well-formedness invariant are kept |
| `DesktopSession.Load` | app.js:443-460 | loading keeps the session well formed |
| `DesktopSession.StartRejectsStopped` | app.js:559-566 | a start in a second that was already stopped is refused and the state is unchanged |
| `DesktopSession.StoppedCannotRestart` | app.js:586-592 | after stopping, any start in the same second is refused |
| `DesktopSession.StoppedPersists` | app.js:557-598 | start, stop, submit and delete never take a start out of the stopped set |
| `DesktopSession.OperationsKeepConsistent` | app.js:557-629 | every operation but loading keeps "no repeats, whole-second start, running start not stopped" |
| `DesktopSession.LoadAtStartupConsistent` | app.js:443-460 | a load with no timer running gives a consistent session |
| `DesktopSession.Snapshot` | app.js:469-479 | every collection is written and stamped with the save time, so a load replaces each one; the round trip is `DesktopSession.LoadAfterSave` |
| `DesktopSession.LoadAfterSave` | app.js:443-484 | loading what saveState wrote restores the events, the stopped set (in order) and the logbook, and restarts the saved start |
| `DesktopSession.StartupRoundTrip` | app.js:443-484 | the start-up load of a saved session gives it back, except the modal's current event |
| `DesktopSession.StopDuration` | app.js:486-510 | a recorded event's duration is exact to the minute |
| `DesktopSession.DeleteFromView` | app.js:644-658 | deleting a shown row removes exactly that entry and leaves every other event's entries unchanged and in order |
| `DesktopSession.ChastityTimer.constructor` | app.js:16-25 | empty collections, no start, no data path |
| `DesktopSession.ChastityTimer.SaveState` | app.js:469-484 | with a data path, the file holds the snapshot; without one it is untouched |
| `DesktopSession.ChastityTimer.StartTimer` | app.js:557-580 | the new state is `Start`; the file is saved only when the start is accepted |
| `DesktopSession.ChastityTimer.SaveEvent` | app.js:486-502 | the new state is `RecordEvent`, then the file is saved |
| `DesktopSession.ChastityTimer.StopTimer` | app.js:582-598 | the new state is `Stop`, then the file is saved |
| `DesktopSession.ChastityTimer.ClearEvents` | app.js:622-629 | the new state is `Clear`, then the file is saved |
| `DesktopSession.ChastityTimer.OpenEventLogbook` | app.js:544-551 | the current event becomes the event's start |
| `DesktopSession.ChastityTimer.OpenCurrentLogbook` | app.js:288-296 | the running start becomes the current event; with no start nothing changes |
| `DesktopSession.ChastityTimer.SubmitLogbookEntry` | app.js:355-377 | the new state is `SubmitEntry`, then the file is saved |
| `DesktopSession.ChastityTimer.DeleteLogbookEntry` | app.js:656-660 | the new state is `DeleteAt`, then the file is saved |
| `DesktopSession.ChastityTimer.LoadSavedState` | app.js:443-467 | without a path or a file nothing changes; otherwise the new state is `Load`, and the file is saved again exactly when the saved start restarts |
| `DesktopSession.ChastityTimer.ReceiveDataPath` | app.js:69-73 | the path is stored; a non-empty one loads the file as loadSavedState does (the loaded state, and the file rewritten exactly when the load restarts the timer); with no file, or an empty path, nothing else changes |
| `DesktopSession.SaveThenReload` | app.js:443-484 | a new timer reloaded from what a timer saved has the same events, stopped set, logbook and start, running exactly when a start was saved |
| `WebStorage.LocalStorage.SignedIn` | src/events/EventManager.js:199-200 | `currentUser` counts as signed in only when it is present and not empty |
| `Events.FindId` | src/events/EventManager.js:118 | the first event with the id, or none when no event has it |
| `Events.WithEntry` | src/events/EventManager.js:117-127 | with an unknown id nothing changes; otherwise only the first event with the id changes, gaining the entry at the end of its logbook, which is created if missing |
| `Events.WithoutEntry` | src/events/EventManager.js:129-136 | with no such event or no logbook nothing changes; otherwise the first event with the id gets its logbook filtered: exactly the entries with other ids, in their order; no other event changes |
| `Events.DeleteKeepsOthers` | src/events/EventManager.js:129-136 | after the delete, each entry with another id occurs as often as before and none with the deleted id is left |
| `Events.DeleteUniqueEntry` | src/events/EventManager.js:129-136 | when one entry holds the id, deleting it removes exactly that position and keeps the others in order |
| `Events.SortLogbook` | src/events/EventManager.js:138-169 | with the id set, the current event's logbook is reordered newest first; every logbook keeps the same entries; no other event changes |
| `Events.CompletedEvents` | src/events/EventManager.js:42-44 | the list shows exactly the events with an end date, newest start first, each as often as in the events |
| `Events.DeleteUndoesAdd` | src/events/EventManager.js:117-136 | adding an entry with a new id and then deleting that id gives the events back |
| `Events.EntryAdded` | src/events/EventManager.js:117-127 | the added entry is in the logbook that the id finds, and no entry is lost from any logbook |
| `Events.CompletedDuration` | src/events/EventManager.js:190-196 | a completed event's duration has the same bounds as in app.js |
| `Events.EventManager.constructor` | src/events/EventManager.js:2-6 | no events and no current event |
| `Events.EventManager.SaveEvents` | src/events/EventManager.js:198-204 | the signed-in user's events key gets the list; with nobody signed in nothing is written |
| `Events.EventManager.AddEvent` | src/events/EventManager.js:24-28 | exactly one event is appended at the end, then saved |
| `Events.EventManager.ClearEvents` | src/events/EventManager.js:30-36 | a confirmed clear empties and saves the list; a declined one changes nothing |
| `Events.EventManager.AddLogbookEntry` | src/events/EventManager.js:117-127 | the new list is `WithEntry`, saved only when the event exists |
| `Events.EventManager.UpdateLogbookEntries` | src/events/EventManager.js:138-169 | the new list is `SortLogbook` |
| `Events.EventManager.DeleteLogbookEntry` | src/events/EventManager.js:129-136 | without the event or its logbook nothing changes; otherwise `WithoutEntry` is saved, then sorted for display |
| `Events.EventManager.OpenLogbookModal` | src/events/EventManager.js:86-90 | the event becomes current and its logbook is sorted |
| `Events.EventManager.CloseLogbookModal` | src/events/EventManager.js:92-96 | no event is current |
| `Events.EventManager.HandleLogbookSubmit` | src/events/EventManager.js:98-115 | with no current event nothing is added; otherwise the entry stamped now is added, the unsorted list is saved, and the list is then sorted |
| `Events.EventManager.LoadSavedState` | src/events/EventManager.js:206-212 | a stored list for the user replaces the events |
| `Timer.Begin` | src/timer/TimerManager.js:89-93 | a fresh clock: started, running, not ended, not paused, zero paused time |
| `Timer.Stop` | src/timer/TimerManager.js:152-159 | without a start nothing changes; otherwise the interval stops and `endTime` is now, and the pause fields are unchanged |
| `Timer.Resume` | src/timer/TimerManager.js:185-194 | unpaused and running, `now - pauseStartTime` added to the paused total, pause start cleared |
| `Timer.Pause` | src/timer/TimerManager.js:237-241 | paused from now, interval stopped, nothing else changes |
| `Timer.UnlockReason` | src/timer/TimerManager.js:226-234 | no reason exactly when no button is selected, or "other" is chosen with only white space typed; "other" yields the trimmed text and any other button its own reason |
| `Timer.FindOpen` | src/timer/TimerManager.js:174 | the first open timer_start event, or none |
| `Timer.CloseOpen` | src/timer/TimerManager.js:173-177 | only the first open timer_start event gets the end date, and no open timer_start event remains up to it |
| `Timer.AppendToOpen` | src/timer/TimerManager.js:246-258 | only the first open timer_start event gains the entry at the end of its logbook, and it stays the first open one |
| `Timer.Restore` | src/timer/TimerManager.js:34-43 | only a started and unstopped record is loaded; `isPaused` defaults to false and the paused total to 0; the interval runs unless the clock is paused |
| `Timer.Elapsed` | src/timer/TimerManager.js:287-295 | no reading exactly when there is no start; how it moves is stated in `Timer.PausedElapsedFrozen` and `Timer.RunningElapsedAdvances` |
| `Timer.Display` | src/timer/TimerManager.js:287-303 | nothing shown exactly when there is no start; for a non-negative elapsed time, fewer than 24 hours, 60 minutes and 60 seconds |
| `Timer.NewTimerEvent` | src/timer/TimerManager.js:106-113 | the added event is an open timer_start event with an empty logbook, stamped with the given id and start |
| `Timer.UnlockEntry` | src/timer/TimerManager.js:252-257 | the note is the fixed 21-character prefix followed by the reason, so the reason reads back from it; id and date are the confirm time |
| `Timer.Snapshot` | src/timer/TimerManager.js:71-84 | the record always holds `isPaused` and `totalPausedTime`, so a load never falls back to their defaults; the round trip is `Timer.RestoreAfterSnapshot` |
| `Timer.PausedElapsedFrozen` | src/timer/TimerManager.js:291-295 | while paused, the elapsed time is `pauseStartTime - startTime - totalPausedTime`, whatever now is |
| `Timer.PauseResumeContinuity` | src/timer/TimerManager.js:185-241 | a pause keeps the time shown at its start, and resuming continues from it, leaving the paused interval out |
| `Timer.RunningElapsedAdvances` | src/timer/TimerManager.js:287-295 | while running, the elapsed time advances with the clock |
| `Timer.BeginShowsSinceStart` | src/timer/TimerManager.js:287-305 | a fresh clock shows the time since its start, split to the second within the face bounds |
| `Timer.RestoreAfterSnapshot` | src/timer/TimerManager.js:34-84 | loading the saved record of a started, unstopped clock restores every field; the interval runs when not paused |
| `Timer.StartupRestores` | src/timer/TimerManager.js:2-43 | the constructor's load of a saved clock gives it back, running exactly when not paused |
| `Timer.StoppedNotRestored` | src/timer/TimerManager.js:152-168 | a clock saved after stopping is never loaded back |
| `Timer.OperationsKeepInvariant` | src/timer/TimerManager.js:184-241 | "paused exactly when a pause start is held, and never running while paused" survives stop, resume, pause and the constructor's load |
| `Timer.UnsavedPauseLostOnReload` | src/timer/TimerManager.js:184-285 | as written, a reload after a confirmed pause finds the clock running, and it counts the pause as elapsed |
| `Timer.UnsavedPauseExample` | src/timer/TimerManager.js:226-284 | started at 0, paused at 1 s, reloaded at 5 s: the clock shows 5 s instead of 1 s |
| `Timer.SavedPauseSurvivesReload` | src/timer/TimerManager.js:34-84 | a clock saved after the pause comes back paused, showing the time at which it was paused |
| `Timer.TimerManager.constructor` | src/timer/TimerManager.js:2-12 | the state is the saved clock loaded into the idle one |
| `Timer.TimerManager.LoadSavedState` | src/timer/TimerManager.js:34-69 | with nobody signed in nothing changes; otherwise the new state is `Restore` of the user's record |
| `Timer.TimerManager.SaveState` | src/timer/TimerManager.js:71-84 | the signed-in user's timer key gets the clock's record; with nobody signed in nothing is written |
| `Timer.TimerManager.StartTimer` | src/timer/TimerManager.js:86-114 | while running nothing changes; otherwise a fresh clock from now is saved and one open timer_start event with an empty logbook is appended |
| `Timer.TimerManager.StartCustomTimer` | src/timer/TimerManager.js:122-150 | a fresh clock from the chosen date, saved, plus one new open event |
| `Timer.TimerManager.StopTimer` | src/timer/TimerManager.js:152-182 | without a start nothing changes; otherwise `Stop` is saved and only the first open stored event is closed, and that list replaces the event manager's |
| `Timer.TimerManager.TogglePause` | src/timer/TimerManager.js:184-285 | a paused clock resumes, a running one only opens the dialog; either way the clock is saved |
| `Timer.TimerManager.ConfirmPause` | src/timer/TimerManager.js:226-272 | without a reason nothing changes; otherwise the clock pauses, unsaved, and only the first open stored event gains one "Unlock Reason" entry |
| `Timer.TimerManager.RecordUnlock` | src/timer/TimerManager.js:244-266 | with a signed-in user and an open timer_start event, the stored events and the shown list become that user's events with the "Unlock Reason" entry appended to the first open event; otherwise nothing is written |
| `Timer.TimerManager.ConfirmPauseAndSave` | src/timer/TimerManager.js:226-284 | the corrected confirm: what the confirm does to the clock and to the stored and in-memory events (the unlock entry in the first open event, or nothing without one), and the paused clock is saved too; a rejected reason changes nothing |
| `Timer.TimerManager.OpenLogbook` | src/timer/TimerManager.js:308-321 | the first open stored event becomes current and its logbook is opened |
| `Passwords.HexByte` | src/utils/passwordUtils.js:7 | two lower-case hex digits that read back as the byte |
| `Passwords.HexBytePadded` | src/utils/passwordUtils.js:7 | HexByte is `b.toString(16).padStart(2, '0')` |
| `Passwords.ToHex` | src/utils/passwordUtils.js:6-7 | the encoding is twice as long as the digest |
| `Passwords.ToHexAt` | src/utils/passwordUtils.js:7 | byte k is written at positions 2k and 2k+1 |
| `Passwords.ToHexLowerCase` | src/utils/passwordUtils.js:7 | every character is a lower-case hex digit |
| `Passwords.FromToHex` | src/utils/passwordUtils.js:7 | each two-character chunk decodes to its byte, so decoding the encoding gives the digest back |
| `Passwords.ToHexInjective` | src/utils/passwordUtils.js:1-7 | two digests encode the same exactly when they are equal |
| `Passwords.HashPassword` | src/utils/passwordUtils.js:1-8 | the hash is two lower-case hex digits per digest byte |
| `Passwords.VerifyPassword` | src/utils/passwordUtils.js:10-13 | a predicate without an ensures of its own: the password's hash equals the stored one; `Passwords.VerifyOwnHash` and `Passwords.VerifyIffSameDigest` state what it accepts |
| `Passwords.VerifyOwnHash` | src/utils/passwordUtils.js:1-13 | a password verifies against its own hash |
| `Passwords.VerifyIffSameDigest` | src/utils/passwordUtils.js:10-13 | a password verifies against another password's hash exactly when their digests agree |
| `Auth.Register` | src/auth/AuthManager.js:89-109 | refused exactly on mismatched passwords (checked first) or a taken name, leaving `users` as it was; otherwise one key is added, holding the name, the hash and the date |
| `Auth.Login` | src/auth/AuthManager.js:47-59 | accepted exactly when the user exists and the password verifies; "User not found" and "Invalid password" otherwise |
| `Auth.LoginAfterRegister` | src/auth/AuthManager.js:83-109 | after registering, the same password signs in, and another one signs in exactly when its digest is the same |
| `Auth.RegisterKeepsOthers` | src/auth/AuthManager.js:102-109 | registering a name never changes how another name signs in |
| `Auth.AuthManager.HandleRegister` | src/auth/AuthManager.js:83-122 | the outcome and the new `users` are `Register`'s |
| `Auth.AuthManager.HandleLogin` | src/auth/AuthManager.js:40-81 | the outcome is `Login`'s; a refusal stores nothing; success stores the user, and the remembered name is set or removed per the box |
| `UserStore.Registered` | user-manager.js:13-25 | refused exactly for a taken name; otherwise exactly that key is added, holding the hash, and the other keys are unchanged |
| `UserStore.Authenticate` | user-manager.js:30-51 | accepted exactly when the user exists and bcrypt accepts the password; every refusal says "Invalid credentials" |
| `UserStore.LoginAfterRegister` | user-manager.js:17-47 | a fresh registration signs in with its password whenever compare accepts a password against its own hash |
| `UserStore.RegisterKeepsOthers` | user-manager.js:20-24 | registering a name never changes another name's sign-in |
| `UserStore.UserManager.constructor` | user-manager.js:5-9 | the stored map, or an empty one |
| `UserStore.UserManager.Register` | user-manager.js:11-28 | a taken name throws "Username already exists" and changes nothing; otherwise `Registered` in memory and in the store |
| `UserStore.UserManager.Login` | user-manager.js:30-51 | the outcome is `Authenticate`'s; `users` is not modified |
| `UserStore.RegisterThenLogin` | user-manager.js:11-51 | register followed by login succeeds for a new name |

## Left out

- DOM work is not modelled: `innerHTML` templates, class toggles, focus,
  `alert`, the has-entries icons and the rendering of the lists. The
  answer to `confirm` is a boolean parameter.
- `setInterval` and `clearInterval` are the flag `timerActive`.
  Consequently a second interval installed while one already runs is not
  modelled. Two places do this: `startCustomTimer` in
  src/timer/TimerManager.js, and app.js's `startTimer` (lines 557-577),
  which never clears a running interval. The latter happens, for example,
  when `loadSavedState` runs again through the data-path message.
- `Date` and `Date.now` are the parameter `now`; ISO strings are integer
  milliseconds. An Invalid Date (an empty custom start) is not modelled.
- `toLocaleString` and the `padStart` formatting of the web clock's four
  fields are not modelled. The same formatting is modelled once, as
  `DesktopSession.PadNumber`.
- JSON parse and write failures are not modelled: stored values are typed
  records. So are the error texts they cause ("An error occurred during
  login", and the logged errors of app.js:464-466 and 481-483).
- The data file, `localStorage` and the electron-store are in-memory fields.
  The desktop `lastUpdated` field is written but never read.
- SHA-256 (FIPS 180-4), the UTF-8 encoding, `bcrypt.hash` and
  `bcrypt.compare` are uninterpreted parameters. The salt from
  `bcrypt.genSalt` is a parameter.
- The interleaving of `async` handlers is not modelled; each handler runs
  to completion.
- togglePause adds new listeners to the reason buttons and to the confirm
  button on every call. A confirm that returns early leaves its listener in
  place. This accumulation is not modelled: one confirm is one call of
  `ConfirmPause`.
- Lookups of inherited object keys (a user named `constructor` or
  `__proto__`) are not modelled: a name is registered exactly when it is a
  key of the map.
- The IPC messages (`timer-started`, `timer-stopped`, `update-title`) are
  not modelled, and main.js is not part of this model.
- src/app.js (wiring only) is not part of this model. Neither is
  src/profile/ProfileManager.js, nor the profile and sign-in screens'
  glue in app.js.
- No correspondence is drawn between the two variants: one keys events by
  ISO start string, the other by numeric id.
- Js.SortDesc: the stability of `Array.prototype.sort` (equal keys keep
  their order) holds of the definition but is not stated as a property.
- Timer.OperationsKeepInvariant: loading is covered only into a clock
  whose interval is not running. That is the only way the source calls
  loadSavedState (from the constructor). Loading a paused record into a
  running clock would leave a paused clock running.

## Findings

| source | as written | input that shows it | evidently intended | confidence | as-written member | corrected member |
|---|---|---|---|---|---|---|
| src/timer/TimerManager.js:226-284 | The confirm handler pauses the clock but never saves it; the only save (line 284) runs before the dialog opens, while the clock is still running | Start at 0 ms, confirm a pause at 1000 ms, reload at 5000 ms: the clock comes back running and shows 5 s | The reload finds the clock paused at 1 s, as the paused branch of loadSavedState (lines 41-54) expects | not executed | Timer.UnsavedPauseLostOnReload | Timer.TimerManager.ConfirmPauseAndSave |
