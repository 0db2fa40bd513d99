# Flow State Tracker, modelled in Dafny

This project models the logic core of Flow State Tracker, a browser app for timing
focus sessions. The model covers:

- the timer engine that survives reloads (`hooks/useTimer.ts`);
- the `localStorage` layer (`services/storage.ts`);
- the service that talks either to the local store or to the remote database, depending
  on whether a user is signed in (`services/data.ts`);
- the rules of the shell and of the notes screen;
- the statistics, the year grid and the history list computed from the recorded sessions.

All of it is deterministic once these become parameters: the wall clock, the identity,
fresh ids, the window width, whether a remote call fails, and the local day of a timestamp.

Modules, one per source file, plus four shared helpers:

| module | models |
|---|---|
| `Types` | the `Session`, `TimerState` and `Note` records, and `Option` |
| `Lists` | `map`, `filter`, and a stable sort by a key, descending |
| `Text` | JavaScript's `trim`, `parseInt`, integer `toString`, `padStart` and truncating `%` |
| `Tally` | sums of durations: in total and for one day |
| `Storage` | `localStorage` as a map with four keys; the `LocalStore` class |
| `TimerHook` | the timer as transition functions on `Engine`, and the `Timer` class that performs them |
| `DataService` | the remote tables and the `SyncCoordinator` class |
| `Shell` | the `App` class: theme, layout, `handleStop`, auto-stop |
| `TimerView` | ring radius, clock face, controls, the custom-target picker |
| `NotesView` | the note list transforms and the `NotesEditor` class |
| `StatsView` | streaks and totals |
| `ContributionGraph` | the 365-day aggregation, the week columns and the colour buckets |
| `HistoryView` | the five latest sessions and the duration label |

A few modelling choices:

- **Storage.** A key holds one of:
  - a session list;
  - a timer snapshot;
  - a note list;
  - raw text (the theme);
  - `Malformed`.

  A reader yields its value when the key holds a value of its own shape, and the typed
  default otherwise. In the source the default comes from a missing key, an empty string,
  or text that `JSON.parse` rejects (`Malformed` in the model). Well-formed JSON of another
  shape is a different case, listed under "Left out".
- **Remote store.** It is a pair of in-memory tables.
  - An insert whose id already exists changes nothing, as a primary-key violation would.
  - So does an upsert that names the same id twice, which the database refuses to do
    within one command.
  - Remote fetches order rows with the same stable descending sort that `History.tsx` uses.
  - A fetch with neither an error nor data returns `[]` for sessions. For notes it throws
    (`data.map` on `null`), modelled as `Rejected`.
- **Timer.** The timer keeps JavaScript truthiness: a stored `startTime` of `0` counts as
  absent, both at recovery and at each tick.
- **Days.** A day is a whole day number counted from 1 January 1970, and its weekday is
  `(day + 4) % 7`. Statistics take the local-day function `dayOf` as a parameter.
- **Streaks.** `Stats.tsx` compares noon timestamps of distinct local days and rounds their
  difference. Its rounded difference is the difference of the day numbers.

## Model

| member | source | states |
|---|---|---|
| TimerHook.Timer.Recover | hooks/useTimer.ts:11-24 | The state is the stored refs, and elapsed is the stored accumulated time plus `floor((now - start) / 1000)` exactly when the stored state runs with a truthy start, else the accumulated time; nothing is written and the invariant holds from any stored state |
| TimerHook.Timer.Tick | hooks/useTimer.ts:30-36 | While running with a truthy start, elapsed becomes accumulated plus the whole seconds since the start; otherwise nothing changes; nothing is written |
| TimerHook.TicksRecompute | hooks/useTimer.ts:30-36 | A tick recomputes rather than counts: a repeated tick at the same `now` changes nothing, and a later tick overrides any earlier one |
| TimerHook.Timer.Start | hooks/useTimer.ts:57-64 | A no-op while running; otherwise running with start `now`, the accumulated ref untouched, and `(true, now, elapsedTime)` written to the timer key alone |
| TimerHook.Timer.Pause | hooks/useTimer.ts:66-73 | A no-op while stopped; otherwise the last ticked elapsed time is banked without reading the clock, the start is cleared, and `(false, null, elapsed)` is written |
| TimerHook.Timer.Stop | hooks/useTimer.ts:75-83 | Returns the last ticked elapsed time and leaves the idle state with `(false, null, 0)` written, from any state |
| TimerHook.Timer.Reset | hooks/useTimer.ts:85-91 | Leaves exactly the in-memory and stored state that `Stop` leaves |
| TimerHook.InvariantKept | hooks/useTimer.ts:11-91 | Recovery establishes, and tick, start, pause and stop keep, "unless a truthy start drives the ticks, elapsed equals the accumulated ref" |
| TimerHook.WritesMirrorRefs | hooks/useTimer.ts:49-91 | Every snapshot written is the snapshot of the new refs and satisfies `isRunning <==> startTime != null` |
| TimerHook.ReloadIsTick | hooks/useTimer.ts:11-36 | Reloading from the last written snapshot and recovering at `now` gives the same state as one more tick at `now` |
| TimerHook.NonNegativeKept | hooks/useTimer.ts:30-91 | While the clock is not behind the running segment's start, no transition makes elapsed or accumulated time negative |
| TimerHook.RecoveredNonNegative | hooks/useTimer.ts:11-24 | Recovery from a non-negative snapshot whose start is not in the future gives non-negative times |
| Storage.LocalStore.SaveSession | services/storage.ts:14-19 | Returns the session in front of the previously stored list and stores exactly that list under the sessions key alone |
| Storage.LocalStore.SaveStoredTimerState | services/storage.ts:30-32 | Overwrites the timer key alone with the snapshot |
| Storage.LocalStore.SaveStoredNotesList | services/storage.ts:43-45 | Overwrites the notes key alone with the list |
| Storage.RoundTrips | services/storage.ts:4-45 | Each reader reads back what its writer stored; a non-empty theme reads back as itself |
| Storage.Defaults | services/storage.ts:4-41 | A missing or malformed key reads as `[]`, `(false, null, 0)` and `[]` respectively |
| Storage.WritesAreSeparate | services/storage.ts:14-45 | Overwriting any one of the four keys leaves what the other three readers return unchanged |
| Storage.SavedInTurnNewestFirst | services/storage.ts:14-19 | Saving N sessions one after another reads back as those N newest first, in front of the old list |
| Storage.LocalStore.SaveTheme | App.tsx:105 | Overwrites the theme key alone with the raw theme text |
| DataService.FetchSessions | services/data.ts:7-24 | Without identity, or on a query error, the local list; with identity and null data, `[]`; otherwise a permutation of the table's rows, as sessions, ordered by timestamp descending |
| DataService.LocalFetchIgnoresRemote | services/data.ts:21-23 | Without identity neither fetch depends on the remote tables or on their faults |
| DataService.FetchNotes | services/data.ts:56-81 | Without identity, or on a query error, the local list; null data throws; otherwise a permutation of the rows mapped field by field, ordered by `updated_at` descending |
| DataService.FetchedNotesFromTable | services/data.ts:72-77 | Every note a healthy remote fetch returns is the field mapping of some row of the table |
| DataService.RowMappingsRoundTrip | services/data.ts:72-77 | The `updatedAt`/`updated_at` mappings, and the session row mapping, are inverse to each other |
| DataService.NoteRows | services/data.ts:92-98 | The upsert payload has one row per note, in order, tagged with the user's id, mapping back to that note |
| DataService.SyncCoordinator.AddSession | services/data.ts:26-52 | Without identity it is `saveSession`, and the remote table is untouched; with identity one row for the user is inserted (an error leaves the table as it was), the local store is untouched, and the result is the refetch |
| DataService.InsertedSessionIsFetched | services/data.ts:29-48 | A session inserted without error under a fresh id is in the list the refetch returns |
| DataService.SyncCoordinator.SaveNotes | services/data.ts:83-110 | With identity, one upsert of every note tagged with the user id and the local store unchanged; without one, the local list overwritten with exactly the list given and the remote table unchanged. Note ids stay distinct |
| DataService.UpsertRowKeepsDistinct | services/data.ts:100-102 | Upserting one row into a table with distinct ids keeps the ids distinct, contains the row, keeps every row of another id, and adds nothing else |
| DataService.UpsertEachContents | services/data.ts:100-102 | A bulk upsert of rows with distinct ids contains every submitted row, keeps every row whose id was not submitted, adds nothing else, and keeps the ids distinct |
| DataService.UpsertedKeepsDistinct | services/data.ts:100-102 | The bulk upsert keeps note ids distinct. A failed one, or one whose payload repeats an id, changes nothing; otherwise every submitted row is present |
| DataService.UpsertedDrawsFrom | services/data.ts:100-106 | Whatever the ids and whether or not the statement fails, every row afterwards was submitted or was there before |
| DataService.SyncCoordinator.DeleteNote | services/data.ts:112-127 | With identity and no error, the rows with the given id are removed; otherwise, and always without identity, nothing changes. Note ids stay distinct |
| DataService.DeletedRowsContents | services/data.ts:116-119 | After the delete a row is present exactly when it was present before and carries another id |
| DataService.DeletedRowsDistinct | services/data.ts:116-119 | Deleting by id keeps note ids distinct |
| Shell.Toggled | App.tsx:113-115 | The result is always dark or light, and it is light exactly when the theme was dark |
| Shell.ToggleTwice | App.tsx:113-115 | Toggling twice gives back dark or light; any other stored text becomes light |
| Shell.ToggledLayout | App.tsx:117-119 | Toggling always changes the layout |
| Shell.ToggleLayoutTwice | App.tsx:117-119 | Toggling the layout twice gives back the layout |
| Shell.LoadedTheme | App.tsx:77-80 | The stored theme when there is a non-empty one, dark otherwise |
| Shell.ThemeSurvivesReload | App.tsx:99-106 | Once the mount has written its theme back, a second mount loads the same theme |
| Shell.InitialLayout | App.tsx:83-87 | The mount picks the dashboard exactly for a window at least 1024 pixels wide |
| Shell.App.Mount | App.tsx:27-106 | The timer recovers from the store and the sessions come from the fetch. The theme is loaded and written back, and nothing else in the store changes. The layout follows the width and the target starts at 30 |
| Shell.App.LoadSessions | App.tsx:108-111 | The list becomes the result of the fetch |
| Shell.App.ToggleTheme | App.tsx:99-115 | The theme is toggled and the new theme is written to the theme key only |
| Shell.App.ToggleLayout | App.tsx:117-119 | The layout is toggled |
| Shell.App.HandleStop | App.tsx:130-144 | The timer ends idle and the remote notes stay. The outcome is `StopOutcome` of the session with the stopped duration: over 10 s it is recorded, prepended locally without identity or inserted remotely and refetched with identity; otherwise the list and both session stores stay. In every case the local store changes only in the timer key, and in the sessions key for a recorded local stop |
| Shell.App.Record | App.tsx:139-140 | The list becomes `addSession`'s result. Without identity the local store changes only in the sessions key, which holds the new list; with identity the local store is untouched. The remote notes are never touched |
| Shell.StopOutcomeReads | App.tsx:130-144 | After any stop the timer key reads back `(false, null, 0)` and the notes and theme read as before. A recorded local stop stores the new session in front of the earlier list; any other stop leaves the stored list as it was |
| Shell.StopClears | hooks/useTimer.ts:81 | Writing the cleared snapshot reads back as `(false, null, 0)` and leaves the sessions and the theme |
| Shell.App.AutoStop | components/Timer.tsx:36-41 | Fires exactly when running with elapsed at least target times 60. After firing, the stop outcome holds for a session whose duration is that elapsed, at least the target, and the timer is idle with the condition false. Otherwise the timer, the list, the local store and the remote sessions are unchanged; the remote notes never change |
| Shell.IdleNeverAutoStops | components/Timer.tsx:36-41 | In the idle state the auto-stop condition is false for every target |
| TimerView.GetRadius | components/Timer.tsx:49-54 | 110 exactly up to 15 minutes, 130 exactly for 16 to 30, 150 exactly for 31 to 45, and 165 exactly above 45 |
| TimerView.RadiusMonotone | components/Timer.tsx:49-54 | A longer target never gets a smaller ring |
| TimerView.TimeParts | components/Timer.tsx:65-68 | For a non-negative count, hours, minutes and seconds add up to it, with minutes and seconds in 0..59 |
| TimerView.FaceOfTime | components/Timer.tsx:65-88 | The face of a count is the face of its parts, and hours are non-zero exactly from 3600 s |
| TimerView.FormatTimeReadsBack | components/Timer.tsx:65-88 | The hours field is shown exactly from one hour on, minutes and seconds are two characters wide, and reading the face as numbers gives back the count |
| TimerView.ExactlyOneControlGroup | components/Timer.tsx:226-269 | For a non-negative elapsed time exactly one of start, reset/resume/stop and pause is shown; a negative one while stopped shows none |
| TimerView.SubmittedTarget | components/Timer.tsx:90-98 | The target changes only to a positive parsed value, and a target in 1..240 stays in 1..240 |
| TimerView.SubmittedTargetCases | components/Timer.tsx:90-98 | A typed positive number `v` gives `min(v, 240)`; text with no leading number, and 0, leave the target |
| TimerView.CustomButtonLabel | components/Timer.tsx:154-157 | "Custom" exactly when the target is a preset; otherwise, for a target of at least 0, the label ends in `m` and reads back as the target |
| TimerView.TargetPicker.constructor | App.tsx:45 | The target starts at 30 with the input closed and empty |
| TimerView.TargetPicker.ChoosePreset | components/Timer.tsx:109-115 | The preset becomes the target and the input closes, keeping its text |
| TimerView.TargetPicker.OpenCustom | components/Timer.tsx:154 | The input opens, with the target and the text unchanged |
| TimerView.TargetPicker.SetInput | components/Timer.tsx:143 | The text is replaced, with nothing else changed |
| TimerView.TargetPicker.SubmitCustom | components/Timer.tsx:90-98 | The target becomes `SubmittedTarget` of the text, and the input closes and clears in every case |
| NotesView.EditedList | components/Notes.tsx:47-48 | Same length and ids; the note with the id gets the editor's title, content and time, every other note is unchanged |
| NotesView.CreatedList | components/Notes.tsx:49-57 | One note in front of the old list, with the fresh id, content and time; titled "Untitled Note" exactly when the title is empty |
| NotesView.DeletedList | components/Notes.tsx:64 | Only notes of the list with another id remain, and all of them do |
| NotesView.DeletedAppend | components/Notes.tsx:64 | The remaining notes keep their order: a note added at the end remains at the end exactly when it has another id |
| NotesView.DeletedCounts | components/Notes.tsx:64 | Every note with another id remains as often as it occurred, and no note with the id remains |
| NotesView.BothBlank | components/Notes.tsx:42 | True exactly when title and content are both white space only |
| NotesView.DeleteUndoesCreate | components/Notes.tsx:49-64 | Deleting a note just created under a fresh id gives back the old list |
| NotesView.LastEditWins | components/Notes.tsx:47-48 | Two saves of the same note equal the last one |
| NotesView.DeleteAfterEdit | components/Notes.tsx:47-64 | Editing a note and then deleting it equals deleting it |
| NotesView.NotesEditor.constructor | components/Notes.tsx:9-17 | No notes, the editor closed and empty, not loading |
| NotesView.NotesEditor.LoadNotes | components/Notes.tsx:29-34 | The list becomes the fetch result and loading ends; a fetch that throws leaves the list and the spinner on |
| NotesView.NotesEditor.SaveNotesToStorage | components/Notes.tsx:36-39 | The whole list goes both into memory and to `saveNotes` |
| NotesView.NotesEditor.HandleSave | components/Notes.tsx:41-61 | Nothing changes when both fields are blank; otherwise the edited or extended list is stored through `saveNotes` and the editor closes |
| NotesView.NotesEditor.HandleDelete | components/Notes.tsx:63-68 | As written: the list loses the id in memory, `deleteNote` runs, the local store is unchanged, and the editor closes if it held the note |
| NotesView.NotesEditor.HandleDeleteCorrected | components/Notes.tsx:63-68 | As intended: the remaining list is also handed to `saveNotes`, so the local store holds it without identity |
| NotesView.DeletedNoteReturnsOnReload | components/Notes.tsx:63-68 | Without identity, a deleted note comes back on the next load |
| NotesView.CorrectedDeleteSticks | components/Notes.tsx:63-68 | After the corrected delete, with no remote failure, the next load in either mode returns no note with that id |
| NotesView.NotesEditor.OpenEditor | components/Notes.tsx:70-81 | The editor opens on the note with its title and content, or empty for a new note |
| NotesView.NotesEditor.CloseEditor | components/Notes.tsx:83-88 | The editor closes, edits nothing and its fields are empty |
| NotesView.NotesEditor.SetTitle | components/Notes.tsx:110 | The title is replaced, with nothing else changed |
| NotesView.NotesEditor.SetContent | components/Notes.tsx:117 | The content is replaced, with nothing else changed |
| StatsView.ComputeStats | components/Stats.tsx:12-74 | No sessions give all zeros. The total is the sum of all durations, and today's seconds the sum over today. The longest streak is the longest run of consecutive days. The current streak is the run ending at the last day when that day is today or yesterday, else 0 |
| StatsView.FirstSeen | components/Stats.tsx:18-26 | The days of the sessions, each once, and only those |
| StatsView.CollectDays | components/Stats.tsx:18-26 | The loop yields the days in the order first met |
| StatsView.SortAscending | components/Stats.tsx:28 | The distinct days in strictly increasing order, exactly the days of the sessions |
| StatsView.SortedDaysIncrease | components/Stats.tsx:28 | Sorting distinct days lists them strictly increasing |
| StatsView.CountStreaks | components/Stats.tsx:30-50 | The streak loop yields the longest run and the run of the last day |
| StatsView.RunIsConsecutive | components/Stats.tsx:38-47 | On increasing days a streak is a block of consecutive calendar days |
| StatsView.StreakBounds | components/Stats.tsx:30-66 | With at least one day, 1 <= longest <= number of days, and the current streak never exceeds the longest |
| StatsView.DaySetUnique | components/Stats.tsx:18-28 | The sorted day list is determined by the sessions, whatever their order |
| Tally.TotalAppend | components/Stats.tsx:15 | The total of one more session is the old total plus its duration |
| Tally.FilteredTotalIsDaySeconds | components/Stats.tsx:68-70 | Summing the sessions that a filter picks out for one day gives that day's seconds |
| Tally.NoSessionNoSeconds | components/ContributionGraph.tsx:41-48 | A day with no session has no seconds |
| Tally.DayWithinTotal | components/Stats.tsx:68-70 | With non-negative durations, 0 <= today's seconds <= the total |
| ContributionGraph.CalendarData | components/ContributionGraph.tsx:31-57 | 365 consecutive days ending today, each with the sum of the durations of its sessions |
| ContributionGraph.Weeks | components/ContributionGraph.tsx:59-76 | The columns, padding removed, join up to the days in order. A column ends exactly at a Saturday or at the last day. Only the first column is padded, at the top. For consecutive days no column exceeds 7 squares, and the first column has exactly 7 |
| ContributionGraph.PlaceDay | components/ContributionGraph.tsx:63-73 | One turn of the loop keeps the invariant that relates the columns so far and the open column to the days |
| ContributionGraph.PushWeek | components/ContributionGraph.tsx:65-73 | Closing the open column on a Saturday or the last day keeps that invariant |
| ContributionGraph.CloseWeek | components/ContributionGraph.tsx:66-70 | The pushed column has the same days and last square; the first column is padded at the top to 7, the others are unchanged |
| ContributionGraph.PadFirst | components/ContributionGraph.tsx:66-70 | The padded first column has at least 7 squares, with padding only at its top and only when it has exactly 7 |
| ContributionGraph.ShortOfSaturday | components/ContributionGraph.tsx:65 | Seven consecutive days always hold a Saturday, so an open column stays under 7 days |
| ContributionGraph.ColorLevel | components/ContributionGraph.tsx:78-84 | Five levels: 0 exactly for no time, 1 below 30 minutes, 2 from 30 minutes to below 2 hours, 3 from 2 to below 4 hours, and 4 exactly from four hours |
| ContributionGraph.ColorMonotone | components/ContributionGraph.tsx:78-84 | More time never gets a lighter shade, and a negative total gets the first non-empty shade |
| HistoryView.Recent | components/History.tsx:11 | Length `min(5, n)`, newest first, drawn from the input, and no omitted session is newer than one shown |
| HistoryView.TakeLatest | components/History.tsx:11 | The first k sessions of a newest-first permutation are the k latest |
| HistoryView.RendersIffAnySession | components/History.tsx:13 | The list is drawn exactly when there is a session |
| HistoryView.FormatDurationReadsBack | components/History.tsx:15-20 | For a non-negative duration, the label has an `h` exactly from one hour on and reads back as the whole minutes, seconds dropped |
| HistoryView.SameMinuteSameLabel | components/History.tsx:15-20 | Durations within the same minute get the same label |
| Text.TrimEmptyIffBlank | components/Notes.tsx:42 | `trim` leaves nothing exactly when the text is white space only |
| Text.TwoDigits | components/Timer.tsx:75-77 | Below 100, `toString().padStart(2, '0')` is two characters that parse back to the number |
| Text.ParseNatToString | components/Timer.tsx:92 | `parseInt` reads back what `toString` writes for a natural number |

## Left out

- Rendering, animation, the progress ring, font sizing and the window-resize listener. The window width is an input only to the mount.
- Authentication, the auth subscription and URL error parsing. The identity is an `Option` input to each call.
- The remote queries do not filter by user id (`services/data.ts:11-14`), because scoping is server-side. The model's tables are what the signed-in identity can see.
- The quotes, the feedback form and sound. They are static content, a form around a network call, and audio.
- Floating-point hour values (`toFixed`). Totals are kept in whole seconds.
- JSON encoding and decoding. Only "unreadable means default" is kept, through `Malformed`.
- A key that holds well-formed JSON of the wrong shape is read as the default. The source returns the parsed value as it is (`services/storage.ts:7,24,37`), and a caller fails later: `null` under the timer key makes `hooks/useTimer.ts:13` throw on `stored.isRunning`.
- A theme key whose text is not a plain string is treated as absent.
- The `console.error` logging on remote errors (`services/data.ts:17,42,66,105,122`) and on an unreadable session list (`services/storage.ts:9`). Logging has no effect on state.
- The primary key of the notes table is the invariant `DataService.RemoteStore.Valid` (distinct note ids). It is assumed of the remote store handed to the model and kept by every write. The sessions table has no such invariant: an insert with a taken id is refused instead.
- Asynchronous interleaving. Every awaited call runs to completion before the next starts.
- The wall clock, random ids and the ISO date of a new session. They are parameters.
- The notes screen's gallery/list view mode. It is presentation only.
- The history list's locale dates and times, and the locale-day mapping of timestamps. The local day is a parameter.
- `parseInt` results are exact integers; the rounding of very long digit strings to a double is not modelled.
- FormatDurationReadsBack: stated for non-negative durations only. A negative one makes the label the string of a negative number of minutes, which no recorded session has.
- `recent` copies the list before sorting; in the model all lists are values, so the input is never reordered.

## Findings

| source | as written | input that shows it | evidently intended | confidence | as-written member | corrected member |
|---|---|---|---|---|---|---|
| components/Notes.tsx:63-68 with services/data.ts:112-127 | `handleDelete` removes the note in memory and calls `deleteNote`, which does nothing without identity; `saveNotes` is never called | no user, stored notes `[Note("n1","Plan","",1)]`, delete `"n1"`, then load again: the note is back | the remaining list is also handed to `saveNotes`, as the comment in `deleteNote` relies on for local mode, so the deletion persists | not executed | NotesView.DeletedNoteReturnsOnReload | NotesView.CorrectedDeleteSticks |
