/** The durable local store (services/storage.ts, keys from constants.ts).
    `localStorage` is a map from key to what the key holds; JSON is abstracted away:
    a JSON namespace yields its value when the key holds a value of that namespace's
    shape, and a typed default otherwise. The source's `data ? JSON.parse(data) :
    default` and its `catch` give that default for a missing key, an empty string or
    text that does not parse (`Malformed`). Well-formed JSON of another shape the
    source returns as it is, to fail later in its caller; the model reads it as the
    default too. */
module Storage {
  import opened Types

  const SessionsKey: string := "deepflow_sessions"
  const TimerStateKey: string := "deepflow_timer_state"
  const NotesListKey: string := "deepflow_notes_list"
  const ThemeKey: string := "deepflow_theme"

  /** What one key of `localStorage` can hold. `Text` is a raw, non-JSON string (the
      theme is stored that way); `Malformed` is text no namespace can parse. */
  datatype Stored =
    | SessionList(sessions: seq<Session>)
    | TimerSnapshot(state: TimerState)
    | NoteList(notes: seq<Note>)
    | Text(text: string)
    | Malformed

  type Entries = map<string, Stored>

  const DefaultTimerState: TimerState := TimerState(false, None, 0)

  function GetStoredSessions(data: Entries): seq<Session> {
    if SessionsKey in data && data[SessionsKey].SessionList? then data[SessionsKey].sessions else []
  }

  function GetStoredTimerState(data: Entries): TimerState {
    if TimerStateKey in data && data[TimerStateKey].TimerSnapshot? then data[TimerStateKey].state
    else DefaultTimerState
  }

  function GetStoredNotesList(data: Entries): seq<Note> {
    if NotesListKey in data && data[NotesListKey].NoteList? then data[NotesListKey].notes else []
  }

  /** `localStorage.getItem(THEME)` read as the shell does: a non-empty string, else absent. */
  function GetStoredTheme(data: Entries): Option<string> {
    if ThemeKey in data && data[ThemeKey].Text? && data[ThemeKey].text != "" then Some(data[ThemeKey].text)
    else None
  }

  /** The device's `localStorage`, shared by the timer, the data layer and the shell. */
  class LocalStore {
    var data: Entries

    constructor (initial: Entries)
      ensures data == initial
    {
      data := initial;
    }

    /** Prepends `session` to the stored list and overwrites the key with the result. */
    method SaveSession(session: Session) returns (updated: seq<Session>)
      modifies this
      ensures updated == [session] + GetStoredSessions(old(data))
      ensures data == old(data)[SessionsKey := SessionList(updated)]
    {
      var sessions := GetStoredSessions(data);
      updated := [session] + sessions;
      data := data[SessionsKey := SessionList(updated)];
    }

    method SaveStoredTimerState(state: TimerState)
      modifies this
      ensures data == old(data)[TimerStateKey := TimerSnapshot(state)]
    {
      data := data[TimerStateKey := TimerSnapshot(state)];
    }

    method SaveStoredNotesList(notes: seq<Note>)
      modifies this
      ensures data == old(data)[NotesListKey := NoteList(notes)]
    {
      data := data[NotesListKey := NoteList(notes)];
    }

    /** `localStorage.setItem(THEME, theme)`, which stores the raw text. */
    method SaveTheme(theme: string)
      modifies this
      ensures data == old(data)[ThemeKey := Text(theme)]
    {
      data := data[ThemeKey := Text(theme)];
    }
  }

  /** Every recognised key holds what its own reader reads back. */
  lemma RoundTrips(data: Entries, sessions: seq<Session>, state: TimerState, notes: seq<Note>, theme: string)
    ensures GetStoredSessions(data[SessionsKey := SessionList(sessions)]) == sessions
    ensures GetStoredTimerState(data[TimerStateKey := TimerSnapshot(state)]) == state
    ensures GetStoredNotesList(data[NotesListKey := NoteList(notes)]) == notes
    ensures theme != "" ==> GetStoredTheme(data[ThemeKey := Text(theme)]) == Some(theme)
  {
  }

  /** Missing or unreadable data yields the typed defaults. */
  lemma Defaults(data: Entries)
    ensures (SessionsKey !in data || data[SessionsKey] == Malformed) ==> GetStoredSessions(data) == []
    ensures (TimerStateKey !in data || data[TimerStateKey] == Malformed) ==> GetStoredTimerState(data) == TimerState(false, None, 0)
    ensures (NotesListKey !in data || data[NotesListKey] == Malformed) ==> GetStoredNotesList(data) == []
  {
  }

  /** Overwriting one namespace leaves what the other readers see unchanged. */
  lemma WritesAreSeparate(data: Entries, v: Stored)
    ensures GetStoredTimerState(data[SessionsKey := v]) == GetStoredTimerState(data)
    ensures GetStoredNotesList(data[SessionsKey := v]) == GetStoredNotesList(data)
    ensures GetStoredTheme(data[SessionsKey := v]) == GetStoredTheme(data)
    ensures GetStoredSessions(data[TimerStateKey := v]) == GetStoredSessions(data)
    ensures GetStoredNotesList(data[TimerStateKey := v]) == GetStoredNotesList(data)
    ensures GetStoredTheme(data[TimerStateKey := v]) == GetStoredTheme(data)
    ensures GetStoredSessions(data[NotesListKey := v]) == GetStoredSessions(data)
    ensures GetStoredTimerState(data[NotesListKey := v]) == GetStoredTimerState(data)
    ensures GetStoredTheme(data[NotesListKey := v]) == GetStoredTheme(data)
    ensures GetStoredSessions(data[ThemeKey := v]) == GetStoredSessions(data)
    ensures GetStoredTimerState(data[ThemeKey := v]) == GetStoredTimerState(data)
    ensures GetStoredNotesList(data[ThemeKey := v]) == GetStoredNotesList(data)
  {
  }

  /** The entries after `saveSession` has been called on each of `sessions` in turn. */
  function SavedInTurn(data: Entries, sessions: seq<Session>): Entries
    decreases sessions
  {
    if sessions == [] then data
    else
      var next := data[SessionsKey := SessionList([sessions[0]] + GetStoredSessions(data))];
      SavedInTurn(next, sessions[1..])
  }

  function Reversed<T>(s: seq<T>): (r: seq<T>)
    ensures |r| == |s|
  {
    if s == [] then [] else Reversed(s[1..]) + [s[0]]
  }

  /** Saving N sessions one after another and reading the key back yields those N
      sessions newest first, in front of whatever was stored before. */
  lemma {:induction false} SavedInTurnNewestFirst(data: Entries, sessions: seq<Session>)
    ensures GetStoredSessions(SavedInTurn(data, sessions)) == Reversed(sessions) + GetStoredSessions(data)
    decreases sessions
  {
    if sessions != [] {
      var next := data[SessionsKey := SessionList([sessions[0]] + GetStoredSessions(data))];
      SavedInTurnNewestFirst(next, sessions[1..]);
      assert GetStoredSessions(next) == [sessions[0]] + GetStoredSessions(data);
    }
  }
}
