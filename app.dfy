/** The shell of App.tsx: it owns the session list, the theme and the layout, wires the
    timer to the data layer, and decides on stop whether a session is worth recording.
    Identity, fresh ids and the wall clock are parameters of the operations. */
module Shell {
  import opened Types
  import opened Storage
  import opened TimerHook
  import opened DataService
  import opened TimerView

  const Dark: string := "dark"
  const Light: string := "light"

  /** The shortest stopped duration, in seconds, that is not recorded. */
  const DiscardLimit: int := 10

  datatype Layout = Standard | Dashboard

  /** The width from which the mount picks the dashboard, in CSS pixels. */
  const WideScreen: int := 1024

  /** The layout the mount picks for a window `width` pixels wide. */
  function InitialLayout(width: int): (r: Layout)
    ensures r == Dashboard <==> width >= WideScreen
  {
    if width >= WideScreen then Dashboard else Standard
  }

  /** `toggleTheme`: dark becomes light, anything else becomes dark. */
  function Toggled(theme: string): (r: string)
    ensures r == Dark || r == Light
    ensures r == Light <==> theme == Dark
  {
    if theme == Dark then Light else Dark
  }

  /** On the two themes the shell itself produces, toggling twice changes nothing; any
      other stored text is normalised to dark by the first toggle. */
  lemma ToggleTwice(theme: string)
    ensures theme == Dark || theme == Light ==> Toggled(Toggled(theme)) == theme
    ensures theme != Dark && theme != Light ==> Toggled(Toggled(theme)) == Light
  {
  }

  /** `toggleLayout`: standard and dashboard swap. */
  function ToggledLayout(layout: Layout): (r: Layout)
    ensures r != layout
  {
    if layout == Standard then Dashboard else Standard
  }

  lemma ToggleLayoutTwice(layout: Layout)
    ensures ToggledLayout(ToggledLayout(layout)) == layout
  {
  }

  /** The theme after mounting: the stored text when there is one, the default dark
      otherwise. */
  function LoadedTheme(data: Entries): (theme: string)
    ensures GetStoredTheme(data).Some? ==> theme == GetStoredTheme(data).value
    ensures GetStoredTheme(data).None? ==> theme == Dark
    ensures theme != ""
  {
    var stored := GetStoredTheme(data);
    if stored.Some? then stored.value else Dark
  }

  /** The theme chosen on mount is what a second mount reads back. */
  lemma ThemeSurvivesReload(data: Entries)
    ensures LoadedTheme(data[ThemeKey := Text(LoadedTheme(data))]) == LoadedTheme(data)
  {
  }

  /** Only a stop after more than ten seconds is worth a session. */
  predicate Recorded(duration: int) {
    duration > DiscardLimit
  }

  /** The local entries once the timer key holds the cleared snapshot. */
  function ClearedTimer(data: Entries): Entries {
    data[TimerStateKey := TimerSnapshot(TimerState(false, None, 0))]
  }

  /** What a stop that produced session `s` leaves behind, from the session list,
      local entries and remote sessions table before it to the three after it. A
      recorded stop in local mode prepends `s` to the stored list and writes only the
      sessions and timer keys; in remote mode it inserts one row, refetches and writes
      only the timer key; a stop of ten seconds or less writes only the timer key. */
  ghost predicate StopOutcome(s: Session, user: Option<UserId>, insertFailed: bool, fault: Fault,
                              sessionsBefore: seq<Session>, before: Entries, remoteBefore: seq<SessionRow>,
                              sessionsAfter: seq<Session>, after: Entries, remoteAfter: seq<SessionRow>)
  {
    && (Recorded(s.duration) && user.None? ==>
          && sessionsAfter == [s] + GetStoredSessions(before)
          && after == ClearedTimer(before)[SessionsKey := SessionList(sessionsAfter)]
          && remoteAfter == remoteBefore)
    && (Recorded(s.duration) && user.Some? ==>
          && after == ClearedTimer(before)
          && remoteAfter == Inserted(remoteBefore, SessionToRow(s, user.value), insertFailed)
          && sessionsAfter == FetchSessions(user, fault, after, remoteAfter))
    && (!Recorded(s.duration) ==>
          && sessionsAfter == sessionsBefore
          && after == ClearedTimer(before)
          && remoteAfter == remoteBefore)
  }

  /** After any stop the timer reads back cleared and the notes and theme read as
      before; a recorded local stop stores `s` in front of the earlier list, and every
      other stop leaves the stored list as it was. */
  lemma StopOutcomeReads(s: Session, user: Option<UserId>, insertFailed: bool, fault: Fault,
                         sessionsBefore: seq<Session>, before: Entries, remoteBefore: seq<SessionRow>,
                         sessionsAfter: seq<Session>, after: Entries, remoteAfter: seq<SessionRow>)
    requires StopOutcome(s, user, insertFailed, fault, sessionsBefore, before, remoteBefore,
                         sessionsAfter, after, remoteAfter)
    ensures GetStoredTimerState(after) == TimerState(false, None, 0)
    ensures GetStoredNotesList(after) == GetStoredNotesList(before)
    ensures GetStoredTheme(after) == GetStoredTheme(before)
    ensures Recorded(s.duration) && user.None? ==>
      GetStoredSessions(after) == sessionsAfter == [s] + GetStoredSessions(before)
    ensures !(Recorded(s.duration) && user.None?) ==>
      GetStoredSessions(after) == GetStoredSessions(before)
  {
    var cleared := ClearedTimer(before);
    WritesAreSeparate(before, TimerSnapshot(TimerState(false, None, 0)));
    RoundTrips(before, [], TimerState(false, None, 0), [], "");
    if Recorded(s.duration) && user.None? {
      WritesAreSeparate(cleared, SessionList(sessionsAfter));
      RoundTrips(cleared, sessionsAfter, TimerState(false, None, 0), [], "");
    }
  }

  class App {
    var sessions: seq<Session>
    var theme: string
    var layoutMode: Layout
    const timer: Timer
    const sync: SyncCoordinator
    const picker: TargetPicker

    /** The timer and the data layer share one `localStorage`, the theme key always
        holds the current theme, and the timer and the target picker keep their own
        invariants. */
    ghost predicate Valid()
      reads this, timer, timer.store, sync, sync.local, picker
    {
      && timer.store == sync.local
      && timer.Valid()
      && picker.Valid()
      && ThemeKey in sync.local.data && sync.local.data[ThemeKey] == Text(theme)
    }

    /** Mounting: the timer recovers, the sessions load, the theme is read and written
        back, the layout follows the window width and the target starts at 30 minutes.
        The theme effect first writes the default and then the loaded value; only the
        second write remains. */
    constructor Mount(local: LocalStore, remote: RemoteStore, user: Option<UserId>, fault: Fault, now: int, width: int)
      modifies local
      ensures Valid()
      ensures timer.store == local && sync.local == local && sync.remote == remote
      ensures timer.State() == Recovered(GetStoredTimerState(old(local.data)), now)
      ensures sessions == FetchSessions(user, fault, old(local.data), remote.sessions)
      ensures theme == LoadedTheme(old(local.data))
      ensures local.data == old(local.data)[ThemeKey := Text(theme)]
      ensures layoutMode == InitialLayout(width) && picker.targetMinutes == 30
      ensures fresh(timer) && fresh(sync) && fresh(picker)
    {
      var t := new Timer.Recover(local, now);
      var s := new SyncCoordinator(local, remote);
      var p := new TargetPicker();
      timer := t;
      sync := s;
      picker := p;
      layoutMode := InitialLayout(width);
      sessions := FetchSessions(user, fault, local.data, remote.sessions);
      var loaded := LoadedTheme(local.data);
      theme := loaded;
      new;
      WritesAreSeparate(local.data, Text(loaded));
      local.SaveTheme(loaded);
    }

    /** `loadSessions`: the list becomes whatever the fetch returns. */
    method LoadSessions(user: Option<UserId>, fault: Fault)
      requires Valid()
      modifies this`sessions
      ensures Valid()
      ensures sessions == FetchSessions(user, fault, sync.local.data, sync.remote.sessions)
    {
      sessions := FetchSessions(user, fault, sync.local.data, sync.remote.sessions);
    }

    /** `toggleTheme` followed by the theme effect, which writes the new theme. */
    method ToggleTheme()
      requires Valid()
      modifies this`theme, sync.local
      ensures Valid()
      ensures theme == Toggled(old(theme))
      ensures sync.local.data == old(sync.local.data)[ThemeKey := Text(theme)]
    {
      theme := Toggled(theme);
      WritesAreSeparate(sync.local.data, Text(theme));
      sync.local.SaveTheme(theme);
    }

    method ToggleLayout()
      requires Valid()
      modifies this`layoutMode
      ensures Valid()
      ensures layoutMode == ToggledLayout(old(layoutMode))
    {
      layoutMode := ToggledLayout(layoutMode);
    }

    /** `handleStop`: stop the timer; a duration over ten seconds becomes one new
        session handed to `addSession`, whose result replaces the list; a shorter one
        records nothing and resets the timer. Either way the timer ends idle. */
    method HandleStop(user: Option<UserId>, freshId: string, isoDate: string, now: int,
                      insertFailed: bool, fault: Fault)
      requires Valid()
      modifies this`sessions, timer, sync.local, sync.remote
      ensures Valid()
      ensures timer.State() == Idle
      ensures sync.remote.notes == old(sync.remote.notes)
      ensures StopOutcome(Session(freshId, isoDate, old(timer.elapsedTime), now), user, insertFailed, fault,
                          old(sessions), old(sync.local.data), old(sync.remote.sessions),
                          sessions, sync.local.data, sync.remote.sessions)
    {
      StopClears(sync.local.data);
      var duration := timer.Stop();
      if duration > DiscardLimit {
        var newSession := Session(freshId, isoDate, duration, now);
        Record(newSession, user, insertFailed, fault);
      } else {
        StopClears(sync.local.data);
        timer.Reset();
      }
    }

    /** The recording half of `handleStop`: `addSession`, and its result becomes the list. */
    method Record(s: Session, user: Option<UserId>, insertFailed: bool, fault: Fault)
      requires Valid()
      modifies this`sessions, sync.local, sync.remote
      ensures Valid()
      ensures sync.remote.notes == old(sync.remote.notes)
      ensures user.None? ==>
        && sessions == [s] + GetStoredSessions(old(sync.local.data))
        && sync.local.data == old(sync.local.data)[SessionsKey := SessionList(sessions)]
        && sync.remote.sessions == old(sync.remote.sessions)
      ensures user.Some? ==>
        && sync.local.data == old(sync.local.data)
        && sync.remote.sessions == Inserted(old(sync.remote.sessions), SessionToRow(s, user.value), insertFailed)
        && sessions == FetchSessions(user, fault, sync.local.data, sync.remote.sessions)
    {
      ghost var before := sync.local.data;
      var updated := sync.AddSession(s, user, insertFailed, fault);
      if user.None? {
        WritesAreSeparate(before, SessionList(updated));
      }
      sessions := updated;
    }

    /** The timer's auto-stop effect: once the target is reached while running, the
        shell's stop runs on the elapsed time reached, at least the target; afterwards
        the timer is not running, so the effect cannot fire again before the next
        start. When it does not fire nothing changes. */
    method AutoStop(user: Option<UserId>, freshId: string, isoDate: string, now: int,
                    insertFailed: bool, fault: Fault) returns (fired: bool)
      requires Valid()
      modifies this`sessions, timer, sync.local, sync.remote
      ensures Valid()
      ensures fired == ShouldAutoStop(old(timer.isRunning), old(timer.elapsedTime), old(picker.targetMinutes))
      ensures sync.remote.notes == old(sync.remote.notes)
      ensures fired ==>
        && old(timer.elapsedTime) >= old(picker.targetMinutes) * 60
        && StopOutcome(Session(freshId, isoDate, old(timer.elapsedTime), now), user, insertFailed, fault,
                       old(sessions), old(sync.local.data), old(sync.remote.sessions),
                       sessions, sync.local.data, sync.remote.sessions)
        && timer.State() == Idle && !ShouldAutoStop(timer.isRunning, timer.elapsedTime, picker.targetMinutes)
      ensures !fired ==>
        && timer.State() == old(timer.State()) && sessions == old(sessions)
        && sync.local.data == old(sync.local.data) && sync.remote.sessions == old(sync.remote.sessions)
    {
      fired := ShouldAutoStop(timer.isRunning, timer.elapsedTime, picker.targetMinutes);
      if fired {
        HandleStop(user, freshId, isoDate, now, insertFailed, fault);
      }
    }
  }

  /** Clearing the timer touches only the timer key. */
  lemma StopClears(data: Entries)
    ensures var after := Persist(data, Cleared().written);
      && GetStoredTimerState(after) == TimerState(false, None, 0)
      && GetStoredSessions(after) == GetStoredSessions(data)
      && (ThemeKey in data ==> ThemeKey in after && after[ThemeKey] == data[ThemeKey])
  {
    WritesAreSeparate(data, TimerSnapshot(TimerState(false, None, 0)));
  }

  /** Once idle the timer never meets the auto-stop condition, whatever the target. */
  lemma IdleNeverAutoStops(target: int)
    ensures !ShouldAutoStop(Idle.isRunning, Idle.elapsedTime, target)
  {
  }
}
