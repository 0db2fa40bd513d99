/** The timer engine of hooks/useTimer.ts. The hook's two React state values
    (`elapsedTime`, `isRunning`) and its two refs (`startTimeRef`, `accumulatedTimeRef`)
    are the fields of `Timer`; `Date.now()` is the `now` parameter of each operation;
    the one-second interval is the explicit `Tick`. The transitions are first stated
    as functions on an `Engine` value, and every method of `Timer` is proved to perform
    exactly its function and to write exactly the snapshot the function says. */
module TimerHook {
  import opened Types
  import opened Storage

  /** The engine's in-memory state. */
  datatype Engine = Engine(elapsedTime: int, isRunning: bool, startTimeRef: Option<int>, accumulatedTimeRef: int)

  /** JavaScript truthiness of a `number | null`: both null and 0 are false. */
  predicate Truthy(t: Option<int>) {
    t.Some? && t.value != 0
  }

  /** Whole seconds elapsed in the running segment, `Math.floor((now - start) / 1000)`;
      Dafny's division by a positive divisor rounds down, as `Math.floor` does. */
  function SegmentSeconds(start: int, now: int): int {
    (now - start) / 1000
  }

  /** A transition's new state and the snapshot it hands to `persistState`, if any. */
  datatype Step = Step(engine: Engine, written: Option<TimerState>)

  const Idle: Engine := Engine(0, false, None, 0)

  /** What `persistState` would write for the engine's current refs. */
  function Snapshot(e: Engine): TimerState {
    TimerState(e.isRunning, e.startTimeRef, e.accumulatedTimeRef)
  }

  /** The mount effect: the refs take the stored values and elapsed time is rebuilt
      from the wall clock when the stored state was running with a start time. */
  function Recovered(stored: TimerState, now: int): Engine {
    var elapsed :=
      if stored.isRunning && Truthy(stored.startTime)
      then stored.accumulatedTime + SegmentSeconds(stored.startTime.value, now)
      else stored.accumulatedTime;
    Engine(elapsed, stored.isRunning, stored.startTime, stored.accumulatedTime)
  }

  /** The interval body: while running, elapsed time is recomputed from the clock. */
  function Ticked(e: Engine, now: int): Engine {
    if e.isRunning && Truthy(e.startTimeRef)
    then e.(elapsedTime := e.accumulatedTimeRef + SegmentSeconds(e.startTimeRef.value, now))
    else e
  }

  /** `startTimer`: leaves `accumulatedTimeRef` alone but persists `elapsedTime` as the
      accumulated value. */
  function Started(e: Engine, now: int): Step {
    if e.isRunning then Step(e, None)
    else Step(e.(isRunning := true, startTimeRef := Some(now)), Some(TimerState(true, Some(now), e.elapsedTime)))
  }

  /** `pauseTimer`: banks the last ticked `elapsedTime`, without reading the clock. */
  function Paused(e: Engine): Step {
    if !e.isRunning then Step(e, None)
    else Step(e.(isRunning := false, accumulatedTimeRef := e.elapsedTime, startTimeRef := None),
              Some(TimerState(false, None, e.elapsedTime)))
  }

  /** What both `stopTimer` and `resetTimer` do to the state, from any state. */
  function Cleared(): Step {
    Step(Idle, Some(TimerState(false, None, 0)))
  }

  /** The entries after a step's snapshot, if any, has been saved. */
  function Persist(data: Entries, written: Option<TimerState>): Entries {
    if written.Some? then data[TimerStateKey := TimerSnapshot(written.value)] else data
  }

  /** The invariant the engine keeps: unless a truthy start time is driving the
      ticks, elapsed time is exactly the banked time. */
  ghost predicate Inv(e: Engine) {
    (!e.isRunning || !Truthy(e.startTimeRef)) ==> e.elapsedTime == e.accumulatedTimeRef
  }

  /** A snapshot never disagrees with itself about whether a segment is running. */
  ghost predicate Consistent(t: TimerState) {
    t.isRunning <==> t.startTime.Some?
  }

  ghost predicate NonNegative(e: Engine) {
    e.elapsedTime >= 0 && e.accumulatedTimeRef >= 0
  }

  /** The clock has not gone back behind the start of the running segment. */
  ghost predicate ClockAhead(e: Engine, now: int) {
    e.startTimeRef.Some? ==> now >= e.startTimeRef.value
  }

  /** Every operation keeps the invariant, and recovery establishes it from any
      stored state, however inconsistent. */
  lemma InvariantKept(e: Engine, stored: TimerState, now: int)
    requires Inv(e)
    ensures Inv(Recovered(stored, now))
    ensures Inv(Ticked(e, now))
    ensures Inv(Started(e, now).engine)
    ensures Inv(Paused(e).engine)
    ensures Inv(Cleared().engine)
  {
  }

  /** Whatever the engine writes is consistent, and once the invariant holds it is
      exactly the snapshot of the new refs, so the store always mirrors the refs. */
  lemma WritesMirrorRefs(e: Engine, now: int)
    requires Inv(e)
    ensures Started(e, now).written.Some? ==>
      Started(e, now).written.value == Snapshot(Started(e, now).engine) && Consistent(Started(e, now).written.value)
    ensures Paused(e).written.Some? ==>
      Paused(e).written.value == Snapshot(Paused(e).engine) && Consistent(Paused(e).written.value)
    ensures Cleared().written.value == Snapshot(Cleared().engine) && Consistent(Cleared().written.value)
  {
  }

  /** Crash resilience: reloading from what the engine last persisted and recovering
      at `now` produces the same state as one more tick at `now` without the reload. */
  lemma ReloadIsTick(e: Engine, now: int)
    requires Inv(e)
    ensures Recovered(Snapshot(e), now) == Ticked(e, now)
  {
  }

  /** Ticks recompute rather than count: a repeated tick changes nothing and a later
      tick overrides any earlier one, so missed ticks are harmless. */
  lemma TicksRecompute(e: Engine, earlier: int, now: int)
    ensures Ticked(Ticked(e, now), now) == Ticked(e, now)
    ensures Ticked(Ticked(e, earlier), now) == Ticked(e, now)
  {
  }

  /** Elapsed time stays non-negative as long as the clock never reads earlier than
      the running segment's start. */
  lemma NonNegativeKept(e: Engine, now: int)
    requires NonNegative(e) && ClockAhead(e, now)
    ensures NonNegative(Ticked(e, now))
    ensures NonNegative(Started(e, now).engine)
    ensures NonNegative(Paused(e).engine)
    ensures NonNegative(Cleared().engine)
  {
  }

  lemma RecoveredNonNegative(stored: TimerState, now: int)
    requires stored.accumulatedTime >= 0
    requires stored.startTime.Some? ==> now >= stored.startTime.value
    ensures NonNegative(Recovered(stored, now))
  {
  }

  /** The timer; `store` is the device's `localStorage`. */
  class Timer {
    var elapsedTime: int
    var isRunning: bool
    var startTimeRef: Option<int>
    var accumulatedTimeRef: int
    const store: LocalStore

    function State(): Engine
      reads this
    {
      Engine(elapsedTime, isRunning, startTimeRef, accumulatedTimeRef)
    }

    /** The engine invariant, and the stored timer key reads back as the refs. */
    ghost predicate Valid()
      reads this, store
    {
      Inv(State()) && GetStoredTimerState(store.data) == Snapshot(State())
    }

    /** Mounting the hook: recover from the stored snapshot; nothing is written. */
    constructor Recover(store: LocalStore, now: int)
      ensures this.store == store
      ensures State() == Recovered(GetStoredTimerState(store.data), now)
      ensures Valid()
    {
      var stored := GetStoredTimerState(store.data);
      this.store := store;
      isRunning := stored.isRunning;
      startTimeRef := stored.startTime;
      accumulatedTimeRef := stored.accumulatedTime;
      if stored.isRunning && Truthy(stored.startTime) {
        var diff := SegmentSeconds(stored.startTime.value, now);
        elapsedTime := stored.accumulatedTime + diff;
      } else {
        elapsedTime := stored.accumulatedTime;
      }
    }

    method Tick(now: int)
      requires Valid()
      modifies this`elapsedTime
      ensures Valid()
      ensures State() == Ticked(old(State()), now)
    {
      if isRunning && Truthy(startTimeRef) {
        var currentSessionDuration := SegmentSeconds(startTimeRef.value, now);
        elapsedTime := accumulatedTimeRef + currentSessionDuration;
      }
    }

    method Start(now: int)
      requires Valid()
      modifies this, store
      ensures Valid()
      ensures State() == Started(old(State()), now).engine
      ensures store.data == Persist(old(store.data), Started(old(State()), now).written)
    {
      if !isRunning {
        isRunning := true;
        startTimeRef := Some(now);
        store.SaveStoredTimerState(TimerState(true, Some(now), elapsedTime));
      }
    }

    method Pause()
      requires Valid()
      modifies this, store
      ensures Valid()
      ensures State() == Paused(old(State())).engine
      ensures store.data == Persist(old(store.data), Paused(old(State())).written)
    {
      if isRunning {
        isRunning := false;
        accumulatedTimeRef := elapsedTime;
        startTimeRef := None;
        store.SaveStoredTimerState(TimerState(false, None, elapsedTime));
      }
    }

    /** Returns the last ticked elapsed time and clears the timer, from any state. */
    method Stop() returns (finalTime: int)
      requires Valid()
      modifies this, store
      ensures Valid()
      ensures finalTime == old(elapsedTime)
      ensures State() == Cleared().engine
      ensures store.data == Persist(old(store.data), Cleared().written)
    {
      finalTime := elapsedTime;
      isRunning := false;
      elapsedTime := 0;
      accumulatedTimeRef := 0;
      startTimeRef := None;
      store.SaveStoredTimerState(TimerState(false, None, 0));
    }

    /** Clears the timer exactly as `Stop` does, without returning anything. */
    method Reset()
      requires Valid()
      modifies this, store
      ensures Valid()
      ensures State() == Cleared().engine
      ensures store.data == Persist(old(store.data), Cleared().written)
    {
      isRunning := false;
      elapsedTime := 0;
      accumulatedTimeRef := 0;
      startTimeRef := None;
      store.SaveStoredTimerState(TimerState(false, None, 0));
    }
  }
}
