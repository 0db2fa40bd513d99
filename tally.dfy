/** Duration sums over sessions, shared by the statistics and the contribution graph.
    Days are whole day numbers; `dayOf` maps a session's timestamp to its local day. */
module Tally {
  import opened Types
  import opened Lists

  /** `sessions.reduce((acc, curr) => acc + curr.duration, 0)`, a fold from the left. */
  function TotalDuration(sessions: seq<Session>): int {
    if sessions == [] then 0
    else TotalDuration(sessions[..|sessions| - 1]) + sessions[|sessions| - 1].duration
  }

  /** The seconds recorded on `day`: the reference the per-day aggregations meet. */
  function DaySeconds(sessions: seq<Session>, dayOf: int -> int, day: int): int {
    if sessions == [] then 0
    else
      var last := sessions[|sessions| - 1];
      DaySeconds(sessions[..|sessions| - 1], dayOf, day) + (if dayOf(last.timestamp) == day then last.duration else 0)
  }

  function OnDay(dayOf: int -> int, day: int): Session -> bool {
    (s: Session) => dayOf(s.timestamp) == day
  }

  lemma TotalAppend(sessions: seq<Session>, s: Session)
    ensures TotalDuration(sessions + [s]) == TotalDuration(sessions) + s.duration
  {
    assert (sessions + [s])[..|sessions|] == sessions;
  }

  /** Summing the sessions of one day picked out by a filter gives the day's seconds. */
  lemma {:induction false} FilteredTotalIsDaySeconds(sessions: seq<Session>, dayOf: int -> int, day: int)
    ensures TotalDuration(Filter(sessions, OnDay(dayOf, day))) == DaySeconds(sessions, dayOf, day)
  {
    if sessions != [] {
      var init := sessions[..|sessions| - 1];
      var last := sessions[|sessions| - 1];
      assert sessions == init + [last];
      FilterAppend(init, last, OnDay(dayOf, day));
      FilteredTotalIsDaySeconds(init, dayOf, day);
      if dayOf(last.timestamp) == day {
        TotalAppend(Filter(init, OnDay(dayOf, day)), last);
      } else {
        assert Filter(init, OnDay(dayOf, day)) + [] == Filter(init, OnDay(dayOf, day));
      }
    }
  }

  /** A day with no session has no seconds. */
  lemma {:induction false} NoSessionNoSeconds(sessions: seq<Session>, dayOf: int -> int, day: int)
    requires forall i :: 0 <= i < |sessions| ==> dayOf(sessions[i].timestamp) != day
    ensures DaySeconds(sessions, dayOf, day) == 0
  {
    if sessions != [] {
      NoSessionNoSeconds(sessions[..|sessions| - 1], dayOf, day);
    }
  }

  /** With non-negative durations a day never holds more than the total. */
  lemma {:induction false} DayWithinTotal(sessions: seq<Session>, dayOf: int -> int, day: int)
    requires forall i :: 0 <= i < |sessions| ==> sessions[i].duration >= 0
    ensures 0 <= DaySeconds(sessions, dayOf, day) <= TotalDuration(sessions)
  {
    if sessions != [] {
      DayWithinTotal(sessions[..|sessions| - 1], dayOf, day);
    }
  }
}
