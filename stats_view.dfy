/** The `stats` computation of components/Stats.tsx. A local calendar day is a day
    number; the source's noon timestamps of distinct days lie a whole number of days
    apart, so its rounded day difference is the difference of day numbers. */
module StatsView {
  import opened Types
  import opened Lists
  import opened Tally

  /** Streaks, and totals in seconds (the source shows them as hours). */
  datatype Summary = Summary(currentStreak: int, longestStreak: int, totalSeconds: int, todaySeconds: int)

  function Abs(x: int): int {
    if x < 0 then -x else x
  }

  function Max(a: int, b: int): int {
    if a >= b then a else b
  }

  /** The days of the sessions in the order they are first met, as the insertion-ordered
      map of the source keeps them. */
  function FirstSeen(sessions: seq<Session>, dayOf: int -> int): (r: seq<int>)
    ensures NoDup(r)
    ensures forall i :: 0 <= i < |sessions| ==> dayOf(sessions[i].timestamp) in r
    ensures forall x :: x in r ==> exists i :: 0 <= i < |sessions| && dayOf(sessions[i].timestamp) == x
  {
    if sessions == [] then []
    else
      var init := sessions[..|sessions| - 1];
      var d := dayOf(sessions[|sessions| - 1].timestamp);
      var prior := FirstSeen(init, dayOf);
      assert forall i :: 0 <= i < |init| ==> init[i] == sessions[i];
      if d in prior then prior else prior + [d]
  }

  function Negate(x: int): int { -x }

  /** The days of the sessions, each once, in increasing order. */
  ghost predicate IsDaySet(days: seq<int>, sessions: seq<Session>, dayOf: int -> int) {
    && (forall i, j :: 0 <= i < j < |days| ==> days[i] < days[j])
    && (forall i :: 0 <= i < |sessions| ==> dayOf(sessions[i].timestamp) in days)
    && (forall x :: x in days ==> exists i :: 0 <= i < |sessions| && dayOf(sessions[i].timestamp) == x)
  }

  /** Day `k` continues the streak of day `k - 1`. */
  predicate Linked(days: seq<int>, k: int)
    requires 0 < k < |days|
  {
    Abs(days[k] - days[k - 1]) == 1
  }

  /** Days `lo` to `hi` form one streak. */
  ghost predicate IsRun(days: seq<int>, lo: int, hi: int) {
    0 <= lo <= hi < |days| && forall k :: lo < k <= hi ==> Linked(days, k)
  }

  /** `len` is the length of the longest streak (0 when there are no days). */
  ghost predicate IsLongestRun(days: seq<int>, len: int) {
    && (days == [] ==> len == 0)
    && (days != [] ==> exists lo, hi :: IsRun(days, lo, hi) && hi - lo + 1 == len)
    && (forall lo, hi :: IsRun(days, lo, hi) ==> hi - lo + 1 <= len)
  }

  /** `len` is the length of the streak the last day belongs to. */
  ghost predicate IsTrailingRun(days: seq<int>, len: int) {
    && 1 <= len <= |days|
    && IsRun(days, |days| - len, |days| - 1)
    && (|days| - len == 0 || !Linked(days, |days| - len))
  }

  /** The stats for `sessions` on day `today`; `days` is the sorted list of distinct
      days the streaks are counted over. */
  method ComputeStats(sessions: seq<Session>, dayOf: int -> int, today: int) returns (st: Summary, days: seq<int>)
    ensures sessions == [] ==> st == Summary(0, 0, 0, 0) && days == []
    ensures IsDaySet(days, sessions, dayOf)
    ensures st.totalSeconds == TotalDuration(sessions)
    ensures st.todaySeconds == DaySeconds(sessions, dayOf, today)
    ensures IsLongestRun(days, st.longestStreak)
    ensures days != [] && (days[|days| - 1] == today || days[|days| - 1] == today - 1) ==>
      IsTrailingRun(days, st.currentStreak)
    ensures days == [] || !(days[|days| - 1] == today || days[|days| - 1] == today - 1) ==>
      st.currentStreak == 0
  {
    if |sessions| == 0 {
      return Summary(0, 0, 0, 0), [];
    }
    var totalSeconds := TotalDuration(sessions);
    var seen := CollectDays(sessions, dayOf);
    days := SortAscending(seen, sessions, dayOf);
    var maxStreak, tempStreak := CountStreaks(days);

    var lastDate := days[|days| - 1];
    var currentStreakCount := if lastDate == today || lastDate == today - 1 then tempStreak else 0;

    var todaySeconds := TotalDuration(Filter(sessions, OnDay(dayOf, today)));
    FilteredTotalIsDaySeconds(sessions, dayOf, today);
    st := Summary(currentStreakCount, maxStreak, totalSeconds, todaySeconds);
  }

  /** Filling the map of days in session order. */
  method CollectDays(sessions: seq<Session>, dayOf: int -> int) returns (seen: seq<int>)
    ensures seen == FirstSeen(sessions, dayOf)
  {
    seen := [];
    var i := 0;
    while i < |sessions|
      invariant 0 <= i <= |sessions|
      invariant seen == FirstSeen(sessions[..i], dayOf)
    {
      var key := dayOf(sessions[i].timestamp);
      assert sessions[..i + 1][..i] == sessions[..i];
      if key !in seen {
        seen := seen + [key];
      }
      i := i + 1;
    }
    assert sessions[..i] == sessions;
  }

  /** `Array.from(map.values()).sort((a, b) => a - b)`: the days in increasing order. */
  method SortAscending(seen: seq<int>, sessions: seq<Session>, dayOf: int -> int) returns (days: seq<int>)
    requires seen == FirstSeen(sessions, dayOf)
    ensures IsDaySet(days, sessions, dayOf)
    ensures sessions != [] ==> days != []
  {
    days := SortBy(seen, Negate);
    SortedDaysIncrease(seen, days);
    if sessions != [] {
      assert dayOf(sessions[0].timestamp) in seen;
    }
    forall x | x in seen ensures x in days {
      assert x in multiset(seen);
    }
    forall x | x in days ensures x in seen {
      assert x in multiset(days);
    }
  }

  /** The streak loop: the longest streak, and the streak of the last day. */
  method CountStreaks(days: seq<int>) returns (maxStreak: int, tempStreak: int)
    requires days != []
    ensures IsLongestRun(days, maxStreak)
    ensures IsTrailingRun(days, tempStreak)
  {
    maxStreak := 0;
    tempStreak := 0;
    ghost var bestLo, bestHi := 0, 0;
    for j := 0 to |days|
      invariant j == 0 ==> tempStreak == 0 && maxStreak == 0
      invariant j > 0 ==> 1 <= tempStreak <= j && IsRun(days, j - tempStreak, j - 1)
      invariant j > 0 ==> j - tempStreak == 0 || !Linked(days, j - tempStreak)
      invariant j > 0 ==> IsRun(days, bestLo, bestHi) && bestHi < j && bestHi - bestLo + 1 == maxStreak
      invariant forall lo, hi :: IsRun(days, lo, hi) && hi < j ==> hi - lo + 1 <= maxStreak
    {
      if j == 0 {
        tempStreak := 1;
      } else {
        var prev := days[j - 1];
        var curr := days[j];
        var diffDays := Abs(curr - prev);
        if diffDays == 1 {
          tempStreak := tempStreak + 1;
        } else {
          tempStreak := 1;
        }
      }
      assert IsRun(days, j + 1 - tempStreak, j);
      if tempStreak > maxStreak {
        bestLo, bestHi := j + 1 - tempStreak, j;
      }
      maxStreak := Max(maxStreak, tempStreak);
    }
  }

  /** Sorting distinct days by descending negation lists them strictly increasing. */
  lemma SortedDaysIncrease(seen: seq<int>, days: seq<int>)
    requires NoDup(seen) && multiset(days) == multiset(seen) && Descending(days, Negate)
    ensures forall i, j :: 0 <= i < j < |days| ==> days[i] < days[j]
  {
    PermutationKeepsNoDup(seen, days);
    forall i, j | 0 <= i < j < |days| ensures days[i] < days[j] {
      assert Negate(days[i]) >= Negate(days[j]);
    }
  }

  /** On increasing days a streak is a block of consecutive calendar days. */
  lemma {:induction false} RunIsConsecutive(days: seq<int>, lo: int, hi: int)
    requires forall i, j :: 0 <= i < j < |days| ==> days[i] < days[j]
    requires IsRun(days, lo, hi)
    ensures days[hi] - days[lo] == hi - lo
    decreases hi - lo
  {
    if lo < hi {
      assert Linked(days, hi);
      assert IsRun(days, lo, hi - 1);
      RunIsConsecutive(days, lo, hi - 1);
    }
  }

  /** The current streak never exceeds the longest, and with at least one day the
      longest streak lies between 1 and the number of distinct days. */
  lemma StreakBounds(days: seq<int>, longest: int, current: int)
    requires IsLongestRun(days, longest)
    ensures days != [] ==> 1 <= longest <= |days|
    ensures IsTrailingRun(days, current) ==> current <= longest
  {
    if days != [] {
      var lo, hi :| IsRun(days, lo, hi) && hi - lo + 1 == longest;
      assert IsRun(days, 0, 0);
    }
    if IsTrailingRun(days, current) {
      assert IsRun(days, |days| - current, |days| - 1);
    }
  }

  /** Two sorted day lists of the same sessions are the same list, so the streaks
      do not depend on the order of the sessions. */
  lemma DaySetUnique(a: seq<int>, b: seq<int>, sessions: seq<Session>, dayOf: int -> int)
    requires IsDaySet(a, sessions, dayOf) && IsDaySet(b, sessions, dayOf)
    ensures a == b
  {
    SameIncreasing(a, b);
  }

  lemma {:induction false} SameIncreasing(a: seq<int>, b: seq<int>)
    requires forall i, j :: 0 <= i < j < |a| ==> a[i] < a[j]
    requires forall i, j :: 0 <= i < j < |b| ==> b[i] < b[j]
    requires forall x :: x in a <==> x in b
    ensures a == b
    decreases |a|
  {
    assert a != [] ==> a[0] in a;
    assert b != [] ==> b[0] in b;
    if a != [] && b != [] {
      // both start with the least element of the common set
      assert a[0] == b[0] by {
        assert a[0] in b && b[0] in a;
      }
      forall x ensures x in a[1..] <==> x in b[1..] {
        if x in a[1..] {
          assert x in a;
          var k :| 0 <= k < |a[1..]| && a[1..][k] == x;
          assert a[k + 1] == x && a[0] < x;
          var m :| 0 <= m < |b| && b[m] == x;
          assert m != 0;
          assert b[1..][m - 1] == x;
        }
        if x in b[1..] {
          assert x in b;
          var k :| 0 <= k < |b[1..]| && b[1..][k] == x;
          assert b[k + 1] == x && b[0] < x;
          var m :| 0 <= m < |a| && a[m] == x;
          assert m != 0;
          assert a[1..][m - 1] == x;
        }
      }
      SameIncreasing(a[1..], b[1..]);
      assert a == [a[0]] + a[1..] && b == [b[0]] + b[1..];
    }
  }
}
