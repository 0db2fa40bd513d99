/** The year grid of components/ContributionGraph.tsx: 365 days of seconds ending
    today, cut into Sunday-to-Saturday columns with the first column padded at the top,
    and five colour levels. Days are day numbers counted from 1 January 1970. */
module ContributionGraph {
  import opened Types
  import opened Tally

  /** One square of the grid (the source also keeps the hours, a rounded float). */
  datatype DayCell = DayCell(day: int, seconds: int)

  /** A column of the grid; `None` is a padding square. */
  type Week = seq<Option<DayCell>>

  const DaysShown: int := 365

  const Saturday: int := 6

  /** `getDay()` of a day number: 0 is Sunday, and day 0 was a Thursday. */
  function Weekday(day: int): (w: int)
    ensures 0 <= w < 7
  {
    (day + 4) % 7
  }

  /** Of any seven days in a row one is a Saturday. */
  lemma SevenDaysHoldSaturday(d: int) returns (k: int)
    ensures 0 <= k < 7 && Weekday(d + k) == Saturday
  {
    var w := Weekday(d);
    k := 6 - w;
    assert d + 4 == 7 * ((d + 4) / 7) + w;
    assert d + k + 4 == 7 * ((d + 4) / 7) + 6;
  }

  /** The days follow each other in the calendar. */
  ghost predicate Consecutive(days: seq<DayCell>) {
    forall k :: 0 <= k < |days| ==> days[k].day == days[0].day + k
  }

  lemma ConsecutiveOffset(days: seq<DayCell>, a: int, b: int)
    requires Consecutive(days) && 0 <= a <= b < |days|
    ensures days[b].day == days[a].day + (b - a)
  {
  }

  /** The value of `(sessionMap.get(key) || 0)`. */
  function StoredOrZero(m: map<int, int>, key: int): int {
    if key in m then m[key] else 0
  }

  /** `calendarData`: the seconds of each of the 365 days ending `today`. */
  method CalendarData(sessions: seq<Session>, dayOf: int -> int, today: int) returns (days: seq<DayCell>)
    ensures |days| == DaysShown
    ensures forall k :: 0 <= k < DaysShown ==>
      days[k] == DayCell(today - (DaysShown - 1) + k, DaySeconds(sessions, dayOf, today - (DaysShown - 1) + k))
    ensures days[DaysShown - 1].day == today && Consecutive(days)
  {
    var startDate := today - (DaysShown - 1);

    var sessionMap: map<int, int> := map[];
    for i := 0 to |sessions|
      invariant forall d :: StoredOrZero(sessionMap, d) == DaySeconds(sessions[..i], dayOf, d)
    {
      var key := dayOf(sessions[i].timestamp);
      assert sessions[..i + 1][..i] == sessions[..i];
      sessionMap := sessionMap[key := StoredOrZero(sessionMap, key) + sessions[i].duration];
    }
    assert sessions[..|sessions|] == sessions;

    days := [];
    for i := 0 to DaysShown
      invariant |days| == i
      invariant forall k :: 0 <= k < i ==> days[k] == DayCell(startDate + k, DaySeconds(sessions, dayOf, startDate + k))
    {
      var current := startDate + i;
      var seconds := StoredOrZero(sessionMap, current);
      days := days + [DayCell(current, seconds)];
    }
  }

  /** The days of a column, without its padding. */
  function Unpadded(week: Week): seq<DayCell> {
    DaysBefore(week, |week|)
  }

  /** The days among the first `n` squares of a column. */
  function DaysBefore(week: Week, n: int): seq<DayCell>
    requires 0 <= n <= |week|
    decreases n
  {
    if n == 0 then []
    else DaysBefore(week, n - 1) + (if week[n - 1].Some? then [week[n - 1].value] else [])
  }

  /** The days of all columns in order. */
  function Joined(weeks: seq<Week>): seq<DayCell> {
    JoinedBefore(weeks, |weeks|)
  }

  /** The days of the first `n` columns. */
  function JoinedBefore(weeks: seq<Week>, n: int): seq<DayCell>
    requires 0 <= n <= |weeks|
    decreases n
  {
    if n == 0 then [] else JoinedBefore(weeks, n - 1) + Unpadded(weeks[n - 1])
  }

  lemma {:induction false} DaysBeforeAppend(week: Week, c: Option<DayCell>, n: int)
    requires 0 <= n <= |week|
    ensures DaysBefore(week + [c], n) == DaysBefore(week, n)
    decreases n
  {
    if n > 0 {
      DaysBeforeAppend(week, c, n - 1);
      assert (week + [c])[n - 1] == week[n - 1];
    }
  }

  lemma UnpaddedAppend(week: Week, c: Option<DayCell>)
    ensures Unpadded(week + [c]) == Unpadded(week) + (if c.Some? then [c.value] else [])
  {
    DaysBeforeAppend(week, c, |week|);
  }

  lemma {:induction false} JoinedBeforeAppend(weeks: seq<Week>, w: Week, n: int)
    requires 0 <= n <= |weeks|
    ensures JoinedBefore(weeks + [w], n) == JoinedBefore(weeks, n)
    decreases n
  {
    if n > 0 {
      JoinedBeforeAppend(weeks, w, n - 1);
      assert (weeks + [w])[n - 1] == weeks[n - 1];
    }
  }

  lemma JoinedAppend(weeks: seq<Week>, w: Week)
    ensures Joined(weeks + [w]) == Joined(weeks) + Unpadded(w)
  {
    JoinedBeforeAppend(weeks, w, |weeks|);
  }

  /** Padding squares in front do not add days. */
  lemma {:induction false} UnpaddedPadding(n: nat, week: Week)
    ensures Unpadded(seq(n, _ => None) + week) == Unpadded(week)
    decreases |week|
  {
    var pad: Week := seq(n, _ => None);
    if week == [] {
      assert pad + week == pad;
      AllPadding(pad, n);
    } else {
      var init := week[..|week| - 1];
      assert pad + week == (pad + init) + [week[|week| - 1]];
      assert week == init + [week[|week| - 1]];
      UnpaddedAppend(pad + init, week[|week| - 1]);
      UnpaddedAppend(init, week[|week| - 1]);
      UnpaddedPadding(n, init);
    }
  }

  lemma {:induction false} AllPadding(pad: Week, k: nat)
    requires k <= |pad| && forall j :: 0 <= j < |pad| ==> pad[j].None?
    ensures DaysBefore(pad, k) == []
  {
    if k > 0 {
      AllPadding(pad, k - 1);
    }
  }

  /** The last square of a non-empty column. */
  function LastCell(w: Week): Option<DayCell>
    requires w != []
  {
    w[|w| - 1]
  }

  /** No square above the bottom of the column is a Saturday. */
  ghost predicate NoEarlySaturday(w: Week) {
    forall j :: 0 <= j < |w| - 1 && w[j].Some? ==> Weekday(w[j].value.day) != Saturday
  }

  /** Every column but the last ends on a Saturday and the last ends on the last day;
      no column holds a Saturday before its end. */
  ghost predicate ClosedAtSaturdays(weeks: seq<Week>, days: seq<DayCell>) {
    && (forall k :: 0 <= k < |weeks| ==> weeks[k] != [] && LastCell(weeks[k]).Some?)
    && (forall k :: 0 <= k < |weeks| - 1 ==> Weekday(LastCell(weeks[k]).value.day) == Saturday)
    && (days != [] ==> weeks != [] && LastCell(weeks[|weeks| - 1]) == Some(days[|days| - 1]))
    && (forall k :: 0 <= k < |weeks| ==> NoEarlySaturday(weeks[k]))
  }

  /** A column without padding. */
  ghost predicate AllDays(w: Week) {
    forall j :: 0 <= j < |w| ==> w[j].Some?
  }

  /** A first column: at least seven squares, padding only at the top, and padding
      only when it has exactly seven. */
  ghost predicate PaddedTop(w: Week) {
    && |w| >= 7
    && (forall j1, j2 :: 0 <= j1 < j2 < |w| && w[j2].None? ==> w[j1].None?)
    && (forall j :: 0 <= j < |w| && w[j].None? ==> |w| == 7)
  }

  /** Only the first column is padded, only at its top, and only up to seven squares. */
  ghost predicate PaddedFirstWeek(weeks: seq<Week>) {
    && (forall k :: 0 < k < |weeks| ==> AllDays(weeks[k]))
    && (weeks != [] ==> PaddedTop(weeks[0]))
  }

  lemma PaddedAppend(weeks: seq<Week>, w: Week)
    requires PaddedFirstWeek(weeks)
    requires weeks == [] ==> PaddedTop(w)
    requires weeks != [] ==> AllDays(w)
    ensures PaddedFirstWeek(weeks + [w])
  {
  }

  /** The first column as the source pads it: short columns get padding on top. */
  lemma PadFirst(w: Week)
    requires AllDays(w)
    ensures PaddedTop(if |w| < 7 then seq(7 - |w|, _ => None) + w else w)
  {
    if |w| < 7 {
      var padded: Week := seq(7 - |w|, _ => None) + w;
      assert forall j :: 0 <= j < |padded| ==> (padded[j].None? <==> j < 7 - |w|);
    }
  }

  /** A column as it is pushed: the first one gets padding on top up to seven squares. */
  method CloseWeek(currentWeek: Week, first: bool) returns (column: Week)
    requires currentWeek != [] && AllDays(currentWeek) && NoEarlySaturday(currentWeek)
    ensures Unpadded(column) == Unpadded(currentWeek)
    ensures column != [] && LastCell(column) == LastCell(currentWeek)
    ensures NoEarlySaturday(column)
    ensures first ==> PaddedTop(column)
    ensures !first ==> column == currentWeek
    ensures |currentWeek| <= 7 ==> |column| <= 7
  {
    column := currentWeek;
    if first {
      PadFirst(currentWeek);
      if |currentWeek| < 7 {
        UnpaddedPadding(7 - |currentWeek|, currentWeek);
        column := seq(7 - |currentWeek|, _ => None) + currentWeek;
      }
    }
  }

  /** The column holds days `start` to `end`, one square each and no padding. */
  ghost predicate Holds(w: Week, days: seq<DayCell>, start: int, end: int)
    requires 0 <= start <= end <= |days|
  {
    |w| == end - start && forall j :: 0 <= j < |w| ==> w[j] == Some(days[start + j])
  }

  lemma HoldsExtend(w: Week, days: seq<DayCell>, start: int, index: int)
    requires 0 <= start <= index < |days| && Holds(w, days, start, index)
    ensures Holds(w + [Some(days[index])], days, start, index + 1)
  {
    var w' := w + [Some(days[index])];
    assert forall j :: 0 <= j < |w| ==> w'[j] == w[j];
  }

  lemma HoldsUnpadded(w: Week, days: seq<DayCell>, start: int, end: int)
    requires 0 <= start <= end <= |days| && Holds(w, days, start, end)
    ensures days[..start] + Unpadded(w) == days[..end]
  {
    HoldsBefore(w, days, start, end, |w|);
  }

  lemma {:induction false} HoldsBefore(w: Week, days: seq<DayCell>, start: int, end: int, k: int)
    requires 0 <= start <= end <= |days| && Holds(w, days, start, end) && 0 <= k <= |w|
    ensures days[..start] + DaysBefore(w, k) == days[..start + k]
    decreases k
  {
    if k > 0 {
      HoldsBefore(w, days, start, end, k - 1);
      assert w[k - 1] == Some(days[start + k - 1]);
      assert days[..start + k] == days[..start + k - 1] + [days[start + k - 1]];
    }
  }

  /** The columns closed so far hold the first `upTo` days. */
  ghost predicate Done(weeks: seq<Week>, days: seq<DayCell>, upTo: int) {
    && Covers(weeks, days, upTo)
    && Shaped(weeks)
    && SaturdayEnds(weeks, days, upTo)
    && PaddedFirstWeek(weeks)
    && (Consecutive(days) ==> Fits(weeks))
  }

  ghost predicate Covers(weeks: seq<Week>, days: seq<DayCell>, upTo: int) {
    && 0 <= upTo <= |days|
    && Joined(weeks) == days[..upTo]
    && (weeks == [] <==> upTo == 0)
  }

  ghost predicate Shaped(weeks: seq<Week>) {
    forall k :: 0 <= k < |weeks| ==> weeks[k] != [] && LastCell(weeks[k]).Some? && NoEarlySaturday(weeks[k])
  }

  ghost predicate SaturdayEnds(weeks: seq<Week>, days: seq<DayCell>, upTo: int)
    requires Shaped(weeks)
  {
    && (forall k :: 0 <= k < |weeks| ==>
          Weekday(LastCell(weeks[k]).value.day) == Saturday || (k == |weeks| - 1 && upTo == |days|))
    && (0 < upTo <= |days| && weeks != [] ==> LastCell(weeks[|weeks| - 1]) == Some(days[upTo - 1]))
  }

  ghost predicate Fits(weeks: seq<Week>) {
    forall k :: 0 <= k < |weeks| ==> |weeks[k]| <= 7
  }

  lemma DoneAppend(weeks: seq<Week>, days: seq<DayCell>, start: int, end: int, column: Week)
    requires Done(weeks, days, start) && start < end <= |days|
    requires days[..start] + Unpadded(column) == days[..end]
    requires column != [] && LastCell(column) == Some(days[end - 1]) && NoEarlySaturday(column)
    requires Weekday(days[end - 1].day) == Saturday || end == |days|
    requires weeks == [] ==> PaddedTop(column)
    requires weeks != [] ==> AllDays(column)
    requires Consecutive(days) ==> |column| <= 7
    ensures Done(weeks + [column], days, end)
  {
    CoversAppend(weeks, days, start, end, column);
    ShapedAppend(weeks, column);
    SaturdayEndsAppend(weeks, days, start, end, column);
    PaddedAppend(weeks, column);
    if Consecutive(days) {
      FitsAppend(weeks, column);
    }
  }

  lemma CoversAppend(weeks: seq<Week>, days: seq<DayCell>, start: int, end: int, column: Week)
    requires Covers(weeks, days, start) && start < end <= |days|
    requires days[..start] + Unpadded(column) == days[..end]
    ensures Covers(weeks + [column], days, end)
  {
    JoinedAppend(weeks, column);
  }

  lemma ShapedAppend(weeks: seq<Week>, column: Week)
    requires Shaped(weeks)
    requires column != [] && LastCell(column).Some? && NoEarlySaturday(column)
    ensures Shaped(weeks + [column])
  {
    forall k | 0 <= k < |weeks| + 1
      ensures (weeks + [column])[k] != [] && LastCell((weeks + [column])[k]).Some? && NoEarlySaturday((weeks + [column])[k])
    {
      if k < |weeks| {
        assert (weeks + [column])[k] == weeks[k];
      }
    }
  }

  lemma SaturdayEndsAppend(weeks: seq<Week>, days: seq<DayCell>, start: int, end: int, column: Week)
    requires Shaped(weeks) && SaturdayEnds(weeks, days, start) && 0 <= start < end <= |days|
    requires column != [] && LastCell(column) == Some(days[end - 1]) && NoEarlySaturday(column)
    requires Weekday(days[end - 1].day) == Saturday || end == |days|
    ensures Shaped(weeks + [column]) && SaturdayEnds(weeks + [column], days, end)
  {
    ShapedAppend(weeks, column);
    var ws := weeks + [column];
    forall k | 0 <= k < |ws|
      ensures Weekday(LastCell(ws[k]).value.day) == Saturday || (k == |ws| - 1 && end == |days|)
    {
      if k < |weeks| {
        assert ws[k] == weeks[k];
      }
    }
  }

  lemma FitsAppend(weeks: seq<Week>, column: Week)
    requires Fits(weeks) && |column| <= 7
    ensures Fits(weeks + [column])
  {
  }

  /** A column closed on its last day has no Saturday above its bottom square. */
  lemma ClosedColumn(w: Week, days: seq<DayCell>, start: int, end: int)
    requires 0 <= start < end <= |days| && Holds(w, days, start, end)
    requires forall j :: start <= j < end - 1 ==> Weekday(days[j].day) != Saturday
    ensures AllDays(w) && NoEarlySaturday(w)
    ensures days[..start] + Unpadded(w) == days[..end]
    ensures LastCell(w) == Some(days[end - 1])
  {
    HoldsUnpadded(w, days, start, end);
    forall j | 0 <= j < |w| - 1 && w[j].Some?
      ensures Weekday(w[j].value.day) != Saturday
    {
      assert w[j] == Some(days[start + j]);
    }
  }

  /** The loop state after `index` days: closed columns up to `start`, and the open
      column holding the days since, none of them a Saturday. */
  ghost predicate Open(weeks: seq<Week>, currentWeek: Week, days: seq<DayCell>, start: int, index: int) {
    && 0 <= start <= index <= |days|
    && Done(weeks, days, start)
    && Holds(currentWeek, days, start, index)
    && (forall j :: start <= j < index ==> Weekday(days[j].day) != Saturday)
    && (index == |days| ==> start == index)
    && (Consecutive(days) ==> index - start <= 6)
  }

  /** `weeks`: the columns of the grid. */
  method Weeks(days: seq<DayCell>) returns (weeks: seq<Week>)
    ensures Joined(weeks) == days
    ensures days == [] <==> weeks == []
    ensures ClosedAtSaturdays(weeks, days)
    ensures PaddedFirstWeek(weeks)
    ensures Consecutive(days) ==> forall k :: 0 <= k < |weeks| ==> |weeks[k]| <= 7
    ensures Consecutive(days) && days != [] ==> |weeks[0]| == 7
  {
    weeks := [];
    var currentWeek: Week := [];
    ghost var start := 0;
    assert days[..0] == [];
    for index := 0 to |days|
      invariant Open(weeks, currentWeek, days, start, index)
    {
      weeks, currentWeek, start := PlaceDay(days, weeks, currentWeek, start, index);
    }
    DoneAll(weeks, days);
  }

  /** One turn of the `forEach`: the day joins the open column, which is pushed when
      the day is a Saturday or the last day. */
  method PlaceDay(days: seq<DayCell>, weeks: seq<Week>, currentWeek: Week, ghost start: int, index: int)
    returns (weeks': seq<Week>, currentWeek': Week, ghost start': int)
    requires index < |days| && Open(weeks, currentWeek, days, start, index)
    ensures Open(weeks', currentWeek', days, start', index + 1)
  {
    var day := days[index];
    if Weekday(day.day) == Saturday || index == |days| - 1 {
      weeks', currentWeek', start' := PushWeek(days, weeks, currentWeek, start, index);
    } else {
      ExtendOpen(weeks, currentWeek, days, start, index);
      weeks', currentWeek', start' := weeks, currentWeek + [Some(day)], start;
    }
  }

  /** The day closes the open column, which is pushed. */
  method PushWeek(days: seq<DayCell>, weeks: seq<Week>, currentWeek: Week, ghost start: int, index: int)
    returns (weeks': seq<Week>, currentWeek': Week, ghost start': int)
    requires index < |days| && Open(weeks, currentWeek, days, start, index)
    requires Weekday(days[index].day) == Saturday || index == |days| - 1
    ensures Open(weeks', currentWeek', days, start', index + 1)
  {
    var extended := currentWeek + [Some(days[index])];
    Closable(weeks, currentWeek, days, start, index);
    var column := CloseWeek(extended, |weeks| == 0);
    Pushed(weeks, currentWeek, days, start, index, column);
    weeks', currentWeek', start' := weeks + [column], [], index + 1;
  }

  /** The open column with day `index` added can be closed. */
  lemma Closable(weeks: seq<Week>, currentWeek: Week, days: seq<DayCell>, start: int, index: int)
    requires index < |days| && Open(weeks, currentWeek, days, start, index)
    ensures var closing := currentWeek + [Some(days[index])];
      closing != [] && AllDays(closing) && NoEarlySaturday(closing)
  {
    HoldsExtend(currentWeek, days, start, index);
    ClosedColumn(currentWeek + [Some(days[index])], days, start, index + 1);
  }

  /** Pushing the column that `CloseWeek` makes of the open column and day `index`. */
  lemma Pushed(weeks: seq<Week>, currentWeek: Week, days: seq<DayCell>, start: int, index: int, column: Week)
    requires index < |days| && Open(weeks, currentWeek, days, start, index)
    requires Weekday(days[index].day) == Saturday || index == |days| - 1
    requires var closing := currentWeek + [Some(days[index])];
      && Unpadded(column) == Unpadded(closing)
      && column != [] && LastCell(column) == LastCell(closing)
      && NoEarlySaturday(column)
      && (|weeks| == 0 ==> PaddedTop(column))
      && (|weeks| != 0 ==> column == closing)
      && (|closing| <= 7 ==> |column| <= 7)
    ensures Open(weeks + [column], [], days, index + 1, index + 1)
  {
    var closing := currentWeek + [Some(days[index])];
    HoldsExtend(currentWeek, days, start, index);
    ClosedColumn(closing, days, start, index + 1);
    CloseOpen(weeks, closing, days, start, index, column);
  }

  /** Pushing the column closed on day `index` keeps the closed columns in shape. */
  lemma CloseOpen(weeks: seq<Week>, closing: Week, days: seq<DayCell>, start: int, index: int, column: Week)
    requires 0 <= start <= index < |days| && Done(weeks, days, start)
    requires Weekday(days[index].day) == Saturday || index == |days| - 1
    requires Consecutive(days) ==> index - start <= 6
    requires |closing| == index + 1 - start
    requires days[..start] + Unpadded(closing) == days[..index + 1]
    requires Unpadded(column) == Unpadded(closing)
    requires column != [] && LastCell(column) == Some(days[index]) && NoEarlySaturday(column)
    requires |weeks| == 0 ==> PaddedTop(column)
    requires |weeks| != 0 ==> AllDays(column)
    requires |closing| <= 7 ==> |column| <= 7
    ensures Open(weeks + [column], [], days, index + 1, index + 1)
  {
    DoneAppend(weeks, days, start, index + 1, column);
    EmptyOpen(weeks + [column], days, index + 1);
  }

  /** Right after a column is pushed the open column is empty. */
  lemma EmptyOpen(weeks: seq<Week>, days: seq<DayCell>, index: int)
    requires 0 <= index <= |days| && Done(weeks, days, index)
    ensures Open(weeks, [], days, index, index)
  {
  }

  /** A day that is neither a Saturday nor the last stays in the open column. */
  lemma ExtendOpen(weeks: seq<Week>, currentWeek: Week, days: seq<DayCell>, start: int, index: int)
    requires index < |days| - 1 && Open(weeks, currentWeek, days, start, index)
    requires Weekday(days[index].day) != Saturday
    ensures Open(weeks, currentWeek + [Some(days[index])], days, start, index + 1)
  {
    HoldsExtend(currentWeek, days, start, index);
    if Consecutive(days) {
      ShortOfSaturday(days, start, index);
    }
  }

  /** All days covered: the columns are the grid. */
  lemma DoneAll(weeks: seq<Week>, days: seq<DayCell>)
    requires Done(weeks, days, |days|)
    ensures Joined(weeks) == days
    ensures days == [] <==> weeks == []
    ensures ClosedAtSaturdays(weeks, days)
    ensures PaddedFirstWeek(weeks)
    ensures Consecutive(days) ==> forall k :: 0 <= k < |weeks| ==> |weeks[k]| <= 7
    ensures Consecutive(days) && days != [] ==> |weeks[0]| == 7
  {
    assert days[..|days|] == days;
  }

  /** Seven consecutive days without a Saturday cannot exist, so an open column of
      consecutive days stays under seven squares. */
  lemma ShortOfSaturday(days: seq<DayCell>, lo: int, hi: int)
    requires Consecutive(days) && 0 <= lo <= hi < |days|
    requires forall j :: lo <= j <= hi ==> Weekday(days[j].day) != Saturday
    ensures hi - lo + 1 <= 6
  {
    if hi - lo + 1 >= 7 {
      var k := SevenDaysHoldSaturday(days[lo].day);
      ConsecutiveOffset(days, lo, lo + k);
      assert false;
    }
  }

  /** `getColor`: the five shades, from no time to four hours and more. */
  function ColorLevel(seconds: int): (level: int)
    ensures 0 <= level <= 4
    ensures level == 0 <==> seconds == 0
    ensures level == 1 <==> seconds != 0 && seconds < 1800
    ensures level == 2 <==> 1800 <= seconds < 7200
    ensures level == 3 <==> 7200 <= seconds < 14400
    ensures level == 4 <==> seconds >= 14400
  {
    if seconds == 0 then 0
    else if seconds < 1800 then 1
    else if seconds < 7200 then 2
    else if seconds < 14400 then 3
    else 4
  }

  /** More time never gets a lighter shade; a negative total, which no real session
      produces, lands in the lowest non-empty shade. */
  lemma ColorMonotone(a: int, b: int)
    requires a <= b
    ensures 0 <= a ==> ColorLevel(a) <= ColorLevel(b)
    ensures a < 0 ==> ColorLevel(a) == 1
  {
  }
}
