/** The list of components/History.tsx: the five latest sessions, newest first, each
    with its duration as whole hours and minutes. Dates and clock times are drawn by
    the locale and are not modelled. */
module HistoryView {
  import opened Types
  import opened Lists
  import opened Text

  /** How many sessions the list shows. */
  const RecentCount: int := 5

  function Min(a: int, b: int): int {
    if a <= b then a else b
  }

  /** `recent`: a copy sorted newest first, cut after five. */
  function Recent(sessions: seq<Session>): (r: seq<Session>)
    ensures |r| == Min(RecentCount, |sessions|)
    ensures Descending(r, SessionTime)
    ensures multiset(r) <= multiset(sessions)
    ensures forall x, y :: x in multiset(sessions) - multiset(r) && y in r ==> x.timestamp <= y.timestamp
  {
    var sorted := SortBy(sessions, SessionTime);
    var k := Min(RecentCount, |sorted|);
    TakeLatest(sessions, sorted, k);
    sorted[..k]
  }

  /** The first `k` sessions of a newest-first permutation are the `k` latest. */
  lemma TakeLatest(sessions: seq<Session>, sorted: seq<Session>, k: nat)
    requires multiset(sorted) == multiset(sessions) && Descending(sorted, SessionTime)
    requires k <= |sorted|
    ensures Descending(sorted[..k], SessionTime)
    ensures multiset(sorted[..k]) <= multiset(sessions)
    ensures forall x, y :: x in multiset(sessions) - multiset(sorted[..k]) && y in sorted[..k] ==> x.timestamp <= y.timestamp
  {
    assert Descending(sorted[..k], SessionTime) by {
      forall i, j | 0 <= i < j < k ensures SessionTime(sorted[..k][i]) >= SessionTime(sorted[..k][j]) {
        assert sorted[..k][i] == sorted[i] && sorted[..k][j] == sorted[j];
      }
    }
    assert multiset(sessions) - multiset(sorted[..k]) == multiset(sorted[k..]) by {
      assert sorted == sorted[..k] + sorted[k..];
    }
    PrefixHoldsLargest(sorted, SessionTime, k);
    forall x, y | x in multiset(sessions) - multiset(sorted[..k]) && y in sorted[..k]
      ensures x.timestamp <= y.timestamp
    {
      assert SessionTime(x) <= SessionTime(y);
    }
  }

  /** The component draws nothing when there is no session. */
  predicate Renders(sessions: seq<Session>) {
    Recent(sessions) != []
  }

  lemma RendersIffAnySession(sessions: seq<Session>)
    ensures Renders(sessions) <==> sessions != []
  {
  }

  /** `formatDuration`: `"<h>h <m>m"` from one hour on, `"<m>m"` below. */
  function FormatDuration(secs: int): string {
    var h := secs / 3600;
    var m := JsRem(secs, 3600) / 60;
    if h > 0 then IntToString(h) + "h " + IntToString(m) + "m" else IntToString(m) + "m"
  }

  /** The first position of `c` in `s`, or `|s|` when it does not occur. */
  function IndexOf(s: string, c: char): (i: nat)
    ensures i <= |s| && (i < |s| ==> s[i] == c)
    ensures forall j :: 0 <= j < i ==> s[j] != c
  {
    if s == [] then 0
    else if s[0] == c then 0
    else
      var i := 1 + IndexOf(s[1..], c);
      assert forall j :: 1 <= j < i ==> s[j] == s[1..][j - 1];
      i
  }

  /** How a reader takes a duration label, in whole minutes: hours before the `h`
      and minutes after it, or minutes alone. */
  function ReadDuration(s: string): Option<int> {
    var at := IndexOf(s, 'h');
    if at < |s| then HoursAndMinutes(ParseInt(s[..at]), ParseInt(s[at + 1..])) else ParseInt(s)
  }

  function HoursAndMinutes(hours: Option<int>, minutes: Option<int>): Option<int> {
    if hours.Some? && minutes.Some? then Some(hours.value * 60 + minutes.value) else None
  }

  /** For a non-negative duration the label shows an `h` exactly from one hour on, and
      reads back as the whole minutes of the duration: the seconds are dropped. */
  lemma FormatDurationReadsBack(secs: int)
    requires secs >= 0
    ensures 'h' in FormatDuration(secs) <==> secs >= 3600
    ensures ReadDuration(FormatDuration(secs)).Some?
    ensures var minutes := ReadDuration(FormatDuration(secs)).value;
      minutes * 60 <= secs < minutes * 60 + 60
  {
    var h, m := Decompose(secs);
    LabelOfDuration(secs, h, m);
    LabelReadsBack(h, m);
  }

  /** Whole hours and the minutes left over. */
  lemma Decompose(secs: int) returns (h: nat, m: nat)
    requires secs >= 0
    ensures h == secs / 3600 && m == (secs % 3600) / 60
    ensures h > 0 <==> secs >= 3600
    ensures (h * 60 + m) * 60 <= secs < (h * 60 + m) * 60 + 60
  {
    h := secs / 3600;
    var r := secs % 3600;
    m := r / 60;
    assert secs == 3600 * h + r && 0 <= r < 3600;
    assert r == 60 * m + r % 60 && 0 <= m < 60;
  }

  /** The label of non-negative parts. */
  function Label(h: nat, m: nat): string {
    if h > 0 then NatToString(h) + "h " + NatToString(m) + "m" else NatToString(m) + "m"
  }

  lemma LabelOfDuration(secs: int, h: nat, m: nat)
    requires secs >= 0 && h == secs / 3600 && m == (secs % 3600) / 60
    ensures FormatDuration(secs) == Label(h, m)
  {
    assert JsRem(secs, 3600) == secs % 3600;
  }

  lemma LabelReadsBack(h: nat, m: nat)
    ensures 'h' in Label(h, m) <==> h > 0
    ensures ReadDuration(Label(h, m)) == Some(h * 60 + m)
  {
    if h > 0 {
      LabelWithHours(h, m);
    } else {
      LabelMinutesOnly(h, m);
    }
  }

  lemma LabelWithHours(h: nat, m: nat)
    requires h > 0
    ensures 'h' in Label(h, m) && ReadDuration(Label(h, m)) == Some(h * 60 + m)
  {
    assert Label(h, m) == NatToString(h) + "h " + NatToString(m) + "m";
    HoursText(h, m);
  }

  lemma HoursText(h: nat, m: nat)
    ensures 'h' in NatToString(h) + "h " + NatToString(m) + "m"
    ensures ReadDuration(NatToString(h) + "h " + NatToString(m) + "m") == Some(h * 60 + m)
  {
    var hs := NatToString(h);
    var ms := NatToString(m);
    assert hs + "h " + ms + "m" == hs + "h " + (ms + "m");
    ParseNatToString(h);
    MinutesPart(m);
    ReadPieces(hs, ms + "m", h, m);
  }

  /** The minutes of a label read back, with or without the space before them. */
  lemma MinutesPart(m: nat)
    ensures ParseInt(NatToString(m) + "m") == Some(m)
    ensures ParseInt(" " + (NatToString(m) + "m")) == Some(m)
  {
    var ms := NatToString(m);
    var t := ms + "m";
    assert t[0] == ms[0];
    DigitNotSpace(ms[0]);
    SkipSpace(t);
    ParseNatPrefix(m, "m");
  }

  /** A label split at its `h` reads as the two numbers on either side. */
  lemma ReadPieces(hs: string, rest: string, h: int, m: int)
    requires AllDigits(hs, 10)
    requires ParseInt(hs) == Some(h) && ParseInt(" " + rest) == Some(m)
    ensures 'h' in hs + "h " + rest
    ensures ReadDuration(hs + "h " + rest) == Some(h * 60 + m)
  {
    var s := hs + "h " + rest;
    HoursSplit(hs, rest);
    ReadSplit(s, |hs|, h, m);
  }

  /** Where a label with hours splits. */
  lemma HoursSplit(hs: string, rest: string)
    requires AllDigits(hs, 10)
    ensures var s := hs + "h " + rest;
      IndexOf(s, 'h') == |hs| && s[..|hs|] == hs && s[|hs| + 1..] == " " + rest
  {
    var s := hs + "h " + rest;
    assert s[|hs|] == 'h';
    assert forall j :: 0 <= j < |hs| ==> s[j] == hs[j] && IsDigit(s[j], 10);
    assert s[..|hs|] == hs;
    assert s[|hs| + 1..] == " " + rest;
  }

  lemma ReadSplit(s: string, at: nat, h: int, m: int)
    requires IndexOf(s, 'h') == at < |s|
    requires ParseInt(s[..at]) == Some(h) && ParseInt(s[at + 1..]) == Some(m)
    ensures ReadDuration(s) == Some(h * 60 + m)
  {
    ReadAtHours(s, at);
    HoursAndMinutesSome(h, m);
  }

  lemma ReadAtHours(s: string, at: nat)
    requires IndexOf(s, 'h') == at < |s|
    ensures ReadDuration(s) == HoursAndMinutes(ParseInt(s[..at]), ParseInt(s[at + 1..]))
  {
  }

  lemma HoursAndMinutesSome(h: int, m: int)
    ensures HoursAndMinutes(Some(h), Some(m)) == Some(h * 60 + m)
  {
  }

  lemma LabelMinutesOnly(h: nat, m: nat)
    requires h == 0
    ensures 'h' !in Label(h, m) && ReadDuration(Label(h, m)) == Some(h * 60 + m)
  {
    assert Label(h, m) == NatToString(m) + "m";
    MinutesText(m);
  }

  lemma MinutesText(m: nat)
    ensures 'h' !in NatToString(m) + "m"
    ensures ReadDuration(NatToString(m) + "m") == Some(m)
  {
    var ms := NatToString(m);
    var s := ms + "m";
    assert forall j :: 0 <= j < |ms| ==> s[j] == ms[j] && IsDigit(s[j], 10);
    assert s[|ms|] == 'm';
    assert IndexOf(s, 'h') == |s|;
    MinutesPart(m);
  }

  /** `parseInt` skips leading white space. */
  lemma SkipSpace(t: string)
    requires t != [] && !IsJsSpace(t[0])
    ensures ParseInt(" " + t) == ParseInt(t)
  {
    assert (" " + t)[1..] == t;
    assert TrimStart(" " + t) == TrimStart(t);
    SameTrimSameParse(" " + t, t);
  }

  lemma SameTrimSameParse(a: string, b: string)
    requires TrimStart(a) == TrimStart(b)
    ensures ParseInt(a) == ParseInt(b)
  {
  }

  /** Two durations within the same minute get the same label. */
  lemma SameMinuteSameLabel(a: int, b: int)
    requires 0 <= a && 0 <= b && a / 60 == b / 60
    ensures FormatDuration(a) == FormatDuration(b)
  {
    assert a / 3600 == (a / 60) / 60 && b / 3600 == (b / 60) / 60;
    assert (a % 3600) / 60 == (a / 60) % 60 && (b % 3600) / 60 == (b / 60) % 60;
  }
}
