/** The arithmetic and the local state of components/Timer.tsx: the ring radius, the
    clock face, which control buttons are on screen, the auto-stop condition and the
    target picker. Rendering itself is not modelled. */
module TimerView {
  import opened Types
  import opened Text

  /** The preset targets, in minutes. */
  const Presets: seq<int> := [15, 30, 45, 60]

  /** The largest target the custom input accepts. */
  const MaxTarget: int := 240

  /** The ring radius for a target of `minutes`. */
  function GetRadius(minutes: int): (r: int)
    ensures 110 <= r <= 165
    ensures minutes <= 15 <==> r == 110
    ensures 15 < minutes <= 30 <==> r == 130
    ensures 30 < minutes <= 45 <==> r == 150
    ensures minutes > 45 <==> r == 165
  {
    if minutes <= 15 then 110
    else if minutes <= 30 then 130
    else if minutes <= 45 then 150
    else 165
  }

  /** A longer target never gets a smaller ring. */
  lemma RadiusMonotone(a: int, b: int)
    requires a <= b
    ensures GetRadius(a) <= GetRadius(b)
  {
  }

  /** The three numbers `formatTime` computes. */
  datatype Parts = Parts(hours: int, minutes: int, seconds: int)

  function TimeParts(secs: int): (p: Parts)
    ensures secs >= 0 ==>
      && p.hours * 3600 + p.minutes * 60 + p.seconds == secs
      && p.hours >= 0 && 0 <= p.minutes < 60 && 0 <= p.seconds < 60
  {
    ClockSplit(secs);
    Parts(secs / 3600, JsRem(secs, 3600) / 60, JsRem(secs, 60))
  }

  /** Whole hours, the minutes left over and the seconds left over add up again. */
  lemma ClockSplit(secs: int)
    ensures secs >= 0 ==>
      && (secs / 3600) * 3600 + ((secs % 3600) / 60) * 60 + secs % 60 == secs
      && 0 <= (secs % 3600) / 60 < 60
  {
    if secs >= 0 {
      var q, r := secs / 3600, secs % 3600;
      var m, s := r / 60, r % 60;
      assert secs == 3600 * q + r && 0 <= r < 3600;
      assert r == 60 * m + s && 0 <= s < 60 && 0 <= m < 60;
      assert secs == 60 * (60 * q + m) + s;
      ModOfMultiple(secs, 60 * q + m, s);
    }
  }

  /** The remainder by 60 of a number written as a multiple of 60 plus a remainder. */
  lemma ModOfMultiple(n: int, k: int, s: int)
    requires n == 60 * k + s && 0 <= s < 60
    ensures n % 60 == s
  {
  }

  /** The clock face: the hours field is present only when there are whole hours. */
  datatype Clock = Clock(hours: Option<string>, minutes: string, seconds: string)

  function FormatTime(secs: int): Clock {
    var p := TimeParts(secs);
    Clock(if p.hours > 0 then Some(IntToString(p.hours)) else None,
          PadStart(IntToString(p.minutes), 2, '0'),
          PadStart(IntToString(p.seconds), 2, '0'))
  }

  /** What a reader takes one field of the face to say; a missing field reads as 0. */
  function ReadField(f: Option<string>): Option<int> {
    if f.Some? then ParseInt(f.value) else Some(0)
  }

  /** What a reader of the clock face takes it to say, in seconds. */
  function ReadClock(c: Clock): Option<int> {
    Combine(ReadField(c.hours), ReadField(Some(c.minutes)), ReadField(Some(c.seconds)))
  }

  function Combine(h: Option<int>, m: Option<int>, s: Option<int>): Option<int> {
    if h.Some? && m.Some? && s.Some? then Some(h.value * 3600 + m.value * 60 + s.value) else None
  }

  /** For a non-negative count the face shows hours exactly from one hour on, both
      other fields are two characters wide, and reading the face gives back the count. */
  lemma FormatTimeReadsBack(secs: int)
    requires secs >= 0
    ensures FormatTime(secs).hours.Some? <==> secs >= 3600
    ensures |FormatTime(secs).minutes| == 2 && |FormatTime(secs).seconds| == 2
    ensures ReadClock(FormatTime(secs)) == Some(secs)
  {
    var h, m, s := FaceOfTime(secs);
    ReadPadded(m);
    ReadPadded(s);
    ReadFace(h, m, s, secs);
  }

  /** The face of a non-negative count, through its parts. */
  lemma FaceOfTime(secs: int) returns (h: nat, m: nat, s: nat)
    requires secs >= 0
    ensures FormatTime(secs) == Face(h, m, s)
    ensures h * 3600 + m * 60 + s == secs && m < 60 && s < 60
    ensures h > 0 <==> secs >= 3600
  {
    var p := TimeParts(secs);
    h, m, s := p.hours, p.minutes, p.seconds;
  }

  /** The face `formatTime` draws for non-negative parts. */
  function Face(h: nat, m: nat, s: nat): Clock {
    Clock(if h > 0 then Some(NatToString(h)) else None, Pad2(m), Pad2(s))
  }

  function Pad2(n: nat): string {
    PadStart(NatToString(n), 2, '0')
  }

  lemma ReadFace(h: nat, m: nat, s: nat, total: int)
    requires m < 60 && s < 60 && total == h * 3600 + m * 60 + s
    ensures ReadClock(Face(h, m, s)) == Some(total)
  {
    var c := Face(h, m, s);
    ReadPadded(m);
    ReadPadded(s);
    ReadHours(h);
    var hf := ReadField(c.hours);
    var mf := ReadField(Some(c.minutes));
    var sf := ReadField(Some(c.seconds));
    assert hf == Some(h) && mf == Some(m) && sf == Some(s);
    assert ReadClock(c) == Combine(hf, mf, sf);
    CombineSome(h, m, s, total);
  }

  lemma CombineSome(h: int, m: int, s: int, total: int)
    requires total == h * 3600 + m * 60 + s
    ensures Combine(Some(h), Some(m), Some(s)) == Some(total)
  {
  }

  lemma ReadPadded(n: nat)
    requires n < 60
    ensures |Pad2(n)| == 2 && ReadField(Some(Pad2(n))) == Some(n)
  {
    TwoDigits(n);
  }

  lemma ReadHours(h: nat)
    ensures ReadField(if h > 0 then Some(NatToString(h)) else None) == Some(h)
  {
    if h > 0 {
      ParseNatToString(h);
    }
  }

  /** Which control groups are on screen: the lone start button, the reset/resume/stop
      group, and the pause button. */
  datatype Controls = Controls(start: bool, pausedGroup: bool, pause: bool)

  function VisibleControls(isRunning: bool, elapsed: int): Controls {
    Controls(!isRunning && elapsed == 0, !isRunning && elapsed > 0, isRunning)
  }

  function Shown(b: bool): int { if b then 1 else 0 }

  /** With a non-negative elapsed time exactly one group is shown; a negative one while
      stopped would show none. */
  lemma ExactlyOneControlGroup(isRunning: bool, elapsed: int)
    ensures elapsed >= 0 ==>
      var c := VisibleControls(isRunning, elapsed);
      Shown(c.start) + Shown(c.pausedGroup) + Shown(c.pause) == 1
    ensures elapsed < 0 && !isRunning ==> VisibleControls(isRunning, elapsed) == Controls(false, false, false)
  {
  }

  /** The auto-stop effect fires exactly when running and the target is reached. */
  predicate ShouldAutoStop(isRunning: bool, elapsed: int, targetMinutes: int) {
    isRunning && elapsed >= targetMinutes * 60
  }

  /** The target after `handleCustomSubmit` with `input` in the box. */
  function SubmittedTarget(target: int, input: string): (r: int)
    ensures r == target || (ParseInt(input).Some? && ParseInt(input).value > 0)
    ensures 1 <= target <= MaxTarget ==> 1 <= r <= MaxTarget
  {
    var val := ParseInt(input);
    if val.Some? && val.value > 0 then (if val.value < MaxTarget then val.value else MaxTarget)
    else target
  }

  /** A typed whole number is taken as the target up to 240 and capped there; text with
      no leading number, such as the cleared box a second submission sees, changes
      nothing. */
  lemma SubmittedTargetCases(target: int, v: nat, input: string)
    ensures 1 <= v ==> SubmittedTarget(target, NatToString(v)) == if v < MaxTarget then v else MaxTarget
    ensures ParseInt(input).None? ==> SubmittedTarget(target, input) == target
    ensures SubmittedTarget(target, NatToString(0)) == target
  {
    ParseNatToString(v);
    ParseNatToString(0);
  }

  /** The label of the custom button: "Custom" for a preset, otherwise the target
      itself in minutes, which reads back as the target. */
  function CustomButtonLabel(target: int): (s: string)
    ensures target in Presets <==> s == "Custom"
    ensures 0 <= target && target !in Presets ==>
      |s| >= 2 && s[|s| - 1] == 'm' && ParseInt(s) == Some(target)
  {
    if target in Presets then "Custom"
    else
      var s := IntToString(target) + "m";
      assert s[0] == '-' || IsDigit(s[0], 10);
      if target >= 0 then
        ParseNatPrefix(target, "m");
        s
      else s
  }

  /** The target (kept by the shell) and the custom-input state of the timer. */
  class TargetPicker {
    var targetMinutes: int
    var isCustomInput: bool
    var customInputValue: string

    ghost predicate Valid()
      reads this
    {
      1 <= targetMinutes <= MaxTarget
    }

    constructor ()
      ensures Valid()
      ensures targetMinutes == 30 && !isCustomInput && customInputValue == ""
    {
      targetMinutes := 30;
      isCustomInput := false;
      customInputValue := "";
    }

    /** A preset button: sets the target and closes the input, whose text stays. */
    method ChoosePreset(minutes: int)
      requires Valid() && minutes in Presets
      modifies this
      ensures Valid()
      ensures targetMinutes == minutes && !isCustomInput && customInputValue == old(customInputValue)
    {
      targetMinutes := minutes;
      isCustomInput := false;
    }

    method OpenCustom()
      requires Valid()
      modifies this
      ensures Valid()
      ensures isCustomInput && targetMinutes == old(targetMinutes) && customInputValue == old(customInputValue)
    {
      isCustomInput := true;
    }

    method SetInput(text: string)
      requires Valid()
      modifies this
      ensures Valid()
      ensures customInputValue == text && targetMinutes == old(targetMinutes) && isCustomInput == old(isCustomInput)
    {
      customInputValue := text;
    }

    /** `handleCustomSubmit`, on submit or on blur: a positive parsed value becomes the
        capped target, and the input closes and clears in every case. */
    method SubmitCustom()
      requires Valid()
      modifies this
      ensures Valid()
      ensures targetMinutes == SubmittedTarget(old(targetMinutes), old(customInputValue))
      ensures !isCustomInput && customInputValue == ""
    {
      var val := ParseInt(customInputValue);
      if val.Some? && val.value > 0 {
        targetMinutes := if val.value < MaxTarget then val.value else MaxTarget;
      }
      isCustomInput := false;
      customInputValue := "";
    }
  }
}
