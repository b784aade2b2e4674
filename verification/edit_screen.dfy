/** The logic of the edit screen: filling the form from a stored timer (the duration
    split into hours, minutes and seconds), the digit filters on the three duration
    boxes, and the checks and payload of "Update Timer". */
module EditScreen {
  import opened Wrappers
  import opened Text
  import opened TimerTypes
  import TimerList
  import TimerStore

  /** The colour a fresh form starts with, the first the screen offers. */
  const DefaultColor := "#FF6B6B"

  /** The colour choices the screen offers. */
  const Palette: seq<string> :=
    [DefaultColor, "#4ECDC4", "#45B7D1", "#96CEB4", "#FFEEAD", "#D4A5A5", "#9B59B6", "#3498DB"]

  /** The screen's editable fields, all as the text shown in the boxes. */
  datatype Form = Form(
    name: string,
    description: string,
    hours: string,
    minutes: string,
    seconds: string,
    color: string)

  const DefaultForm := Form("", "", "0", "0", "0", DefaultColor)

  datatype Hms = Hms(hours: nat, minutes: nat, seconds: nat)

  /** Splits a duration in seconds into whole hours, minutes below 60 and seconds below
      60 that add back up to it. */
  function Decompose(d: nat): (x: Hms)
    ensures x.minutes < 60 && x.seconds < 60
    ensures TotalSeconds(x.hours, x.minutes, x.seconds) == d
  {
    var q := d / 3600;
    var rest := d % 3600;
    assert d == 3600 * q + rest;
    assert rest == 60 * (rest / 60) + rest % 60;
    assert d == 60 * (60 * q + rest / 60) + rest % 60;
    assert d % 60 == rest % 60;
    Hms(q, rest / 60, d % 60)
  }

  /** Components with minutes and seconds below 60 are recovered from their total, so
      Decompose and TotalSeconds are mutually inverse on them. */
  lemma DecomposeTotal(h: nat, m: nat, s: nat)
    requires m < 60 && s < 60
    ensures Decompose(TotalSeconds(h, m, s)) == Hms(h, m, s)
  {
    var d := TotalSeconds(h, m, s);
    assert 60 * m + s < 3600;
    assert d / 3600 == h && d % 3600 == 60 * m + s;
    assert (60 * m + s) / 60 == m;
  }

  /** A minutes or seconds box: digits only, not empty, value below 60. */
  predicate UnderSixty(s: string) { |s| > 0 && AllDigits(s) && ValueOf(s) < 60 }

  /** What the screen's own code keeps true of its duration boxes: hours is digits (maybe
      none), minutes and seconds are UnderSixty. */
  predicate WellFormed(f: Form) { AllDigits(f.hours) && UnderSixty(f.minutes) && UnderSixty(f.seconds) }

  /** `timers.find(t => t.id === id)`: the first timer with the id, or nothing when no
      timer has it. */
  function FindTimer(ts: seq<Timer>, id: string): (r: Option<Timer>)
    ensures r.None? <==> !TimerList.HasId(ts, id)
    ensures r.Some? ==> exists i :: 0 <= i < |ts| && ts[i] == r.value && r.value.id == id
                                  && forall j :: 0 <= j < i ==> ts[j].id != id
  {
    if |ts| == 0 then None
    else if ts[0].id == id then Some(ts[0])
    else
      var r := FindTimer(ts[1..], id);
      assert TimerList.HasId(ts, id) ==> TimerList.HasId(ts[1..], id) by {
        if TimerList.HasId(ts, id) {
          var i :| 0 <= i < |ts| && ts[i].id == id;
          assert ts[1..][i - 1].id == id;
        }
      }
      if r.Some? then
        var i :| 0 <= i < |ts[1..]| && ts[1..][i] == r.value && r.value.id == id
                 && forall j :: 0 <= j < i ==> ts[1..][j].id != id;
        assert ts[i + 1] == r.value;
        assert forall j :: 0 < j < i + 1 ==> ts[j].id == ts[1..][j - 1].id;
        r
      else r
  }

  /** The form the screen shows for timer `id`: None when no timer has the id (the screen
      navigates back), otherwise the timer's name, description (blank when absent),
      colour and duration split into hours, minutes and seconds, written in decimal. */
  function LoadForm(ts: seq<Timer>, id: string): (r: Option<Form>)
    ensures r.None? <==> !TimerList.HasId(ts, id)
    ensures r.Some? ==> && WellFormed(r.value)
                        && r.value.name == FindTimer(ts, id).value.name
                        && r.value.description == FindTimer(ts, id).value.description.GetOr("")
                        && r.value.color == FindTimer(ts, id).value.color
  {
    match FindTimer(ts, id)
    case None => None
    case Some(t) =>
      var x := Decompose(t.duration);
      ValueOfToDecimal(x.minutes);
      ValueOfToDecimal(x.seconds);
      Some(Form(t.name, t.description.GetOr(""), ToDecimal(x.hours), ToDecimal(x.minutes),
                ToDecimal(x.seconds), t.color))
  }

  /** `handleHoursChange`: the box keeps the typed text's digits, in order; it may end up
      empty. */
  function ChangeHours(f: Form, text: string): (r: Form)
    ensures r.hours == KeepDigits(text) && r.(hours := f.hours) == f
    ensures WellFormed(f) ==> WellFormed(r)
  {
    f.(hours := KeepDigits(text))
  }

  /** The rule of the minutes and seconds boxes: the typed text's digits are taken when
      they read as a number below 60, and otherwise the box keeps its previous text (an
      empty result reads as not-a-number and is refused too). */
  function UnderSixtyInput(prev: string, text: string): (r: string)
    ensures var v := KeepDigits(text);
            && (|v| > 0 && ValueOf(v) < 60 ==> r == v)
            && (!(|v| > 0 && ValueOf(v) < 60) ==> r == prev)
    ensures UnderSixty(prev) ==> UnderSixty(r)
  {
    var v := KeepDigits(text);
    if |v| > 0 && ValueOf(v) < 60 then v else prev
  }

  /** `handleMinutesChange`. */
  function ChangeMinutes(f: Form, text: string): (r: Form)
    ensures r.minutes == UnderSixtyInput(f.minutes, text) && r.(minutes := f.minutes) == f
    ensures WellFormed(f) ==> WellFormed(r)
  {
    f.(minutes := UnderSixtyInput(f.minutes, text))
  }

  /** `handleSecondsChange`. */
  function ChangeSeconds(f: Form, text: string): (r: Form)
    ensures r.seconds == UnderSixtyInput(f.seconds, text) && r.(seconds := f.seconds) == f
    ensures WellFormed(f) ==> WellFormed(r)
  {
    f.(seconds := UnderSixtyInput(f.seconds, text))
  }

  /** The screen starts well formed. */
  lemma DefaultFormWellFormed()
    ensures WellFormed(DefaultForm)
  {
    assert DefaultForm.minutes[..0] == [];
  }

  /** A JavaScript number as far as the duration arithmetic needs it. */
  datatype JsNumber = Finite(n: nat) | NaN

  /** `parseInt` of a digit string: not-a-number for the empty string, else its value. */
  function ParseInt(s: string): (r: JsNumber)
    requires AllDigits(s)
    ensures r.NaN? <==> s == []
    ensures r.Finite? ==> r.n == ValueOf(s)
  {
    if s == [] then NaN else Finite(ValueOf(s))
  }

  /** `parseInt(hours) * 3600 + parseInt(minutes) * 60 + parseInt(seconds)`: not-a-number
      as soon as one box is, which for a well-formed form means an empty hours box. */
  function FormTotal(f: Form): (r: JsNumber)
    requires WellFormed(f)
    ensures r.NaN? <==> f.hours == []
    ensures r.Finite? ==> r.n == TotalSeconds(ValueOf(f.hours), ValueOf(f.minutes), ValueOf(f.seconds))
  {
    match (ParseInt(f.hours), ParseInt(f.minutes), ParseInt(f.seconds))
    case (Finite(h), Finite(m), Finite(s)) => Finite(TotalSeconds(h, m, s))
    case _ => NaN
  }

  /** The form shows the timer's duration: reading the boxes back gives it. */
  lemma LoadFormTotal(ts: seq<Timer>, id: string)
    requires LoadForm(ts, id).Some?
    ensures FormTotal(LoadForm(ts, id).value) == Finite(FindTimer(ts, id).value.duration)
  {
    var t := FindTimer(ts, id).value;
    var x := Decompose(t.duration);
    ValueOfToDecimal(x.hours);
    ValueOfToDecimal(x.minutes);
    ValueOfToDecimal(x.seconds);
  }

  /** The three checks of `handleUpdate` exactly as written: a non-blank name, a total
      that is not the number 0 (not-a-number passes), and a timer with the id. */
  function SubmitsAsWritten(f: Form, ts: seq<Timer>, id: string): (ok: bool)
    requires WellFormed(f)
    ensures ok ==> Trim(f.name) != [] && TimerList.HasId(ts, id)
    ensures ok && FormTotal(f).Finite? ==> FormTotal(f).n > 0
    ensures ok && f.hours == [] ==> FormTotal(f) == NaN
    ensures ok <==> Trim(f.name) != [] && FormTotal(f) != Finite(0) && TimerList.HasId(ts, id)
    ensures f.hours == [] ==> (ok <==> Trim(f.name) != [] && TimerList.HasId(ts, id))
  {
    Trim(f.name) != [] && FormTotal(f) != Finite(0) && FindTimer(ts, id).Some?
  }

  /** Clearing the hours box of a loaded timer passes every check as written, so
      `updateTimer` would receive a not-a-number duration; the corrected handler refuses
      the same form. */
  lemma ClearedHoursSubmitNaN()
    ensures var t := Timer("1", "Tea", 3605, None, DefaultColor, false, false, 3605, 0, None);
            var f := ChangeHours(LoadForm([t], "1").value, "");
            && SubmitsAsWritten(f, [t], "1")
            && FormTotal(f) == NaN
            && HandleUpdate(f, [t], "1") == DurationMissing
  {
    var t := Timer("1", "Tea", 3605, None, DefaultColor, false, false, 3605, 0, None);
    assert TimerList.HasId([t], "1") by { assert [t][0].id == "1"; }
    var f := ChangeHours(LoadForm([t], "1").value, "");
    assert KeepDigits("") == "";
    assert Trim("Tea") != [] by { assert !IsSpace('T'); }
  }

  /** What pressing "Update Timer" does. */
  datatype Decision = NameMissing | DurationMissing | TimerMissing | Submit(id: string, patch: TimerPatch)

  /** `handleUpdate`, with its duration check read as "a positive number of seconds" so
      that a not-a-number total is refused like a zero one. Checks run in the source's
      order: name, then duration, then the timer. The payload sets name and description
      (both trimmed), colour, and duration and remaining time both to the total; it never
      supplies id, running or paused flags, creation or completion time. */
  function HandleUpdate(f: Form, ts: seq<Timer>, id: string): (d: Decision)
    requires WellFormed(f)
    ensures Trim(f.name) == [] ==> d == NameMissing
    ensures Trim(f.name) != [] && !(FormTotal(f).Finite? && FormTotal(f).n > 0) ==> d == DurationMissing
    ensures (Trim(f.name) != [] && FormTotal(f).Finite? && FormTotal(f).n > 0 && !TimerList.HasId(ts, id))
            ==> d == TimerMissing
    ensures d.Submit? <==> Trim(f.name) != [] && FormTotal(f).Finite? && FormTotal(f).n > 0
                           && TimerList.HasId(ts, id)
    ensures d.Submit? ==> && d.id == id
                          && d.patch.duration == Some(FormTotal(f).n)
                          && d.patch.remainingTime == Some(FormTotal(f).n)
                          && d.patch.name == Some(Trim(f.name))
                          && d.patch.description == Some(Some(Trim(f.description)))
                          && d.patch.color == Some(f.color)
                          && d.patch.id.None? && d.patch.isRunning.None? && d.patch.isPaused.None?
                          && d.patch.createdAt.None? && d.patch.completedAt.None?
                          && TimerList.PatchKeepsBound(d.patch)
  {
    if Trim(f.name) == [] then NameMissing
    else
      match FormTotal(f)
      case NaN => DurationMissing
      case Finite(total) =>
        if total == 0 then DurationMissing
        else
          match FindTimer(ts, id)
          case None => TimerMissing
          case Some(t) =>
            Submit(t.id, EmptyPatch.(name := Some(Trim(f.name)),
                                     description := Some(Some(Trim(f.description))),
                                     duration := Some(total),
                                     remainingTime := Some(total),
                                     color := Some(f.color)))
  }

  /** The corrected handler and the checks as written agree on every form whose total is a
      number; they differ only when the hours box is empty. */
  lemma CorrectedAgreesOnNumbers(f: Form, ts: seq<Timer>, id: string)
    requires WellFormed(f)
    ensures f.hours != [] ==> (HandleUpdate(f, ts, id).Submit? <==> SubmitsAsWritten(f, ts, id))
    ensures SubmitsAsWritten(f, ts, id) && !HandleUpdate(f, ts, id).Submit? ==> f.hours == []
  {
  }

  /** Opening a timer and pressing "Update Timer" without changes submits its own
      duration (when its name is not blank and its duration is positive). */
  lemma UnchangedFormResubmits(ts: seq<Timer>, id: string)
    requires TimerList.HasId(ts, id)
    requires Trim(FindTimer(ts, id).value.name) != [] && FindTimer(ts, id).value.duration > 0
    ensures var f := LoadForm(ts, id).value;
            HandleUpdate(f, ts, id).Submit?
            && HandleUpdate(f, ts, id).patch.duration == Some(FindTimer(ts, id).value.duration)
  {
    LoadFormTotal(ts, id);
  }

  /** Saving an edit through the store: every timer with the id gets the new duration as
      both duration and remaining time, and keeps its id, running and paused flags,
      creation and completion times; no other timer changes. */
  lemma SubmitThroughStore(s: TimerStore.State, f: Form, id: string)
    requires WellFormed(f) && HandleUpdate(f, s.timers, id).Submit?
    ensures var d := HandleUpdate(f, s.timers, id);
            var r := TimerStore.UpdateTimer(s, d.id, d.patch, false);
            && |r.timers| == |s.timers|
            && forall i :: 0 <= i < |s.timers| ==>
                 && r.timers[i].id == s.timers[i].id
                 && r.timers[i].isRunning == s.timers[i].isRunning
                 && r.timers[i].isPaused == s.timers[i].isPaused
                 && r.timers[i].createdAt == s.timers[i].createdAt
                 && r.timers[i].completedAt == s.timers[i].completedAt
                 && (s.timers[i].id == id ==> r.timers[i].duration == r.timers[i].remainingTime == FormTotal(f).n)
                 && (s.timers[i].id != id ==> r.timers[i] == s.timers[i])
  {
  }
}
