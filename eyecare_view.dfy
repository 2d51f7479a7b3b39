/** The eye-care card: the notification effect, the countdown shown in each phase, the label
    under it and the Pause/Resume button. */
module EyeCareView {
  import opened JsStrings
  import opened Timers
  import Reminders

  /** The two notifications the card sends (a toast and a native notification each). */
  datatype EyeCareNotice = RestStartNotice | RestCompleteNotice

  /** The choice the notification effect makes for the state it sees: the rest-start notice on
      the first second of a rest, the rest-complete notice on the first second of a running
      work phase, otherwise nothing. The two cannot both apply. */
  function NoticeFor(e: EyeCareState): (n: Option<EyeCareNotice>)
    ensures n == Some(RestStartNotice) <==> e.resting && e.elapsed == 0
    ensures n == Some(RestCompleteNotice) <==> !e.resting && e.elapsed == 0 && e.active
  {
    if e.resting && e.elapsed == 0 then Some(RestStartNotice)
    else if !e.resting && e.elapsed == 0 && e.active then Some(RestCompleteNotice)
    else None
  }

  /** The effect runs again only when `resting`, `elapsed` or `active` changed. */
  function NoticeEffect(before: EyeCareState, after: EyeCareState): Option<EyeCareNotice>
  {
    if before.resting != after.resting || before.elapsed != after.elapsed || before.active != after.active
    then NoticeFor(after)
    else None
  }

  /** Against the engine: the tick that starts a rest is followed by the rest-start notice, the
      tick that ends it by the rest-complete notice, and a tick that only counts by none. */
  lemma NoticesFollowTicks(e: EyeCareState)
    requires InPhase(e)
    ensures var r := EyeCareTickStep(e);
      (r.event == Some(EyeBreakStarts) ==> NoticeEffect(e, r.state) == Some(RestStartNotice)) &&
      (r.event == Some(RestCompleted) ==> NoticeEffect(e, r.state) == Some(RestCompleteNotice)) &&
      (r.event.None? ==> NoticeEffect(e, r.state).None?)
  {
    if e.active {
      EyeCareTickSpec(e);
    }
  }

  /** The rest-complete notice also greets the Reset button while the timer runs mid-phase,
      and the mount of a running timer at the start of its work phase. */
  lemma ResetAnnouncesRestComplete(e: EyeCareState)
    requires e.active && (e.resting || e.elapsed != 0)
    ensures NoticeEffect(e, EyeCareResetStep(e)) == Some(RestCompleteNotice)
    ensures NoticeFor(EyeCareDefaults) == Some(RestCompleteNotice)
  {
  }

  /** The countdown during a rest: the seconds left and an `s`. */
  function RestText(e: EyeCareState): string
  {
    IntToString(e.restDuration - e.elapsed) + "s"
  }

  /** Within a rest the text is the seconds still to go, the full rest on its first second. */
  lemma RestTextCountsDown(e: EyeCareState)
    requires InPhase(e) && e.resting
    ensures exists ds: string ::
      RestText(e) == ds + "s" && AllDigits(ds) && DigitsValue(ds) == e.restDuration - e.elapsed
  {
    DigitsRoundTrip(e.restDuration - e.elapsed);
  }

  /** The countdown to the next break: minutes (rounded down), a colon and the seconds padded
      to two digits; the same rendering as the reminder cards'. */
  function NextBreakText(e: EyeCareState): string
  {
    Reminders.FormatTime(e.workDuration - e.elapsed)
  }

  /** Within a work phase the text reads back as the seconds to the next break. */
  lemma NextBreakTextReadsBack(e: EyeCareState)
    requires InPhase(e) && !e.resting
    ensures exists m: string, ss: string ::
      NextBreakText(e) == m + ":" + ss && AllDigits(m) && AllDigits(ss) && |ss| == 2 &&
      DigitsValue(ss) < 60 && DigitsValue(m) * 60 + DigitsValue(ss) == e.workDuration - e.elapsed
  {
    var left := e.workDuration - e.elapsed;
    var m := NatToString(left / 60);
    var ss := PadStart2(NatToString(left % 60));
    DigitsRoundTrip(left / 60);
    PaddedRoundTrip(left % 60);
    assert NextBreakText(e) == m + ":" + ss;
  }

  /** The line under the buttons. */
  function PhaseLabel(e: EyeCareState): string
  {
    if e.resting then "Rest your eyes for " + IntToString(e.restDuration) + " seconds"
    else "Work for " + IntToString(e.workDuration / 60) + " minutes before taking an eye break"
  }

  /** The work label names the work duration in whole minutes, rounded down. */
  lemma PhaseLabelMinutes(e: EyeCareState)
    requires !e.resting && e.workDuration >= 0
    ensures exists ds: string ::
      PhaseLabel(e) == "Work for " + ds + " minutes before taking an eye break" && AllDigits(ds) &&
      DigitsValue(ds) * 60 <= e.workDuration < DigitsValue(ds) * 60 + 60
  {
    DigitsRoundTrip(e.workDuration / 60);
    assert PhaseLabel(e) == "Work for " + NatToString(e.workDuration / 60) + " minutes before taking an eye break";
  }

  /** `toggleActive()`: pause a running timer, start a stopped one; nothing else changes. */
  method ToggleActive(engine: EyeCareEngine)
    modifies engine
    ensures engine.State() == old(engine.State()).(active := !old(engine.active))
  {
    if engine.active {
      engine.Pause();
    } else {
      engine.Start();
    }
  }
}
