/** The Pomodoro card: the clock reading, the phase title, a settings popover holding the two
    durations in seconds while they are edited, and the buttons that drive the timer engine. */
module PomodoroView {
  import opened JsStrings
  import opened Timers

  /** `formatTime(minutes, seconds)`: both fields padded to at least two digits. */
  function FormatClock(minutes: int, seconds: int): string
  {
    PadStart2(IntToString(minutes)) + ":" + PadStart2(IntToString(seconds))
  }

  /** A clock reading shows as `MM:SS` (wider minutes when there are a hundred or more), and
      both fields read back as the numbers shown. */
  lemma FormatClockReadsBack(minutes: nat, seconds: nat)
    requires seconds < 60
    ensures exists mm: string, ss: string ::
      FormatClock(minutes, seconds) == mm + ":" + ss && AllDigits(mm) && AllDigits(ss) &&
      |mm| >= 2 && |ss| == 2 && DigitsValue(mm) == minutes && DigitsValue(ss) == seconds
    ensures minutes < 100 ==> |FormatClock(minutes, seconds)| == 5
  {
    PaddedRoundTrip(minutes);
    PaddedRoundTrip(seconds);
    var mm := PadStart2(NatToString(minutes));
    var ss := PadStart2(NatToString(seconds));
    assert FormatClock(minutes, seconds) == mm + ":" + ss;
  }

  /** `getSessionName()` */
  function SessionName(isBreak: bool): (r: string)
    ensures r == "Break Time" <==> isBreak
    ensures r == "Work Session" <==> !isBreak
  {
    if isBreak then "Break Time" else "Work Session"
  }

  // ---------------------------------------------------------------------------
  // The settings popover

  const WorkFallback := 1500
  const BreakFallback := 300

  /** An input change: `parseInt(value) * 60 || fallback`. `None` is a value `parseInt` cannot
      read (NaN), which, like zero minutes, is falsy and gives way to the fallback. */
  function MinutesInput(parsed: Option<int>, fallback: int): (seconds: int)
  {
    match parsed
    case Some(n) => if n * 60 != 0 then n * 60 else fallback
    case None => fallback
  }

  /** The field shows back what was typed, except that a zero or unreadable entry shows the
      default (25 minutes of work, 5 of break); the value kept is always whole minutes. */
  lemma MinutesInputShown(parsed: Option<int>)
    ensures MinutesInput(parsed, WorkFallback) % 60 == 0 && MinutesInput(parsed, BreakFallback) % 60 == 0
    ensures MinutesInput(parsed, WorkFallback) / 60 ==
      (if parsed.Some? && parsed.value != 0 then parsed.value else 25)
    ensures MinutesInput(parsed, BreakFallback) / 60 ==
      (if parsed.Some? && parsed.value != 0 then parsed.value else 5)
  {
  }

  /** What `handleSaveSettings` hands to `updateTimerSettings`: the two durations back in
      minutes, and the eye-care durations always reset to twenty minutes and twenty seconds. */
  function SavedSettings(workTime: int, shortBreakTime: int): (s: TimerSettings)
    ensures s.eyeCareWorkDuration == 20 * 60 && s.eyeCareRestDuration == 20
    ensures workTime % 60 == 0 ==> s.pomodoroDuration * 60 == workTime
    ensures shortBreakTime % 60 == 0 ==> s.pomodoroBreakDuration * 60 == shortBreakTime
  {
    TimerSettings(workTime / 60, shortBreakTime / 60, 20 * 60, 20)
  }

  /** Saving after typing `n` minutes of work shows `n:00` in a stopped work phase. */
  lemma SaveShowsTypedWork(p: PomodoroState, n: int, shortBreakTime: int)
    requires n != 0 && !p.isBreak
    ensures var q := PomodoroResetStep(PomodoroSettingsStep(p, SavedSettings(MinutesInput(Some(n), WorkFallback), shortBreakTime)), p.isBreak);
      q.minutes == n && q.seconds == 0 && !q.active && q.duration == n
  {
    MinutesInputShown(Some(n));
  }

  // ---------------------------------------------------------------------------
  // Resetting on a settings change

  /** The effect meant to reseed a stopped timer when its durations change elsewhere. */
  function DurationsChangedEffect(before: PomodoroState, p: PomodoroState): (r: PomodoroState)
    ensures before.duration == p.duration && before.breakDuration == p.breakDuration ==> r == p
    ensures p.active ==> r == p
    ensures !p.active && (before.duration != p.duration || before.breakDuration != p.breakDuration) ==>
      r == PomodoroResetStep(p, p.isBreak)
  {
    if (before.duration != p.duration || before.breakDuration != p.breakDuration) && !p.active then
      PomodoroResetStep(p, p.isBreak)
    else p
  }

  /** After `updateTimerSettings` the effect has nothing left to do: a stopped timer was already
      reseeded for its phase, a running one keeps going. */
  lemma SettingsEffectRedundant(p: PomodoroState, s: TimerSettings)
    ensures DurationsChangedEffect(p, PomodoroSettingsStep(p, s)) == PomodoroSettingsStep(p, s)
  {
    var q := PomodoroSettingsStep(p, s);
    if !p.active {
      assert PomodoroResetStep(q, q.isBreak) == q;
    }
  }

  /** The effect as its dependency list has it: it also runs when the timer stops, so pausing
      a Pomodoro is followed by a reseed of the phase. */
  function PauseAsWritten(p: PomodoroState): (r: PomodoroState)
    ensures !r.active
  {
    var paused := p.(active := false);
    if !paused.active then PomodoroResetStep(paused, paused.isBreak) else paused
  }

  /** Pausing as written throws the countdown away: whatever was left, the phase starts over. */
  lemma PauseDiscardsProgress(p: PomodoroState)
    ensures PauseAsWritten(p) == PomodoroResetStep(p, p.isBreak)
    ensures var q := PauseAsWritten(PomodoroState(12, 34, true, false, Percent(754, 1500), 25, 5));
      q.minutes == 25 && q.seconds == 0
  {
  }

  /** Pausing with the effect keyed on the durations alone: only the running flag changes. */
  function PauseKeepingProgress(p: PomodoroState): (r: PomodoroState)
  {
    DurationsChangedEffect(p, p.(active := false))
  }

  /** Pausing and starting again resumes exactly where the countdown stood. */
  lemma PauseThenStartResumes(p: PomodoroState)
    requires p.active
    ensures PauseKeepingProgress(p).(active := true) == p
    ensures Remaining(PauseKeepingProgress(p)) == Remaining(p)
    ensures PomodoroTickStep(PauseKeepingProgress(p)).state == PauseKeepingProgress(p)
  {
  }

  // ---------------------------------------------------------------------------
  // The card

  class PomodoroTimerView {
    const timers: TimerProvider
    var workTime: int
    var shortBreakTime: int
    var settingsOpen: bool

    /** The popover keeps whole minutes, so saving divides exactly. */
    predicate Valid()
      reads this
    {
      workTime % 60 == 0 && shortBreakTime % 60 == 0
    }

    /** Mounting: the popover starts from the provider's durations. */
    constructor(t: TimerProvider)
      ensures timers == t && !settingsOpen && Valid()
      ensures workTime == t.pomodoro.duration * 60 && shortBreakTime == t.pomodoro.breakDuration * 60
    {
      timers := t;
      workTime := t.pomodoro.duration * 60;
      shortBreakTime := t.pomodoro.breakDuration * 60;
      settingsOpen := false;
    }

    method OnWorkTimeInput(parsed: Option<int>)
      requires Valid()
      modifies this
      ensures workTime == MinutesInput(parsed, WorkFallback)
      ensures shortBreakTime == old(shortBreakTime) && settingsOpen == old(settingsOpen)
      ensures Valid()
    {
      MinutesInputShown(parsed);
      workTime := MinutesInput(parsed, WorkFallback);
    }

    method OnBreakTimeInput(parsed: Option<int>)
      requires Valid()
      modifies this
      ensures shortBreakTime == MinutesInput(parsed, BreakFallback)
      ensures workTime == old(workTime) && settingsOpen == old(settingsOpen)
      ensures Valid()
    {
      MinutesInputShown(parsed);
      shortBreakTime := MinutesInput(parsed, BreakFallback);
    }

    /** `handleSaveSettings()`: the settings go to the provider, the timer is reseeded for its
        current phase with the new durations, and the popover closes. */
    method SaveSettings()
      requires Valid()
      modifies this, timers.pomodoro, timers.eyeCare
      ensures var s := SavedSettings(old(workTime), old(shortBreakTime));
        timers.pomodoro.State() == PomodoroResetStep(PomodoroSettingsStep(old(timers.pomodoro.State()), s), old(timers.pomodoro.isBreak)) &&
        timers.eyeCare.State() == EyeCareSettingsStep(old(timers.eyeCare.State()), s)
      ensures timers.pomodoro.duration * 60 == old(workTime) && timers.pomodoro.breakDuration * 60 == old(shortBreakTime)
      ensures !settingsOpen && workTime == old(workTime) && shortBreakTime == old(shortBreakTime)
    {
      var isBreak := timers.pomodoro.isBreak;
      timers.UpdateTimerSettings(SavedSettings(workTime, shortBreakTime));
      timers.pomodoro.Reset(isBreak);
      settingsOpen := false;
    }

    /** Cancel, and the effect that follows the provider's durations: the popover is refilled
        from them. */
    method SyncFromProvider()
      modifies this
      ensures workTime == timers.pomodoro.duration * 60 && shortBreakTime == timers.pomodoro.breakDuration * 60
      ensures settingsOpen == old(settingsOpen) && Valid()
    {
      workTime := timers.pomodoro.duration * 60;
      shortBreakTime := timers.pomodoro.breakDuration * 60;
    }

    /** The Start/Pause button, with the reset effect keyed on the durations alone. */
    method TogglePlay()
      modifies timers.pomodoro
      ensures old(timers.pomodoro.active) ==> timers.pomodoro.State() == PauseKeepingProgress(old(timers.pomodoro.State()))
      ensures !old(timers.pomodoro.active) ==> timers.pomodoro.State() == old(timers.pomodoro.State()).(active := true)
    {
      if timers.pomodoro.active {
        timers.pomodoro.Pause();
      } else {
        timers.pomodoro.Start();
      }
    }

    /** The Reset button: the current phase from its start. */
    method ResetButton()
      modifies timers.pomodoro
      ensures timers.pomodoro.State() == PomodoroResetStep(old(timers.pomodoro.State()), old(timers.pomodoro.isBreak))
    {
      timers.pomodoro.Reset(timers.pomodoro.isBreak);
    }
  }
}
