/** The timer settings form: four numbers checked against fixed bounds, shown with the eye-care
    work duration in minutes and saved with it converted back to seconds. */
module SettingsPanel {
  import opened JsStrings
  import opened Timers

  /** The form's values; the eye-care work duration is in minutes here. */
  datatype FormValues = FormValues(
    pomodoroDuration: int, pomodoroBreakDuration: int, eyeCareWorkMinutes: int, eyeCareRestDuration: int)

  /** `timerSettingsSchema`: the bounds a submission must meet. */
  predicate InBounds(f: FormValues)
  {
    1 <= f.pomodoroDuration <= 120 && 1 <= f.pomodoroBreakDuration <= 60 &&
    1 <= f.eyeCareWorkMinutes <= 120 && 5 <= f.eyeCareRestDuration <= 120
  }

  /** The form's default values, and what the reset effect puts back whenever the provider's
      durations change: the eye-care work duration in whole minutes, rounded down. */
  function FormFromSettings(s: TimerSettings): (f: FormValues)
    ensures f.pomodoroDuration == s.pomodoroDuration && f.pomodoroBreakDuration == s.pomodoroBreakDuration
    ensures f.eyeCareRestDuration == s.eyeCareRestDuration
    ensures f.eyeCareWorkMinutes * 60 <= s.eyeCareWorkDuration < f.eyeCareWorkMinutes * 60 + 60
  {
    FormValues(s.pomodoroDuration, s.pomodoroBreakDuration, s.eyeCareWorkDuration / 60, s.eyeCareRestDuration)
  }

  /** Submitting: a form outside the bounds is refused; an accepted one reaches
      `updateTimerSettings` with the work minutes turned into seconds. */
  function Submit(f: FormValues): (r: Option<TimerSettings>)
    ensures r.Some? <==> InBounds(f)
  {
    if InBounds(f) then
      Some(TimerSettings(f.pomodoroDuration, f.pomodoroBreakDuration, f.eyeCareWorkMinutes * 60, f.eyeCareRestDuration))
    else None
  }

  /** An accepted form comes back unchanged once the provider has taken it. */
  lemma SubmitThenReload(f: FormValues)
    requires InBounds(f)
    ensures Submit(f).Some? && FormFromSettings(Submit(f).value) == f
    ensures Submit(f).value.eyeCareWorkDuration % 60 == 0
  {
  }

  /** Saving an untouched form stores the eye-care work duration rounded down to the minute,
      so the settings come back unchanged exactly when it was a whole number of minutes. */
  lemma UntouchedSave(s: TimerSettings)
    requires InBounds(FormFromSettings(s))
    ensures Submit(FormFromSettings(s)).Some?
    ensures Submit(FormFromSettings(s)).value.eyeCareWorkDuration == s.eyeCareWorkDuration - s.eyeCareWorkDuration % 60
    ensures Submit(FormFromSettings(s)) == Some(s) <==> s.eyeCareWorkDuration % 60 == 0
  {
    var t := Submit(FormFromSettings(s)).value;
    assert t.eyeCareWorkDuration == (s.eyeCareWorkDuration / 60) * 60;
    if t == s {
      assert s.eyeCareWorkDuration == (s.eyeCareWorkDuration / 60) * 60;
    }
  }

  /** The provider's defaults fill an acceptable form that saves back to themselves. */
  lemma DefaultsAccepted()
    ensures InBounds(FormFromSettings(TimerSettings(25, 5, 20 * 60, 20)))
    ensures Submit(FormFromSettings(TimerSettings(25, 5, 20 * 60, 20))) == Some(TimerSettings(25, 5, 20 * 60, 20))
  {
  }

  /** The form shows only the eye-care fields, yet checks the Pomodoro durations it was filled
      with: once those are out of bounds, no eye-care change can be saved. */
  lemma PomodoroOutOfBoundsBlocksSave(s: TimerSettings, workMinutes: int, rest: int)
    requires !(1 <= s.pomodoroDuration <= 120 && 1 <= s.pomodoroBreakDuration <= 60)
    ensures Submit(FormFromSettings(s).(eyeCareWorkMinutes := workMinutes, eyeCareRestDuration := rest)).None?
  {
  }
}
