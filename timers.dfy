/** The timer provider: a Pomodoro countdown kept as minutes and seconds, with durations in
    minutes, and an eye-care count-up of elapsed seconds, with durations in seconds. Each
    interval callback is one `Tick`; the toasts a tick raises are its result. */
module Timers {
  import opened JsStrings

  /** A percentage kept as the exact ratio `100 * num / den`, as the source computes it before
      any rounding; a zero `den` stands for the non-finite value JavaScript would produce. */
  datatype Percent = Percent(num: int, den: int)

  const Full: Percent := Percent(1, 1)
  const Empty: Percent := Percent(0, 1)

  /** The four durations `updateTimerSettings` receives. */
  datatype TimerSettings = TimerSettings(
    pomodoroDuration: int, pomodoroBreakDuration: int, eyeCareWorkDuration: int, eyeCareRestDuration: int)

  // ---------------------------------------------------------------------------
  // Pomodoro

  datatype PomodoroState = PomodoroState(
    minutes: int, seconds: int, active: bool, isBreak: bool, progress: Percent,
    duration: int, breakDuration: int)

  /** The toasts at the end of a phase. */
  datatype PomodoroEvent = BreakStarts | BreakOver

  datatype PomodoroTickResult = PomodoroTickResult(state: PomodoroState, event: Option<PomodoroEvent>)

  const PomodoroDefaults: PomodoroState := PomodoroState(25, 0, false, false, Full, 25, 5)

  /** The countdown is a clock reading: non-negative minutes and seconds below sixty. */
  predicate ClockValid(p: PomodoroState)
  {
    p.minutes >= 0 && 0 <= p.seconds < 60
  }

  /** Seconds left in the phase. */
  function Remaining(p: PomodoroState): int
  {
    p.minutes * 60 + p.seconds
  }

  /** The phase's length in seconds. */
  function PhaseSeconds(p: PomodoroState): int
  {
    (if p.isBreak then p.breakDuration else p.duration) * 60
  }

  /** `resetPomodoroTimer(isBreakTime)`: stop, and seed the given phase. */
  function PomodoroResetStep(p: PomodoroState, isBreakTime: bool): (r: PomodoroState)
    ensures !r.active && r.isBreak == isBreakTime && r.seconds == 0 && r.progress == Full
    ensures r.minutes == (if isBreakTime then p.breakDuration else p.duration)
    ensures r.duration == p.duration && r.breakDuration == p.breakDuration
  {
    p.(active := false, isBreak := isBreakTime,
       minutes := if isBreakTime then p.breakDuration else p.duration,
       seconds := 0, progress := Full)
  }

  /** One interval callback. Nothing runs while paused. At 00:00 the phase ends: a toast, and
      the other phase is seeded with the timer stopped. Otherwise one second goes, and the
      progress is computed from the reading before the tick. */
  function PomodoroTickStep(p: PomodoroState): PomodoroTickResult
  {
    if !p.active then PomodoroTickResult(p, None)
    else if p.seconds == 0 && p.minutes == 0 then
      PomodoroTickResult(PomodoroResetStep(p, !p.isBreak), Some(if p.isBreak then BreakOver else BreakStarts))
    else
      var progress := Percent(Remaining(p), PhaseSeconds(p));
      var next := if p.seconds == 0 then p.(minutes := p.minutes - 1, seconds := 59)
                  else p.(seconds := p.seconds - 1);
      PomodoroTickResult(next.(progress := progress), None)
  }

  /** A running tick before 00:00 takes exactly one second off and keeps a clock reading. */
  lemma PomodoroTickCountsDown(p: PomodoroState)
    requires ClockValid(p) && p.active && Remaining(p) > 0
    ensures var r := PomodoroTickStep(p);
      Remaining(r.state) == Remaining(p) - 1 && ClockValid(r.state) && r.event.None? &&
      r.state.active && r.state.isBreak == p.isBreak &&
      r.state.progress == Percent(Remaining(p), PhaseSeconds(p))
  {
  }

  /** A running tick at 00:00 switches phase, seeds it from its duration and stops. */
  lemma PomodoroTickCompletes(p: PomodoroState)
    requires p.active && p.minutes == 0 && p.seconds == 0
    ensures var r := PomodoroTickStep(p);
      r.event == Some(if p.isBreak then BreakOver else BreakStarts) &&
      r.state.isBreak == !p.isBreak && !r.state.active &&
      r.state.minutes == (if p.isBreak then p.duration else p.breakDuration) &&
      r.state.seconds == 0 && r.state.progress == Full
  {
  }

  /** A paused timer does not move. */
  lemma PomodoroPausedStays(p: PomodoroState)
    requires !p.active
    ensures PomodoroTickStep(p) == PomodoroTickResult(p, None)
  {
  }

  /** `n` ticks in a row. */
  function PomodoroTicks(p: PomodoroState, n: nat): PomodoroState
    decreases n
  {
    if n == 0 then p else PomodoroTicks(PomodoroTickStep(p).state, n - 1)
  }

  /** A running phase with `Remaining(p)` seconds left reaches 00:00 after exactly that many
      ticks, still running and in the same phase, and the next tick ends it. */
  lemma {:induction false} PomodoroRunsToEnd(p: PomodoroState)
    requires ClockValid(p) && p.active
    ensures var q := PomodoroTicks(p, Remaining(p));
      q.minutes == 0 && q.seconds == 0 && q.active && q.isBreak == p.isBreak &&
      PomodoroTickStep(q).state.isBreak == !p.isBreak && !PomodoroTickStep(q).state.active
    decreases Remaining(p)
  {
    if Remaining(p) > 0 {
      PomodoroTickCountsDown(p);
      PomodoroRunsToEnd(PomodoroTickStep(p).state);
    }
  }

  /** `updateTimerSettings` for the Pomodoro: the durations always change; a paused timer is
      reseeded for its current phase. */
  function PomodoroSettingsStep(p: PomodoroState, s: TimerSettings): (r: PomodoroState)
    ensures r.duration == s.pomodoroDuration && r.breakDuration == s.pomodoroBreakDuration
    ensures r.active == p.active && r.isBreak == p.isBreak
    ensures p.active ==> r.minutes == p.minutes && r.seconds == p.seconds && r.progress == p.progress
    ensures !p.active ==> r == PomodoroResetStep(r, p.isBreak)
  {
    var q := p.(duration := s.pomodoroDuration, breakDuration := s.pomodoroBreakDuration);
    if p.active then q
    else q.(minutes := if p.isBreak then s.pomodoroBreakDuration else s.pomodoroDuration,
            seconds := 0, progress := Full)
  }

  // ---------------------------------------------------------------------------
  // Eye care

  datatype EyeCareState = EyeCareState(
    elapsed: int, active: bool, resting: bool, restProgress: Percent,
    workDuration: int, restDuration: int)

  /** The toasts at the end of a phase. */
  datatype EyeCareEvent = EyeBreakStarts | RestCompleted

  datatype EyeCareTickResult = EyeCareTickResult(state: EyeCareState, event: Option<EyeCareEvent>)

  const EyeCareDefaults: EyeCareState := EyeCareState(0, true, false, Empty, 20 * 60, 20)

  /** `resetEyeCareTimer()`: back to the start of a work phase; running or not is kept. */
  function EyeCareResetStep(e: EyeCareState): (r: EyeCareState)
    ensures r.elapsed == 0 && !r.resting && r.restProgress == Empty
    ensures r.active == e.active && r.workDuration == e.workDuration && r.restDuration == e.restDuration
  {
    e.(elapsed := 0, resting := false, restProgress := Empty)
  }

  /** One interval callback. While resting, the rest progress is computed from the count
      before the tick and the rest ends once the count reaches the rest duration; while
      working, the rest starts once the count reaches the work duration. */
  function EyeCareTickStep(e: EyeCareState): EyeCareTickResult
  {
    if !e.active then EyeCareTickResult(e, None)
    else if e.resting then
      var t := e.(restProgress := Percent(e.restDuration - e.elapsed, e.restDuration));
      if e.elapsed >= e.restDuration then EyeCareTickResult(EyeCareResetStep(t), Some(RestCompleted))
      else EyeCareTickResult(t.(elapsed := e.elapsed + 1), None)
    else if e.elapsed >= e.workDuration then
      EyeCareTickResult(e.(elapsed := 0, resting := true, restProgress := Full), Some(EyeBreakStarts))
    else EyeCareTickResult(e.(elapsed := e.elapsed + 1), None)
  }

  /** The count stays within the current phase's duration. */
  predicate InPhase(e: EyeCareState)
  {
    e.workDuration >= 0 && e.restDuration >= 0 &&
    0 <= e.elapsed <= (if e.resting then e.restDuration else e.workDuration)
  }

  /** A tick keeps the count within its phase (while the durations stay put) and changes
      neither the durations nor the running flag. */
  lemma EyeCareTickInPhase(e: EyeCareState)
    requires InPhase(e)
    ensures var r := EyeCareTickStep(e).state;
      InPhase(r) && r.active == e.active &&
      r.workDuration == e.workDuration && r.restDuration == e.restDuration
  {
  }

  /** A work tick below the work duration counts up; at it, the rest starts from zero with a
      full rest ring. A rest tick records `100 * (rest - elapsed) / rest`; at the rest
      duration the timer goes back to work, otherwise it counts up. */
  lemma EyeCareTickSpec(e: EyeCareState)
    requires e.active
    ensures var r := EyeCareTickStep(e);
      (!e.resting && e.elapsed < e.workDuration ==> r.state == e.(elapsed := e.elapsed + 1) && r.event.None?) &&
      (!e.resting && e.elapsed >= e.workDuration ==>
         r.state.elapsed == 0 && r.state.resting && r.state.restProgress == Full && r.event == Some(EyeBreakStarts)) &&
      (e.resting && e.elapsed < e.restDuration ==>
         r.state.elapsed == e.elapsed + 1 && r.state.resting && r.event.None? &&
         r.state.restProgress == Percent(e.restDuration - e.elapsed, e.restDuration)) &&
      (e.resting && e.elapsed >= e.restDuration ==>
         r.state == EyeCareResetStep(e) && r.event == Some(RestCompleted))
  {
  }

  /** `n` ticks in a row. */
  function EyeCareTicks(e: EyeCareState, n: nat): EyeCareState
    decreases n
  {
    if n == 0 then e else EyeCareTicks(EyeCareTickStep(e).state, n - 1)
  }

  /** Running from the start of a work phase, the rest starts after `work + 1` ticks and the
      next work phase after `rest + 1` more. */
  lemma EyeCareCycle(e: EyeCareState)
    requires e.active && !e.resting && e.elapsed == 0 && e.workDuration >= 0 && e.restDuration >= 0
    ensures var r := EyeCareTicks(e, e.workDuration + 1);
      r.resting && r.elapsed == 0 && r.active
    ensures var w := EyeCareTicks(EyeCareTicks(e, e.workDuration + 1), e.restDuration + 1);
      !w.resting && w.elapsed == 0 && w.active && w.workDuration == e.workDuration
  {
    EyeCareCountsUp(e, e.workDuration);
    var r := EyeCareTicks(e, e.workDuration + 1);
    EyeCareCountsUp(r, r.restDuration);
  }

  /** From the start of a phase, `n + 1` ticks with `n` the phase's duration count up to the
      end and take the step at the end. */
  lemma EyeCareCountsUp(e: EyeCareState, n: nat)
    requires e.active && e.elapsed == 0 && e.workDuration >= 0 && e.restDuration >= 0
    requires n == (if e.resting then e.restDuration else e.workDuration)
    ensures EyeCareTicks(e, n + 1) == EyeCareTickStep(EyeCareTicks(e, n)).state
    ensures var q := EyeCareTicks(e, n);
      q.elapsed == n && q.resting == e.resting && q.active &&
      q.workDuration == e.workDuration && q.restDuration == e.restDuration
    ensures var r := EyeCareTicks(e, n + 1);
      r.elapsed == 0 && r.resting == !e.resting && r.active &&
      r.workDuration == e.workDuration && r.restDuration == e.restDuration
  {
    EyeCareTicksPartial(e, n, n);
    EyeCareTicksSplit(e, n);
  }

  lemma {:induction false} EyeCareTicksPartial(e: EyeCareState, n: nat, k: nat)
    requires e.active && 0 <= e.elapsed && k <= n
    requires e.elapsed + n == (if e.resting then e.restDuration else e.workDuration)
    ensures var q := EyeCareTicks(e, k);
      q.elapsed == e.elapsed + k && q.resting == e.resting && q.active &&
      q.workDuration == e.workDuration && q.restDuration == e.restDuration
    decreases k
  {
    if k > 0 {
      EyeCareTicksPartial(EyeCareTickStep(e).state, n - 1, k - 1);
    }
  }

  lemma {:induction false} EyeCareTicksSplit(e: EyeCareState, n: nat)
    ensures EyeCareTicks(e, n + 1) == EyeCareTickStep(EyeCareTicks(e, n)).state
    decreases n
  {
    if n > 0 {
      EyeCareTicksSplit(EyeCareTickStep(e).state, n - 1);
    }
  }

  /** `updateTimerSettings` for eye care: the durations always change; a paused timer goes
      back to the start of a work phase. */
  function EyeCareSettingsStep(e: EyeCareState, s: TimerSettings): (r: EyeCareState)
    ensures r.workDuration == s.eyeCareWorkDuration && r.restDuration == s.eyeCareRestDuration
    ensures r.active == e.active
    ensures e.active ==> r.elapsed == e.elapsed && r.resting == e.resting && r.restProgress == e.restProgress
    ensures !e.active ==> r == EyeCareResetStep(r)
  {
    var q := e.(workDuration := s.eyeCareWorkDuration, restDuration := s.eyeCareRestDuration);
    if e.active then q else EyeCareResetStep(q)
  }

  // ---------------------------------------------------------------------------
  // The engines as objects

  class PomodoroEngine {
    var minutes: int
    var seconds: int
    var active: bool
    var isBreak: bool
    var progress: Percent
    var duration: int
    var breakDuration: int

    function State(): PomodoroState
      reads this
    {
      PomodoroState(minutes, seconds, active, isBreak, progress, duration, breakDuration)
    }

    constructor(loaded: PomodoroState)
      ensures State() == loaded
    {
      minutes, seconds, active, isBreak := loaded.minutes, loaded.seconds, loaded.active, loaded.isBreak;
      progress, duration, breakDuration := loaded.progress, loaded.duration, loaded.breakDuration;
    }

    /** One interval callback; the result is the toast raised at the end of a phase. */
    method Tick() returns (event: Option<PomodoroEvent>)
      modifies this
      ensures State() == PomodoroTickStep(old(State())).state
      ensures event == PomodoroTickStep(old(State())).event
    {
      event := None;
      if !active {
        return;
      }
      if seconds == 0 {
        if minutes == 0 {
          event := Some(if isBreak then BreakOver else BreakStarts);
          Reset(!isBreak);
          return;
        }
        progress := Percent(minutes * 60 + seconds, (if isBreak then breakDuration else duration) * 60);
        minutes := minutes - 1;
        seconds := 59;
      } else {
        progress := Percent(minutes * 60 + seconds, (if isBreak then breakDuration else duration) * 60);
        seconds := seconds - 1;
      }
    }

    /** `startPomodoroTimer()` */
    method Start()
      modifies this
      ensures State() == old(State()).(active := true)
    {
      active := true;
    }

    /** `pausePomodoroTimer()` */
    method Pause()
      modifies this
      ensures State() == old(State()).(active := false)
    {
      active := false;
    }

    /** `resetPomodoroTimer(isBreakTime)` */
    method Reset(isBreakTime: bool)
      modifies this
      ensures State() == PomodoroResetStep(old(State()), isBreakTime)
    {
      active := false;
      if isBreakTime {
        minutes := breakDuration;
        isBreak := true;
      } else {
        minutes := duration;
        isBreak := false;
      }
      seconds := 0;
      progress := Full;
    }
  }

  class EyeCareEngine {
    var elapsed: int
    var active: bool
    var resting: bool
    var restProgress: Percent
    var workDuration: int
    var restDuration: int

    function State(): EyeCareState
      reads this
    {
      EyeCareState(elapsed, active, resting, restProgress, workDuration, restDuration)
    }

    constructor(loaded: EyeCareState)
      ensures State() == loaded
    {
      elapsed, active, resting := loaded.elapsed, loaded.active, loaded.resting;
      restProgress, workDuration, restDuration := loaded.restProgress, loaded.workDuration, loaded.restDuration;
    }

    /** One interval callback; the result is the toast raised at the end of a phase. */
    method Tick() returns (event: Option<EyeCareEvent>)
      modifies this
      ensures State() == EyeCareTickStep(old(State())).state
      ensures event == EyeCareTickStep(old(State())).event
    {
      event := None;
      if !active {
        return;
      }
      if resting {
        restProgress := Percent(restDuration - elapsed, restDuration);
        if elapsed >= restDuration {
          event := Some(RestCompleted);
          Reset();
        } else {
          elapsed := elapsed + 1;
        }
      } else if elapsed >= workDuration {
        event := Some(EyeBreakStarts);
        elapsed := 0;
        resting := true;
        restProgress := Full;
      } else {
        elapsed := elapsed + 1;
      }
    }

    /** `startEyeCareTimer()` */
    method Start()
      modifies this
      ensures State() == old(State()).(active := true)
    {
      active := true;
    }

    /** `pauseEyeCareTimer()` */
    method Pause()
      modifies this
      ensures State() == old(State()).(active := false)
    {
      active := false;
    }

    /** `resetEyeCareTimer()` */
    method Reset()
      modifies this
      ensures State() == EyeCareResetStep(old(State()))
    {
      elapsed := 0;
      resting := false;
      restProgress := Empty;
    }
  }

  /** The provider: both engines and the user they belong to (None before the first effect). */
  class TimerProvider {
    const pomodoro: PomodoroEngine
    const eyeCare: EyeCareEngine
    var currentUserId: Option<string>

    /** Mounting with the values read back from storage. */
    constructor(loadedPomodoro: PomodoroState, loadedEyeCare: EyeCareState)
      ensures pomodoro.State() == loadedPomodoro && eyeCare.State() == loadedEyeCare
      ensures currentUserId.None? && fresh(pomodoro) && fresh(eyeCare)
    {
      pomodoro := new PomodoroEngine(loadedPomodoro);
      eyeCare := new EyeCareEngine(loadedEyeCare);
      currentUserId := None;
    }

    /** `updateTimerSettings(settings)` */
    method UpdateTimerSettings(s: TimerSettings)
      modifies pomodoro, eyeCare
      ensures pomodoro.State() == PomodoroSettingsStep(old(pomodoro.State()), s)
      ensures eyeCare.State() == EyeCareSettingsStep(old(eyeCare.State()), s)
    {
      pomodoro.duration := s.pomodoroDuration;
      pomodoro.breakDuration := s.pomodoroBreakDuration;
      eyeCare.workDuration := s.eyeCareWorkDuration;
      eyeCare.restDuration := s.eyeCareRestDuration;
      if !pomodoro.active {
        pomodoro.minutes := if pomodoro.isBreak then s.pomodoroBreakDuration else s.pomodoroDuration;
        pomodoro.seconds := 0;
        pomodoro.progress := Full;
      }
      if !eyeCare.active {
        eyeCare.elapsed := 0;
        eyeCare.resting := false;
        eyeCare.restProgress := Empty;
      }
    }

    /** The user-change effect: a different user (the first one included, since the provider
        starts without one) gets every default. */
    method OnUserChanged(userId: string)
      modifies this, pomodoro, eyeCare
      ensures old(currentUserId) != Some(userId) ==>
        pomodoro.State() == PomodoroDefaults && eyeCare.State() == EyeCareDefaults
      ensures old(currentUserId) == Some(userId) ==>
        pomodoro.State() == old(pomodoro.State()) && eyeCare.State() == old(eyeCare.State())
      ensures currentUserId == Some(userId)
    {
      if currentUserId != Some(userId) {
        pomodoro.minutes, pomodoro.seconds, pomodoro.active, pomodoro.isBreak := 25, 0, false, false;
        pomodoro.progress, pomodoro.duration, pomodoro.breakDuration := Full, 25, 5;
        eyeCare.elapsed, eyeCare.active, eyeCare.resting := 0, true, false;
        eyeCare.restProgress, eyeCare.workDuration, eyeCare.restDuration := Empty, 20 * 60, 20;
        currentUserId := Some(userId);
      }
    }
  }

  /** Whatever was read back from storage, the first user effect after mounting replaces it
      with the defaults: the stored timers never survive a reload. */
  method MountDiscardsStoredTimers(loadedPomodoro: PomodoroState, loadedEyeCare: EyeCareState, userId: string)
    returns (t: TimerProvider)
    ensures fresh(t) && fresh(t.pomodoro) && fresh(t.eyeCare)
    ensures t.pomodoro.State() == PomodoroDefaults && t.eyeCare.State() == EyeCareDefaults
  {
    t := new TimerProvider(loadedPomodoro, loadedEyeCare);
    t.OnUserChanged(userId);
  }
}
