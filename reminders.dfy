/** The hydration and posture cards: the same countdown with a different period. While a card
    is enabled a one-second interval counts down; at the end it raises a reminder and starts
    again from the full period. */
module Reminders {
  import opened JsStrings

  datatype ReminderKind = Hydration | Posture

  /** Seconds between two reminders: half an hour to drink, three quarters to sit up. */
  function Period(kind: ReminderKind): (p: int)
    ensures p > 1
  {
    match kind
    case Hydration => 30 * 60
    case Posture => 45 * 60
  }

  datatype ReminderState = ReminderState(kind: ReminderKind, enabled: bool, timeLeft: int)

  datatype ReminderTickResult = ReminderTickResult(state: ReminderState, fired: bool)

  /** Mounting: what storage holds, else disabled and a full period. */
  function LoadedReminder(kind: ReminderKind, storedEnabled: Option<bool>, storedTimeLeft: Option<int>): (r: ReminderState)
    ensures r.kind == kind
    ensures r.enabled <==> storedEnabled == Some(true)
    ensures r.timeLeft == (if storedTimeLeft.Some? then storedTimeLeft.value else Period(kind))
  {
    ReminderState(kind,
                  match storedEnabled case Some(b) => b case None => false,
                  match storedTimeLeft case Some(t) => t case None => Period(kind))
  }

  /** One interval callback; none runs while the card is disabled. */
  function ReminderTickStep(r: ReminderState): ReminderTickResult
  {
    if !r.enabled then ReminderTickResult(r, false)
    else
      var next := if r.timeLeft - 1 > 0 then r.timeLeft - 1 else 0;
      if next == 0 then ReminderTickResult(r.(timeLeft := Period(r.kind)), true)
      else ReminderTickResult(r.(timeLeft := next), false)
  }

  /** `toggleEnabled()`: enabling restarts the countdown; disabling keeps it. */
  function ToggleStep(r: ReminderState): (t: ReminderState)
    ensures t.enabled == !r.enabled && t.kind == r.kind
    ensures t.enabled ==> t.timeLeft == Period(r.kind)
    ensures !t.enabled ==> t.timeLeft == r.timeLeft
  {
    if r.enabled then r.(enabled := false) else r.(enabled := true, timeLeft := Period(r.kind))
  }

  /** The countdown stays between one second and the period. */
  predicate InRange(r: ReminderState)
  {
    1 <= r.timeLeft <= Period(r.kind)
  }

  /** An enabled tick above one second takes one off; at one second or less it raises the
      reminder and restarts, so the countdown never shows zero; a disabled card does not move. */
  lemma ReminderTickSpec(r: ReminderState)
    ensures var t := ReminderTickStep(r);
      (!r.enabled ==> t == ReminderTickResult(r, false)) &&
      (r.enabled && r.timeLeft > 1 ==> !t.fired && t.state.timeLeft == r.timeLeft - 1) &&
      (r.enabled && r.timeLeft <= 1 ==> t.fired && t.state.timeLeft == Period(r.kind)) &&
      t.state.enabled == r.enabled && t.state.kind == r.kind &&
      (r.enabled ==> t.state.timeLeft >= 1)
  {
  }

  /** Ticks and toggles keep the countdown in range. */
  lemma InRangeKept(r: ReminderState)
    requires InRange(r)
    ensures InRange(ReminderTickStep(r).state) && InRange(ToggleStep(r))
  {
  }

  /** `n` ticks in a row, and how many reminders they raise. */
  function ReminderTicks(r: ReminderState, n: nat): ReminderTickResult
    decreases n
  {
    if n == 0 then ReminderTickResult(r, false)
    else
      var first := ReminderTickStep(r);
      var rest := ReminderTicks(first.state, n - 1);
      ReminderTickResult(rest.state, first.fired || rest.fired)
  }

  /** An enabled card with `t` seconds left raises nothing in the next `t - 1` ticks and the
      reminder on the `t`-th, after which a full period starts again. */
  lemma {:induction false} ReminderFiresOnTime(r: ReminderState)
    requires r.enabled && r.timeLeft >= 1
    ensures var quiet := ReminderTicks(r, r.timeLeft - 1);
      !quiet.fired && quiet.state.timeLeft == 1 && quiet.state.enabled && quiet.state.kind == r.kind
    ensures var last := ReminderTickStep(ReminderTicks(r, r.timeLeft - 1).state);
      last.fired && last.state.timeLeft == Period(r.kind)
    decreases r.timeLeft
  {
    if r.timeLeft > 1 {
      var next := ReminderTickStep(r).state;
      assert next.timeLeft == r.timeLeft - 1;
      ReminderFiresOnTime(next);
    }
  }

  /** Enabling a card starts a full period: the first reminder comes after exactly
      `Period(kind)` ticks. */
  lemma FirstReminderAfterPeriod(r: ReminderState)
    requires !r.enabled
    ensures var t := ToggleStep(r);
      !ReminderTicks(t, Period(r.kind) - 1).fired &&
      ReminderTickStep(ReminderTicks(t, Period(r.kind) - 1).state).fired
  {
    ReminderFiresOnTime(ToggleStep(r));
  }

  // ---------------------------------------------------------------------------
  // `formatTime(seconds)`: `M:SS`

  /** JavaScript's `%`: the remainder takes the sign of the dividend. */
  function JsRem(a: int, b: int): (r: int)
    requires b > 0
    ensures a >= 0 ==> r == a % b
    ensures a < 0 ==> -b < r <= 0
  {
    if a >= 0 then a % b else -((-a) % b)
  }

  /** Minutes (rounded down), a colon, and the seconds padded to two characters. */
  function FormatTime(seconds: int): string
  {
    IntToString(seconds / 60) + ":" + PadStart2(IntToString(JsRem(seconds, 60)))
  }

  /** For a non-negative count the text is a reading `M:SS` whose minutes and seconds give the
      count back, with the seconds below sixty. */
  lemma FormatTimeRoundTrip(seconds: int)
    requires seconds >= 0
    ensures exists m: string, ss: string ::
      FormatTime(seconds) == m + ":" + ss && AllDigits(m) && |m| >= 1 && AllDigits(ss) && |ss| == 2 &&
      DigitsValue(ss) < 60 && DigitsValue(m) * 60 + DigitsValue(ss) == seconds
  {
    var m := NatToString(seconds / 60);
    var ss := PadStart2(NatToString(seconds % 60));
    DigitsRoundTrip(seconds / 60);
    PaddedRoundTrip(seconds % 60);
    assert FormatTime(seconds) == m + ":" + ss;
  }

  // ---------------------------------------------------------------------------
  // The card

  class ReminderCard {
    const kind: ReminderKind
    var enabled: bool
    var timeLeft: int

    function State(): ReminderState
      reads this
    {
      ReminderState(kind, enabled, timeLeft)
    }

    /** Mounting with what storage holds. */
    constructor(k: ReminderKind, storedEnabled: Option<bool>, storedTimeLeft: Option<int>)
      ensures State() == LoadedReminder(k, storedEnabled, storedTimeLeft)
    {
      kind := k;
      enabled := match storedEnabled case Some(b) => b case None => false;
      timeLeft := match storedTimeLeft case Some(t) => t case None => Period(k);
    }

    /** One interval callback; the result says whether a reminder was raised. */
    method Tick() returns (fired: bool)
      modifies this
      ensures State() == ReminderTickStep(old(State())).state
      ensures fired == ReminderTickStep(old(State())).fired
    {
      fired := false;
      if !enabled {
        return;
      }
      var newTime := if timeLeft - 1 > 0 then timeLeft - 1 else 0;
      if newTime == 0 {
        fired := true;
        timeLeft := Period(kind);
      } else {
        timeLeft := newTime;
      }
    }

    /** `toggleEnabled()` */
    method Toggle()
      modifies this
      ensures State() == ToggleStep(old(State()))
    {
      enabled := !enabled;
      if enabled {
        timeLeft := Period(kind);
      }
    }
  }
}
