/** The focus-mode session: the provider's state, the step each handler or effect takes on it,
    and a class that holds the state in fields and updates it in place. The TypeScript and
    JavaScript copies of the provider are the two values of `Variant`. */
module FocusSession {
  import opened JsStrings
  import opened AppMatcher

  const NotificationCooldown: int := 2000
  const FocusModeToastDelay: int := 1000

  /** Entries that every saved allow-list is merged with. */
  const EssentialApps: seq<string> := ["Mindful Desktop Companion", "Electron", "electron", "chrome-devtools"]

  const DefaultAlertText: string := "You're outside your focus zone. " + "{app}" + " is not in your whitelist."
  /** The JavaScript copy's test popup falls back on this text, which has no placeholder. */
  const TestFallbackText: string := "You're outside your focus zone. " + "This app is not in your whitelist."
  const DefaultImage: string := "https://images.unsplash.com/photo-1488590528505-98d2b5aba04b"

  /** The payload of an `active-window-changed` event: a bare title, or a descriptor.
      Empty strings stand for absent fields. */
  datatype WindowInfo =
    | TitleOnly(title: string)
    | Described(title: string, owner: Option<Owner>, appName: string)

  /** `owner?.name || appName || extractAppName(title)` for a descriptor, the extracted name
      for a bare title. */
  function WindowAppName(w: WindowInfo): string
  {
    match w
    case TitleOnly(t) => ExtractAppName(t)
    case Described(t, owner, a) =>
      if owner.Some? && owner.value.name != "" then owner.value.name
      else if a != "" then a
      else ExtractAppName(t)
  }

  /** The request the provider dispatches as a `show-focus-popup` event. */
  datatype AlertRequest = AlertRequest(
    title: string, body: string, notificationId: string, mediaType: string,
    mediaContent: string, appName: string, dimScreen: bool)

  /** The provider's state. Strings that the source keeps as `null` are empty here. */
  datatype FocusState = FocusState(
    variant: Variant,
    currentUserId: string,
    isFocusMode: bool,
    whitelist: seq<string>,
    dimInsteadOfBlock: bool,
    lastActiveWindow: string,
    activeWindow: Option<WindowInfo>,
    currentActiveApp: string,
    isCurrentAppWhitelisted: bool,
    showingAlert: bool,
    currentAlertApp: string,
    wasInWhitelistedApp: bool,
    customText: string,
    customImage: string,
    notificationTimestamps: map<string, int>,
    lastFocusModeToastTime: int,
    lastNotificationDismissed: string)

  /** A step that may dispatch an alert. */
  datatype AlertStepResult = AlertStepResult(state: FocusState, alert: Option<AlertRequest>)

  /** A step that may schedule an alert for an application a little later. */
  datatype PendingStepResult = PendingStepResult(state: FocusState, pendingAlert: Option<string>)

  /** Outcome of a removal: the JavaScript copy refuses essential applications. */
  datatype RemoveStepResult = RemoveStepResult(state: FocusState, refused: bool, pendingAlert: Option<string>)

  /** Stored preferences; an empty or missing item reads the same. */
  datatype StoredList = NoList | Unparsable | ParsedList(apps: seq<string>)
  datatype StoredFlag = NoFlag | UnparsableFlag | ParsedFlag(isTrue: bool)
  datatype StoredPreferences = StoredPreferences(
    customText: string, customImage: string, whitelist: StoredList, dimOption: StoredFlag, focusMode: string)

  function InitialState(v: Variant): FocusState
  {
    FocusState(v, "", false, [], true, "", None, "", false, false, "", false, "", "", map[], 0, "")
  }

  // ---------------------------------------------------------------------------
  // Helpers shared by the steps

  /** Case-insensitive two-way inclusion with an essential entry: such a name never gets an alert. */
  predicate OverlapsEssential(name: string)
  {
    exists d | d in EssentialApps :: EitherContains(Lower(name), Lower(d))
  }

  /** The JavaScript copy's removal guard: equal to, including, or included in an essential entry. */
  predicate RemovalRefused(app: string)
  {
    exists d | d in EssentialApps ::
      Lower(d) == Lower(app) || Contains(Lower(app), Lower(d)) || Contains(Lower(d), Lower(app))
  }

  /** `[...new Set([...whitelist, ...DEFAULT_WHITELIST_APPS])]` */
  function MergeEssentials(whitelist: seq<string>): (r: seq<string>)
    ensures NoDup(r)
    ensures forall d :: d in EssentialApps ==> d in r
    ensures forall x :: x in whitelist ==> x in r
    ensures forall x :: x in r ==> x in whitelist || x in EssentialApps
  {
    Dedup(whitelist + EssentialApps)
  }

  /** The owner the matcher sees: only a descriptor has one. */
  function ActiveOwner(s: FocusState): Option<Owner>
  {
    match s.activeWindow
    case Some(Described(_, owner, _)) => owner
    case _ => None
  }

  /** The application the block-transition effect checks. */
  function CurrentAppName(s: FocusState): string
  {
    match s.activeWindow
    case Some(Described(t, o, a)) => WindowAppName(Described(t, o, a))
    case _ => ExtractAppName(s.lastActiveWindow)
  }

  /** `focus-mode-<app>-<now>` */
  function AlertId(appName: string, now: int): string
  {
    "focus-mode-" + appName + "-" + IntToString(now)
  }

  function AlertFor(s: FocusState, appName: string, now: int): AlertRequest
  {
    var text := if s.customText != "" then s.customText else DefaultAlertText;
    AlertRequest("Focus Mode Alert", ReplaceFirst(text, "{app}", appName), AlertId(appName, now),
                 if s.customImage != "" then "image" else "none", s.customImage, appName,
                 s.dimInsteadOfBlock)
  }

  // ---------------------------------------------------------------------------
  // Steps

  /** `handleNonWhitelistedApp(appName)` at time `now`. */
  function AlertStep(s: FocusState, appName: string, now: int): AlertStepResult
  {
    if OverlapsEssential(appName) then AlertStepResult(s, None)
    else
      AlertStepResult(
        s.(currentAlertApp := appName, showingAlert := true,
           notificationTimestamps := s.notificationTimestamps[appName := now]),
        Some(AlertFor(s, appName, now)))
  }

  /** The effect that runs when the window, the list, the flag or `wasInWhitelistedApp` change:
      an alert on leaving an allowed application for a refused one, at most one per
      application every two seconds. */
  function BlockTransitionStep(s: FocusState, now: int): AlertStepResult
  {
    if !s.isFocusMode || s.lastActiveWindow == "" then AlertStepResult(s, None)
    else
      var name := CurrentAppName(s);
      LeavingStep(s, name, IsAppInWhitelist(s.variant, name, MergeEssentials(s.whitelist), ActiveOwner(s)), now)
  }

  /** The effect once the current application `name` and its verdict `allowed` are known. */
  function LeavingStep(s: FocusState, name: string, allowed: bool, now: int): AlertStepResult
  {
    if s.wasInWhitelistedApp && !allowed && name != ""
       && now - GetOr(s.notificationTimestamps, name, 0) > NotificationCooldown
    then
      var h := AlertStep(s, name, now);
      AlertStepResult(
        h.state.(notificationTimestamps := h.state.notificationTimestamps[name := now],
                 wasInWhitelistedApp := allowed),
        h.alert)
    else AlertStepResult(s.(wasInWhitelistedApp := allowed), None)
  }

  /** The `active-window-changed` listener. The matcher sees the descriptor of the previous
      event, which is what the listener's closure holds. */
  function WindowChangedStep(s: FocusState, w: WindowInfo): FocusState
  {
    var name := WindowAppName(w);
    ShowWindow(s, w, name, IsAppInWhitelist(s.variant, name, s.whitelist, ActiveOwner(s)))
  }

  /** The listener's four setters, once the name and its verdict are known. */
  function ShowWindow(s: FocusState, w: WindowInfo, name: string, allowed: bool): FocusState
  {
    s.(activeWindow := Some(w), currentActiveApp := name, lastActiveWindow := w.title,
       isCurrentAppWhitelisted := allowed)
  }

  /** The `notification-dismissed` listener. */
  function DismissedStep(s: FocusState, detail: string): FocusState
  {
    var t := s.(lastNotificationDismissed := detail);
    if s.currentAlertApp != "" && Contains(detail, s.currentAlertApp) then t.(showingAlert := false) else t
  }

  /** `testFocusModePopup()`: the TypeScript copy runs the handler on a fixed name; the
      JavaScript copy builds a request for the current application itself and changes nothing. */
  function TestPopupStep(s: FocusState, now: int): AlertStepResult
  {
    match s.variant
    case Tsx => AlertStep(s, "Test Application", now)
    case Jsx => AlertStepResult(s, Some(TestAlertFor(s, now)))
  }

  /** The JavaScript copy's test request; its detail has no dimming flag. */
  function TestAlertFor(s: FocusState, now: int): AlertRequest
  {
    var app := if s.currentActiveApp != "" then s.currentActiveApp else "Test App";
    var text := if s.customText != "" then s.customText else TestFallbackText;
    AlertRequest("Focus Mode Alert", ReplaceFirst(text, "{app}", app),
                 "test-focus-popup-" + IntToString(now), "image", s.customImage, app, false)
  }

  /** The JavaScript copy ignores a toggle less than a second after the last one it acted on,
      apart from flipping the flag and resetting the cooldowns. */
  predicate Throttled(s: FocusState, now: int)
  {
    s.variant == Jsx && now - s.lastFocusModeToastTime < FocusModeToastDelay
  }

  /** `toggleFocusMode()`; in the JavaScript copy this is the callback that runs after the
      stabilising delay, at time `now`. */
  function ToggleStep(s: FocusState, now: int): PendingStepResult
  {
    var base := ResetForToggle(s);
    if Throttled(s, now) then PendingStepResult(base, None)
    else
      var t := StampToggle(base, now);
      if !s.isFocusMode then EnableCheckStep(t)
      else PendingStepResult(t.(showingAlert := false, currentAlertApp := ""), None)
  }

  /** What every toggle does: flip the flag and forget the cooldowns. */
  function ResetForToggle(s: FocusState): FocusState
  {
    s.(isFocusMode := !s.isFocusMode, wasInWhitelistedApp := false, notificationTimestamps := map[])
  }

  /** The JavaScript copy records when a toggle was acted on. */
  function StampToggle(s: FocusState, now: int): FocusState
  {
    if s.variant == Jsx then s.(lastFocusModeToastTime := now) else s
  }

  /** On enabling: remember whether the application in the last window is allowed by the merged
      list, and schedule an alert for it when it is not. */
  function EnableCheckStep(t: FocusState): PendingStepResult
  {
    if t.lastActiveWindow != "" then
      var name := ExtractAppName(t.lastActiveWindow);
      var allowed := IsAppInWhitelist(t.variant, name, MergeEssentials(t.whitelist), ActiveOwner(t));
      PendingStepResult(t.(wasInWhitelistedApp := allowed),
                        if !allowed && name != "" then Some(name) else None)
    else PendingStepResult(t, None)
  }

  /** `addToWhitelist(app)` */
  function AddStep(s: FocusState, app: string): FocusState
  {
    match s.variant
    case Tsx =>
      if app != "" && app !in s.whitelist then s.(whitelist := s.whitelist + [app]) else s
    case Jsx =>
      if app !in s.whitelist && Trim(app) != "" then
        MarkAllowedStep(ForgetAlertStep(s.(whitelist := s.whitelist + [app]), app), app)
      else s
  }

  /** The JavaScript copy, after adding `app`: an alert showing for it is hidden and its
      cooldown time stamp, when non-zero, is deleted. */
  function ForgetAlertStep(s: FocusState, app: string): FocusState
  {
    if s.currentAlertApp == app then
      var ts := s.notificationTimestamps;
      s.(showingAlert := false, currentAlertApp := "",
         notificationTimestamps := if app in ts && ts[app] != 0 then ts - {app} else ts)
    else s
  }

  /** The JavaScript copy, after adding `app`: the last window's application and the current
      application are marked allowed when they are `app`. */
  function MarkAllowedStep(s: FocusState, app: string): FocusState
  {
    var s1 := if s.lastActiveWindow != "" && ExtractAppName(s.lastActiveWindow) == app
              then s.(wasInWhitelistedApp := true) else s;
    if s.currentActiveApp == app then s1.(isCurrentAppWhitelisted := true) else s1
  }

  /** `removeFromWhitelist(app)` */
  function RemoveStep(s: FocusState, app: string): RemoveStepResult
  {
    match s.variant
    case Tsx => RemoveStepResult(s.(whitelist := RemoveAll(s.whitelist, app)), false, None)
    case Jsx =>
      if RemovalRefused(app) then RemoveStepResult(s, true, None)
      else RevokeActiveStep(s.(whitelist := RemoveAll(s.whitelist, app)), app)
  }

  /** The JavaScript copy, after removing `app` with the mode on: when the last window belongs
      to `app`, it is no longer allowed and an alert for it is scheduled. */
  function RevokeActiveStep(s: FocusState, app: string): RemoveStepResult
  {
    if s.isFocusMode && s.lastActiveWindow != "" && ExtractAppName(s.lastActiveWindow) == app then
      RemoveStepResult(s.(wasInWhitelistedApp := false, isCurrentAppWhitelisted := false), false, Some(app))
    else RemoveStepResult(s, false, None)
  }

  /** The save effect: the merged list replaces the state only when its length differs. */
  function SaveStep(s: FocusState): FocusState
  {
    var updated := MergeEssentials(s.whitelist);
    if |updated| != |s.whitelist| then s.(whitelist := updated) else s
  }

  /** The effect that runs when the flag changes (FocusModeContext.tsx:413); in
      FocusModeContext.jsx:322 it also runs when the window or the list changes, so that copy
      clears the cooldowns and `wasInWhitelistedApp` on those changes too. The check it makes
      at once, and every second after while the mode is on, is `PollStep`. */
  function FocusModeEffectStep(s: FocusState): FocusState
  {
    s.(wasInWhitelistedApp := false, notificationTimestamps := map[],
       showingAlert := if s.isFocusMode then s.showingAlert else false)
  }

  /** The last part of the window owner's path, when it has one. */
  function PolledExeName(s: FocusState): string
  {
    var owner := ActiveOwner(s);
    if owner.Some? && owner.value.path != "" then Last(Split(owner.value.path, IsSlash, false)) else ""
  }

  /** The poll's verdict on the current application: its name, or else its executable name,
      is allowed by the merged list. */
  predicate PolledVerdict(s: FocusState)
  {
    var merged := MergeEssentials(s.whitelist);
    var exe := PolledExeName(s);
    IsAppInWhitelist(s.variant, CurrentAppName(s), merged, ActiveOwner(s)) ||
    (exe != "" && IsAppInWhitelist(s.variant, exe, merged, ActiveOwner(s)))
  }

  /** `checkActiveWindowAgainstWhitelist(lastActiveWindow)`, run by the once-a-second poll
      while there is a window: it refreshes the live preview of the current application and
      hides an alert whose application the merged list now allows. */
  function PollStep(s: FocusState): FocusState
  {
    if !s.isFocusMode || s.lastActiveWindow == "" then s
    else
      PollFields(s, CurrentAppName(s), PolledVerdict(s),
                 IsAppInWhitelist(s.variant, s.currentAlertApp, MergeEssentials(s.whitelist), ActiveOwner(s)))
  }

  /** The poll's setters, once the name, its verdict and the alert application's are known. */
  function PollFields(s: FocusState, name: string, allowed: bool, alertAllowed: bool): FocusState
  {
    var t := s.(currentActiveApp := name, isCurrentAppWhitelisted := allowed);
    if s.showingAlert && s.currentAlertApp != "" && alertAllowed then t.(showingAlert := false) else t
  }

  /** The user-change effect, present only in the TypeScript copy. */
  function UserChangedStep(s: FocusState, userId: string): FocusState
  {
    if s.variant == Tsx && s.currentUserId != userId then
      s.(isFocusMode := false, wasInWhitelistedApp := false, notificationTimestamps := map[],
         currentUserId := userId)
    else s
  }

  /** The effect that loads the stored alert text and image, with their defaults. */
  function LoadAlertStep(s: FocusState, stored: StoredPreferences): FocusState
  {
    s.(customText := OrDefault(stored.customText, DefaultAlertText),
       customImage := OrDefault(stored.customImage, DefaultImage))
  }

  /** `value || fallback` on strings. */
  function OrDefault(value: string, fallback: string): (r: string)
    ensures value != "" ==> r == value
    ensures value == "" ==> r == fallback
  {
    if value != "" then value else fallback
  }

  /** The stored list merged with the essential entries, or the essential entries alone when
      nothing (or nothing readable) is stored. */
  function LoadedList(stored: StoredList): (r: seq<string>)
    ensures NoDup(r)
    ensures forall d :: d in EssentialApps ==> d in r
    ensures stored.ParsedList? ==> forall x :: x in stored.apps ==> x in r
    ensures forall x :: x in r ==> x in EssentialApps || (stored.ParsedList? && x in stored.apps)
  {
    EssentialAppsNoDup();
    match stored
    case ParsedList(apps) => Dedup(apps + EssentialApps)
    case _ => EssentialApps
  }

  /** The flag after loading: on when stored as "true"; otherwise off in the TypeScript copy
      and unchanged in the JavaScript copy. */
  function LoadedFocusMode(v: Variant, current: bool, stored: string): (r: bool)
    ensures v == Tsx ==> (r <==> stored == "true")
    ensures v == Jsx ==> (r <==> stored == "true" || current)
  {
    if stored == "true" then true else if v == Tsx then false else current
  }

  /** The effect that loads the stored list (merged with the essential entries), the dim
      option and the flag. */
  function LoadSettingsStep(s: FocusState, stored: StoredPreferences): FocusState
  {
    s.(whitelist := LoadedList(stored.whitelist),
       dimInsteadOfBlock := if stored.dimOption.ParsedFlag? then stored.dimOption.isTrue else s.dimInsteadOfBlock,
       isFocusMode := LoadedFocusMode(s.variant, s.isFocusMode, stored.focusMode))
  }

  /** Both loading effects. */
  function LoadStep(s: FocusState, stored: StoredPreferences): FocusState
  {
    LoadSettingsStep(LoadAlertStep(s, stored), stored)
  }

  // ---------------------------------------------------------------------------
  // The invariant every step keeps

  /** No duplicate entries; an alert that is showing names its application; that application
      never overlaps an essential entry. */
  predicate Invariant(s: FocusState)
  {
    NoDup(s.whitelist) &&
    (s.showingAlert ==> s.currentAlertApp != "") &&
    (s.currentAlertApp != "" ==> !OverlapsEssential(s.currentAlertApp))
  }

  lemma EssentialAppsNoDup()
    ensures NoDup(EssentialApps)
  {
  }

  lemma InitialInvariant(v: Variant)
    ensures Invariant(InitialState(v))
  {
  }

  lemma AlertStepKeepsInvariant(s: FocusState, appName: string, now: int)
    requires Invariant(s)
    ensures Invariant(AlertStep(s, appName, now).state)
  {
    if !OverlapsEssential(appName) {
      EmptyOverlapsEssential();
    }
  }

  /** The empty name overlaps every entry. */
  lemma EmptyOverlapsEssential()
    ensures OverlapsEssential("")
  {
    ContainsEmpty(Lower(EssentialApps[0]));
    assert EitherContains(Lower(""), Lower(EssentialApps[0]));
  }

  lemma BlockTransitionKeepsInvariant(s: FocusState, now: int)
    requires Invariant(s)
    ensures Invariant(BlockTransitionStep(s, now).state)
  {
    if s.isFocusMode && s.lastActiveWindow != "" {
      var name := CurrentAppName(s);
      LeavingStepKeepsInvariant(s, name, IsAppInWhitelist(s.variant, name, MergeEssentials(s.whitelist), ActiveOwner(s)), now);
    }
  }

  lemma LeavingStepKeepsInvariant(s: FocusState, name: string, allowed: bool, now: int)
    requires Invariant(s)
    ensures Invariant(LeavingStep(s, name, allowed, now).state)
  {
    AlertStepKeepsInvariant(s, name, now);
  }

  lemma AppendFreshNoDup(xs: seq<string>, x: string)
    requires NoDup(xs) && x !in xs
    ensures NoDup(xs + [x])
  {
  }

  /** The invariant only looks at the list and the alert fields; a step that keeps them, or
      clears the alert, keeps it. */
  lemma InvariantOfAlertFields(s: FocusState, t: FocusState)
    requires Invariant(s) && NoDup(t.whitelist)
    requires (t.showingAlert == s.showingAlert && t.currentAlertApp == s.currentAlertApp)
          || (!t.showingAlert && t.currentAlertApp == "")
    ensures Invariant(t)
  {
  }

  /** What adding an entry does to the fields the invariant reads. */
  lemma AddStepFields(s: FocusState, app: string)
    ensures var r := AddStep(s, app);
      (r.whitelist == s.whitelist || (app !in s.whitelist && r.whitelist == s.whitelist + [app])) &&
      ((r.showingAlert == s.showingAlert && r.currentAlertApp == s.currentAlertApp)
       || (!r.showingAlert && r.currentAlertApp == ""))
  {
    if s.variant == Tsx {
      AddStepFieldsTsx(s, app);
    } else {
      AddStepFieldsJsx(s, app);
    }
  }

  lemma AddStepFieldsTsx(s: FocusState, app: string)
    requires s.variant == Tsx
    ensures var r := AddStep(s, app);
      (r.whitelist == s.whitelist || (app !in s.whitelist && r.whitelist == s.whitelist + [app])) &&
      r.showingAlert == s.showingAlert && r.currentAlertApp == s.currentAlertApp
  {
  }

  lemma AddStepFieldsJsx(s: FocusState, app: string)
    requires s.variant == Jsx
    ensures var r := AddStep(s, app);
      (r.whitelist == s.whitelist || (app !in s.whitelist && r.whitelist == s.whitelist + [app])) &&
      ((r.showingAlert == s.showingAlert && r.currentAlertApp == s.currentAlertApp)
       || (!r.showingAlert && r.currentAlertApp == ""))
  {
    AddStepListJsx(s, app);
    AddStepAlertJsx(s, app);
  }

  lemma AddStepListJsx(s: FocusState, app: string)
    requires s.variant == Jsx
    ensures AddStep(s, app).whitelist ==
      if app !in s.whitelist && Trim(app) != "" then s.whitelist + [app] else s.whitelist
  {
    if app !in s.whitelist && Trim(app) != "" {
      var t := s.(whitelist := s.whitelist + [app]);
      ForgetAlertFields(t, app);
      MarkAllowedFields(ForgetAlertStep(t, app), app);
    }
  }

  lemma AddStepAlertJsx(s: FocusState, app: string)
    requires s.variant == Jsx
    ensures var r := AddStep(s, app);
      (r.showingAlert == s.showingAlert && r.currentAlertApp == s.currentAlertApp)
      || (!r.showingAlert && r.currentAlertApp == "")
  {
    if app !in s.whitelist && Trim(app) != "" {
      var t := s.(whitelist := s.whitelist + [app]);
      ForgetAlertFields(t, app);
      MarkAllowedFields(ForgetAlertStep(t, app), app);
    } else {
      assert AddStep(s, app) == s;
    }
  }

  /** Forgetting the alert for `app` clears it when it is the current one, and keeps it
      otherwise; the list stays. */
  lemma ForgetAlertFields(s: FocusState, app: string)
    ensures var r := ForgetAlertStep(s, app);
      r.whitelist == s.whitelist &&
      (s.currentAlertApp == app ==>
         !r.showingAlert && r.currentAlertApp == "" && GetOr(r.notificationTimestamps, app, 0) == 0) &&
      (s.currentAlertApp != app ==> r == s)
  {
  }

  /** Marking `app` allowed touches only the two flags. */
  lemma MarkAllowedFields(s: FocusState, app: string)
    ensures var r := MarkAllowedStep(s, app);
      r.whitelist == s.whitelist && r.showingAlert == s.showingAlert &&
      r.currentAlertApp == s.currentAlertApp && r.notificationTimestamps == s.notificationTimestamps &&
      (s.currentActiveApp == app ==> r.isCurrentAppWhitelisted) &&
      (s.lastActiveWindow != "" && ExtractAppName(s.lastActiveWindow) == app ==> r.wasInWhitelistedApp)
  {
  }

  lemma AddStepKeepsInvariant(s: FocusState, app: string)
    requires Invariant(s)
    ensures Invariant(AddStep(s, app))
  {
    AddStepFields(s, app);
    var r := AddStep(s, app);
    if r.whitelist != s.whitelist {
      AppendFreshNoDup(s.whitelist, app);
    }
    InvariantOfAlertFields(s, r);
  }

  lemma RemoveStepKeepsInvariant(s: FocusState, app: string)
    requires Invariant(s)
    ensures Invariant(RemoveStep(s, app).state)
  {
  }

  lemma SaveStepKeepsInvariant(s: FocusState)
    requires Invariant(s)
    ensures Invariant(SaveStep(s))
  {
  }

  lemma ToggleStepKeepsInvariant(s: FocusState, now: int)
    requires Invariant(s)
    ensures Invariant(ToggleStep(s, now).state)
  {
  }

  lemma DismissedStepKeepsInvariant(s: FocusState, detail: string)
    requires Invariant(s)
    ensures Invariant(DismissedStep(s, detail))
  {
  }

  lemma FocusModeEffectKeepsInvariant(s: FocusState)
    requires Invariant(s)
    ensures Invariant(FocusModeEffectStep(s))
  {
  }

  lemma PollStepKeepsInvariant(s: FocusState)
    requires Invariant(s)
    ensures Invariant(PollStep(s))
  {
  }

  lemma PollFieldsKeepsInvariant(s: FocusState, name: string, allowed: bool, alertAllowed: bool)
    requires Invariant(s)
    ensures Invariant(PollFields(s, name, allowed, alertAllowed))
  {
  }

  lemma UserChangedKeepsInvariant(s: FocusState, userId: string)
    requires Invariant(s)
    ensures Invariant(UserChangedStep(s, userId))
  {
  }

  lemma ShowWindowKeepsInvariant(s: FocusState, w: WindowInfo, name: string, allowed: bool)
    requires Invariant(s)
    ensures Invariant(ShowWindow(s, w, name, allowed))
  {
  }

  lemma LoadStepKeepsInvariant(s: FocusState, stored: StoredPreferences)
    requires Invariant(s)
    ensures Invariant(LoadAlertStep(s, stored))
    ensures Invariant(LoadSettingsStep(s, stored))
    ensures Invariant(LoadStep(s, stored))
  {
    EssentialAppsNoDup();
  }

  // ---------------------------------------------------------------------------
  // The alert

  /** The handler skips exactly the names that overlap an essential entry (the empty name
      among them); otherwise it records the application, shows the alert and stamps the time. */
  /** The test button always produces a request. The TypeScript copy's is a real alert for
      "Test Application" (which no essential entry overlaps); the JavaScript copy's names the
      current application, or "Test App", always shows the image and leaves the state alone. */
  lemma TestPopupSpec(s: FocusState, now: int)
    ensures var r := TestPopupStep(s, now);
      r.alert.Some? &&
      (s.variant == Tsx ==>
         r.state.showingAlert && r.state.currentAlertApp == "Test Application" &&
         r.alert.value.notificationId == AlertId("Test Application", now)) &&
      (s.variant == Jsx ==>
         r.state == s && r.alert.value.mediaType == "image" &&
         r.alert.value.appName == (if s.currentActiveApp != "" then s.currentActiveApp else "Test App") &&
         r.alert.value.body == (if s.customText != "" then ReplaceFirst(s.customText, "{app}", r.alert.value.appName)
                                else TestFallbackText))
  {
    if s.variant == Tsx {
      TestApplicationNotEssential();
    } else {
      var app := if s.currentActiveApp != "" then s.currentActiveApp else "Test App";
      if s.customText == "" {
        TestFallbackHasNoPlaceholder();
        ReplaceFirstAbsent(TestFallbackText, "{app}", app);
      }
    }
  }

  lemma TestApplicationNotEssential()
    ensures !OverlapsEssential("Test Application")
  {
    var n := "test application";
    assert Lower("Test Application") == n;
    forall d | d in EssentialApps
      ensures !EitherContains(n, Lower(d))
    {
      if d == "Mindful Desktop Companion" {
        TestApplicationNotInCompanion();
      } else if d == "chrome-devtools" {
        assert Lower(d) == d;
        NotContainsChar(n, d, 2);
      } else {
        assert Lower(d) == "electron";
        NotContainsChar(n, "electron", 5);
      }
    }
  }

  lemma TestApplicationNotInCompanion()
    ensures !EitherContains("test application", Lower("Mindful Desktop Companion"))
  {
    var c := "mindful desktop companion";
    assert Lower("Mindful Desktop Companion") == c;
    NotContainsChar("test application", c, 0);
    NotContainsPair(c, "test application", 0);
  }

  lemma TestFallbackHasNoPlaceholder()
    ensures !Contains(TestFallbackText, "{app}")
  {
    var a, b := "You're outside your focus zone. ", "This app is not in your whitelist.";
    NoBrace(a);
    NoBrace(b);
    NotContainsChar(TestFallbackText, "{app}", 0);
  }

  lemma NoBrace(x: string)
    requires x == "You're outside your focus zone. " || x == "This app is not in your whitelist."
    ensures '{' !in x
  {
    assert forall k :: 0 <= k < |x| ==> x[k] != '{';
  }

  lemma AlertStepSpec(s: FocusState, appName: string, now: int)
    ensures var r := AlertStep(s, appName, now);
      (r.alert.None? <==> OverlapsEssential(appName)) &&
      (appName == "" ==> r.alert.None?) &&
      (r.alert.None? ==> r.state == s) &&
      (r.alert.Some? ==>
         r.state.showingAlert && r.state.currentAlertApp == appName &&
         GetOr(r.state.notificationTimestamps, appName, 0) == now &&
         r.state.whitelist == s.whitelist && r.state.isFocusMode == s.isFocusMode &&
         r.alert.value.appName == appName &&
         r.alert.value.notificationId == AlertId(appName, now) &&
         r.alert.value.dimScreen == s.dimInsteadOfBlock &&
         (r.alert.value.mediaType == "image" <==> s.customImage != ""))
  {
    EmptyOverlapsEssential();
  }

  /** With no custom text the body is the default sentence with the application's name in
      place of the `{app}` placeholder. */
  lemma DefaultAlertBody(s: FocusState, appName: string, now: int)
    requires s.customText == "" && '$' !in appName && !OverlapsEssential(appName)
    ensures AlertStep(s, appName, now).alert.Some?
    ensures AlertStep(s, appName, now).alert.value.body
      == "You're outside your focus zone. " + appName + " is not in your whitelist."
  {
    DefaultBodyText(appName);
  }

  lemma DefaultBodyText(appName: string)
    requires '$' !in appName
    ensures ReplaceFirst(DefaultAlertText, "{app}", appName)
      == "You're outside your focus zone. " + appName + " is not in your whitelist."
  {
    var pre := "You're outside your focus zone. ";
    var post := " is not in your whitelist.";
    assert DefaultAlertText == pre + "{app}" + post;
    NoBrace(pre);
    ReplaceFirstAfter(pre, "{app}", post, appName);
  }

  /** An alert is dismissed by any detail that contains its application's name, so in
      particular by its own notification id. */
  lemma DismissOwnAlert(s: FocusState, appName: string, now: int)
    requires AlertStep(s, appName, now).alert.Some?
    ensures var r := AlertStep(s, appName, now);
      r.state.showingAlert && !DismissedStep(r.state, r.alert.value.notificationId).showingAlert
  {
    AlertStepSpec(s, appName, now);
    ContainsSelf(appName);
    ContainsInfix("focus-mode-", appName, "-" + IntToString(now), appName);
    assert AlertId(appName, now) == "focus-mode-" + appName + ("-" + IntToString(now));
  }

  /** The dismissal listener clears the alert exactly when the detail mentions the current
      alert's (non-empty) application, and records the detail in every case. */
  lemma DismissedStepSpec(s: FocusState, detail: string)
    ensures var r := DismissedStep(s, detail);
      (r.showingAlert <==> s.showingAlert && !(s.currentAlertApp != "" && Contains(detail, s.currentAlertApp))) &&
      r.lastNotificationDismissed == detail &&
      r.currentAlertApp == s.currentAlertApp && r.whitelist == s.whitelist
  {
  }

  // ---------------------------------------------------------------------------
  // Block transitions

  /** A name that the merged list refuses never overlaps an essential entry: on this path the
      handler's own skip never fires. */
  lemma RefusedNotEssential(v: Variant, name: string, whitelist: seq<string>, owner: Option<Owner>)
    requires name != "" && !IsAppInWhitelist(v, name, MergeEssentials(whitelist), owner)
    ensures !OverlapsEssential(name)
  {
    if OverlapsEssential(name) {
      var d :| d in EssentialApps && EitherContains(Lower(name), Lower(d));
      OverlapAllows(v, name, MergeEssentials(whitelist), owner, d);
    }
  }

  /** The effect alerts exactly on a switch from an allowed application to a refused, named
      one whose last alert is more than the cooldown old. */
  lemma BlockTransitionAlertsExactlyWhen(s: FocusState, now: int)
    ensures var name := CurrentAppName(s);
      BlockTransitionStep(s, now).alert.Some? <==>
        s.isFocusMode && s.lastActiveWindow != "" && s.wasInWhitelistedApp && name != "" &&
        !IsAppInWhitelist(s.variant, name, MergeEssentials(s.whitelist), ActiveOwner(s)) &&
        now - GetOr(s.notificationTimestamps, name, 0) > NotificationCooldown
  {
    var name := CurrentAppName(s);
    if s.isFocusMode && s.lastActiveWindow != "" && name != ""
       && !IsAppInWhitelist(s.variant, name, MergeEssentials(s.whitelist), ActiveOwner(s)) {
      RefusedNotEssential(s.variant, name, s.whitelist, ActiveOwner(s));
    }
  }

  /** What an alerting transition leaves behind: the alert names the current application, is
      showing, is stamped with the time, and the application is no longer remembered as allowed. */
  lemma BlockTransitionAlertState(s: FocusState, now: int)
    requires BlockTransitionStep(s, now).alert.Some?
    ensures var r := BlockTransitionStep(s, now);
      r.alert.value.appName == CurrentAppName(s) &&
      r.state.showingAlert && r.state.currentAlertApp == CurrentAppName(s) &&
      GetOr(r.state.notificationTimestamps, CurrentAppName(s), 0) == now &&
      !r.state.wasInWhitelistedApp && r.state.whitelist == s.whitelist
  {
    AlertStepSpec(s, CurrentAppName(s), now);
  }

  /** Without an alert only the remembered verdict changes. */
  lemma BlockTransitionQuietState(s: FocusState, now: int)
    requires BlockTransitionStep(s, now).alert.None?
    ensures var r := BlockTransitionStep(s, now);
      r.state.(wasInWhitelistedApp := s.wasInWhitelistedApp) == s
  {
    BlockTransitionAlertsExactlyWhen(s, now);
  }

  /** Staying in the refused application does not repeat the alert: the next run of the effect
      sees that the previous application was not allowed. */
  lemma BlockTransitionNoRepeat(s: FocusState, now: int, later: int)
    requires BlockTransitionStep(s, now).alert.Some?
    ensures BlockTransitionStep(BlockTransitionStep(s, now).state, later).alert.None?
  {
    BlockTransitionAlertState(s, now);
  }

  /** Within the cooldown the same application does not get a second alert, whatever else
      happened in between, as long as its time stamp is kept. */
  lemma CooldownSuppresses(s: FocusState, t: FocusState, now: int, later: int)
    requires BlockTransitionStep(s, now).alert.Some?
    requires later - now <= NotificationCooldown
    requires CurrentAppName(t) == CurrentAppName(s)
    requires t.notificationTimestamps == BlockTransitionStep(s, now).state.notificationTimestamps
    ensures BlockTransitionStep(t, later).alert.None?
  {
    BlockTransitionAlertState(s, now);
    BlockTransitionAlertsExactlyWhen(t, later);
  }

  // ---------------------------------------------------------------------------
  // Toggling, user changes, loading

  /** Toggling always flips the flag, forgets the time stamps and keeps the list; turning the
      mode off (when not throttled) hides the alert. */
  lemma ToggleStepSpec(s: FocusState, now: int)
    ensures var r := ToggleStep(s, now);
      var throttled := s.variant == Jsx && now - s.lastFocusModeToastTime < FocusModeToastDelay;
      r.state.isFocusMode == !s.isFocusMode &&
      r.state.notificationTimestamps == map[] &&
      r.state.whitelist == s.whitelist &&
      (throttled ==> r.pendingAlert.None? && !r.state.wasInWhitelistedApp &&
                     r.state.lastFocusModeToastTime == s.lastFocusModeToastTime) &&
      (s.variant == Jsx && !throttled ==> r.state.lastFocusModeToastTime == now) &&
      (s.isFocusMode && !throttled ==> !r.state.showingAlert && r.state.currentAlertApp == "")
  {
  }

  /** Turning the mode on schedules an alert exactly for a refused, named application in the
      last window, and that alert is one the handler will show. */
  lemma TogglePendingAlert(s: FocusState, now: int)
    ensures var r := ToggleStep(s, now);
      var throttled := s.variant == Jsx && now - s.lastFocusModeToastTime < FocusModeToastDelay;
      var name := ExtractAppName(s.lastActiveWindow);
      (r.pendingAlert.Some? <==>
         !s.isFocusMode && !throttled && s.lastActiveWindow != "" && name != "" &&
         !IsAppInWhitelist(s.variant, name, MergeEssentials(s.whitelist), ActiveOwner(s))) &&
      (r.pendingAlert.Some? ==>
         r.pendingAlert.value == name && !r.state.wasInWhitelistedApp &&
         AlertStep(r.state, name, now).alert.Some?)
  {
    var name := ExtractAppName(s.lastActiveWindow);
    var r := ToggleStep(s, now);
    if r.pendingAlert.Some? {
      RefusedNotEssential(s.variant, name, s.whitelist, ActiveOwner(s));
    }
  }

  /** In the TypeScript copy a new user turns the mode off; the same user, or the JavaScript
      copy, changes nothing. */
  lemma UserChangedStepSpec(s: FocusState, userId: string)
    ensures var r := UserChangedStep(s, userId);
      (s.variant == Tsx && userId != s.currentUserId ==>
         !r.isFocusMode && r.currentUserId == userId && r.notificationTimestamps == map[] &&
         r.whitelist == s.whitelist) &&
      (s.variant == Jsx || userId == s.currentUserId ==> r == s)
  {
  }

  /** After loading, the list holds every stored entry and every essential one, once; the
      text and image are never empty; the flag follows the stored value. */
  lemma LoadStepSpec(s: FocusState, stored: StoredPreferences)
    ensures var r := LoadStep(s, stored);
      NoDup(r.whitelist) &&
      (forall d :: d in EssentialApps ==> d in r.whitelist) &&
      (stored.whitelist.ParsedList? ==> forall x :: x in stored.whitelist.apps ==> x in r.whitelist) &&
      (forall x :: x in r.whitelist ==>
         (x in EssentialApps || (stored.whitelist.ParsedList? && x in stored.whitelist.apps))) &&
      r.customText != "" && r.customImage != "" &&
      (s.variant == Tsx ==> (r.isFocusMode <==> stored.focusMode == "true")) &&
      (s.variant == Jsx ==> (r.isFocusMode <==> stored.focusMode == "true" || s.isFocusMode))
  {
    EssentialAppsNoDup();
  }

  // ---------------------------------------------------------------------------
  // The list

  /** Adding puts the entry in the list when it is accepted (non-empty; non-blank in the
      JavaScript copy) and changes the membership in no other way. */
  lemma AddStepMembers(s: FocusState, app: string)
    ensures var r := AddStep(s, app);
      var accepted := if s.variant == Tsx then app != "" else Trim(app) != "";
      forall x :: x in r.whitelist <==> x in s.whitelist || (x == app && accepted)
  {
    if s.variant == Tsx {
      AddStepFieldsTsx(s, app);
    } else {
      AddStepListJsx(s, app);
    }
  }

  /** Adding the same entry twice is adding it once. */
  lemma AddStepIdempotent(s: FocusState, app: string)
    ensures AddStep(AddStep(s, app), app) == AddStep(s, app)
  {
    AddStepMembers(s, app);
  }

  /** In the JavaScript copy, adding the application of the current alert hides it and restarts
      its cooldown, and adding the current application marks it allowed. */
  lemma JsxAddClearsAlert(s: FocusState, app: string)
    requires s.variant == Jsx && app !in s.whitelist && Trim(app) != ""
    ensures var r := AddStep(s, app);
      (s.currentAlertApp == app ==>
         !r.showingAlert && r.currentAlertApp == "" && GetOr(r.notificationTimestamps, app, 0) == 0) &&
      (s.currentActiveApp == app ==> r.isCurrentAppWhitelisted) &&
      (s.lastActiveWindow != "" && ExtractAppName(s.lastActiveWindow) == app ==> r.wasInWhitelistedApp)
  {
    var t := s.(whitelist := s.whitelist + [app]);
    ForgetAlertFields(t, app);
    MarkAllowedFields(ForgetAlertStep(t, app), app);
  }

  /** Removal takes every copy of the entry out and nothing else, unless the JavaScript copy
      refuses it because it overlaps an essential entry, in which case nothing changes. */
  lemma RemoveStepSpec(s: FocusState, app: string)
    ensures var r := RemoveStep(s, app);
      (r.refused <==> s.variant == Jsx && RemovalRefused(app)) &&
      (r.refused ==> r.state == s) &&
      (!r.refused ==> forall x :: x in r.state.whitelist <==> x in s.whitelist && x != app) &&
      (r.pendingAlert.Some? ==>
         s.variant == Jsx && s.isFocusMode && r.pendingAlert.value == app &&
         !r.state.wasInWhitelistedApp && !r.state.isCurrentAppWhitelisted)
  {
  }

  /** Removing an entry just added gives back the list. */
  lemma AddThenRemove(s: FocusState, app: string)
    requires app !in s.whitelist
    requires s.variant == Jsx ==> !RemovalRefused(app)
    ensures RemoveStep(AddStep(s, app), app).state.whitelist == s.whitelist
  {
    AddStepFields(s, app);
    var t := AddStep(s, app);
    if t.whitelist == s.whitelist {
      RemoveAllAbsent(s.whitelist, app);
    } else {
      RemoveAllAppended(s.whitelist, app);
    }
  }

  /** The save effect puts back every essential entry and keeps every other one, on a list
      without duplicates (the comparison is by length only). */
  lemma SaveRestoresEssentials(s: FocusState)
    requires NoDup(s.whitelist)
    ensures forall d :: d in EssentialApps ==> d in SaveStep(s).whitelist
    ensures forall x :: x in SaveStep(s).whitelist <==> x in s.whitelist || x in EssentialApps
  {
    var m := MergeEssentials(s.whitelist);
    if |m| == |s.whitelist| {
      forall d | d in EssentialApps
        ensures d in s.whitelist
      {
        if d !in s.whitelist {
          NoDupLonger(s.whitelist, m, d);
        }
      }
    }
  }

  /** Saving twice is saving once. */
  lemma SaveStepIdempotent(s: FocusState)
    requires NoDup(s.whitelist)
    ensures SaveStep(SaveStep(s)) == SaveStep(s)
  {
    SaveRestoresEssentials(s);
    var t := SaveStep(s);
    NoDupSameMembers(MergeEssentials(t.whitelist), t.whitelist);
  }

  /** The JavaScript copy refuses to remove "chrome" (part of "chrome-devtools") and
      "electron" in any case, and removes "Zoom". */
  lemma JsxRemovalExamples()
    ensures RemovalRefused("chrome") && RemovalRefused("ELECTRON") && !RemovalRefused("Zoom")
  {
    RemovalRefusesChrome();
    RemovalRefusesElectron();
    RemovalAllowsZoom();
  }

  lemma RemovalRefusesChrome()
    ensures RemovalRefused("chrome")
  {
    var d := "chrome-devtools";
    assert d in EssentialApps;
    assert Lower(d) == d;
    assert Lower("chrome") == "chrome";
    assert OccursAt(d, "chrome", 0);
  }

  lemma RemovalRefusesElectron()
    ensures RemovalRefused("ELECTRON")
  {
    var d := "electron";
    assert d in EssentialApps;
    assert Lower(d) == d;
    assert Lower("ELECTRON") == d;
  }

  lemma RemovalAllowsZoom()
    ensures !RemovalRefused("Zoom")
  {
    var z := Lower("Zoom");
    assert z == "zoom";
    forall d | d in EssentialApps
      ensures !(Lower(d) == z || Contains(z, Lower(d)) || Contains(Lower(d), z))
    {
      ZoomApart(d);
    }
  }

  lemma ZoomApart(d: string)
    requires |d| > 4 && 'z' !in d && 'Z' !in d
    ensures Lower(d) != "zoom" && !Contains(Lower(d), "zoom") && !Contains("zoom", Lower(d))
  {
    LowerAvoids(d, 'z');
    NotContainsChar(Lower(d), "zoom", 0);
  }

  // ---------------------------------------------------------------------------
  // Window changes

  /** A window without an owner name or application name is named after its title, and the
      name is part of the title. */
  lemma WindowAppNameInTitle(w: WindowInfo)
    requires w.Described? ==> (w.owner.None? || w.owner.value.name == "") && w.appName == ""
    ensures Contains(w.title, WindowAppName(w))
  {
    ExtractAppNameInTitle(w.title);
  }

  /** The window listener records the window and its name; a window that mentions the companion
      app is always marked allowed, and a window without a name never is. */
  lemma WindowChangedStepSpec(s: FocusState, w: WindowInfo)
    ensures var r := WindowChangedStep(s, w);
      r.currentActiveApp == WindowAppName(w) && r.lastActiveWindow == w.title &&
      r.activeWindow == Some(w) && r.whitelist == s.whitelist &&
      (WindowAppName(w) == "" ==> !r.isCurrentAppWhitelisted) &&
      (MentionsSelf(Normalize(WindowAppName(w))) ==> r.isCurrentAppWhitelisted)
  {
    if MentionsSelf(Normalize(WindowAppName(w))) {
      SelfAppAlwaysAllowed(s.variant, WindowAppName(w), s.whitelist, ActiveOwner(s));
    }
  }

  // ---------------------------------------------------------------------------
  // The poll

  /** Without the mode or a window the poll does nothing. With both, it shows the current
      application and its verdict against the merged list (or against its executable name),
      hides the alert exactly when the merged list allows the alert's application, and
      touches nothing else. */
  lemma PollStepSpec(s: FocusState)
    ensures !s.isFocusMode || s.lastActiveWindow == "" ==> PollStep(s) == s
    ensures s.isFocusMode && s.lastActiveWindow != "" ==>
      var r := PollStep(s);
      var merged := MergeEssentials(s.whitelist);
      r.currentActiveApp == CurrentAppName(s) &&
      (r.isCurrentAppWhitelisted <==>
         (IsAppInWhitelist(s.variant, CurrentAppName(s), merged, ActiveOwner(s)) ||
          (PolledExeName(s) != "" && IsAppInWhitelist(s.variant, PolledExeName(s), merged, ActiveOwner(s))))) &&
      (r.showingAlert <==>
         (s.showingAlert && !(s.currentAlertApp != "" && IsAppInWhitelist(s.variant, s.currentAlertApp, merged, ActiveOwner(s))))) &&
      r.(currentActiveApp := s.currentActiveApp, isCurrentAppWhitelisted := s.isCurrentAppWhitelisted,
         showingAlert := s.showingAlert) == s
  {
  }

  /** An alert for an application on the list is hidden by the next poll. */
  lemma PollClearsAllowedAlert(s: FocusState)
    requires s.isFocusMode && s.lastActiveWindow != ""
    requires s.currentAlertApp != "" && s.currentAlertApp in s.whitelist
    ensures !PollStep(s).showingAlert
  {
    var app := s.currentAlertApp;
    ContainsSelf(Normalize(app));
    IncludedEntryAllows(s.variant, app, MergeEssentials(s.whitelist), ActiveOwner(s), app);
  }

  /** Adding the application an alert is showing for: the TypeScript copy leaves the alert up
      until the next poll, which hides it; the JavaScript copy hides it at once when the entry
      is new. */
  lemma AddThenPollClearsAlert(s: FocusState, app: string)
    requires s.isFocusMode && s.lastActiveWindow != ""
    requires app == s.currentAlertApp && app != "" && (s.variant == Jsx ==> Trim(app) != "")
    ensures s.variant == Tsx ==> AddStep(s, app).showingAlert == s.showingAlert
    ensures s.variant == Jsx && app !in s.whitelist ==> !AddStep(s, app).showingAlert
    ensures !PollStep(AddStep(s, app)).showingAlert
  {
    var r := AddStep(s, app);
    AddStepMembers(s, app);
    if s.variant == Tsx {
      AddStepFieldsTsx(s, app);
      PollClearsAllowedAlert(r);
    } else if app !in s.whitelist {
      JsxAddClearsAlert(s, app);
    } else {
      PollClearsAllowedAlert(r);
    }
  }
}
