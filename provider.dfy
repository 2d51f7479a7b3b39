/** The focus-mode provider as an object: the fields its state hooks and refs hold, and one
    method per handler or effect. Every method is specified by the matching step function on
    `State()`, whose properties are proved in `FocusSession`, and keeps `Valid()`. */
module FocusProvider {
  import opened JsStrings
  import opened AppMatcher
  import opened FocusSession

  class FocusModeProvider {
    const variant: Variant
    var currentUserId: string
    var isFocusMode: bool
    var whitelist: seq<string>
    var dimInsteadOfBlock: bool
    var lastActiveWindow: string
    var activeWindow: Option<WindowInfo>
    var currentActiveApp: string
    var isCurrentAppWhitelisted: bool
    var showingAlert: bool
    var currentAlertApp: string
    var wasInWhitelistedApp: bool
    var customText: string
    var customImage: string
    /** `appNotificationTimestamps.current` */
    var notificationTimestamps: map<string, int>
    var lastFocusModeToastTime: int
    var lastNotificationDismissed: string

    /** The fields as a value. */
    function State(): FocusState
      reads this
    {
      FocusState(variant, currentUserId, isFocusMode, whitelist, dimInsteadOfBlock,
                 lastActiveWindow, activeWindow, currentActiveApp, isCurrentAppWhitelisted,
                 showingAlert, currentAlertApp, wasInWhitelistedApp, customText, customImage,
                 notificationTimestamps, lastFocusModeToastTime, lastNotificationDismissed)
    }

    predicate Valid()
      reads this
    {
      Invariant(State())
    }

    constructor(v: Variant)
      ensures State() == InitialState(v)
      ensures Valid()
    {
      variant := v;
      currentUserId := "";
      isFocusMode := false;
      whitelist := [];
      dimInsteadOfBlock := true;
      lastActiveWindow := "";
      activeWindow := None;
      currentActiveApp := "";
      isCurrentAppWhitelisted := false;
      showingAlert := false;
      currentAlertApp := "";
      wasInWhitelistedApp := false;
      customText := "";
      customImage := "";
      notificationTimestamps := map[];
      lastFocusModeToastTime := 0;
      lastNotificationDismissed := "";
      new;
      InitialInvariant(v);
    }

    /** `handleNonWhitelistedApp(appName)` */
    method HandleNonWhitelistedApp(appName: string, now: int) returns (alert: Option<AlertRequest>)
      requires Valid()
      modifies this
      ensures State() == AlertStep(old(State()), appName, now).state
      ensures alert == AlertStep(old(State()), appName, now).alert
      ensures Valid()
    {
      ghost var s0 := State();
      if OverlapsEssential(appName) {
        alert := None;
      } else {
        alert := Some(AlertFor(State(), appName, now));
        currentAlertApp := appName;
        showingAlert := true;
        notificationTimestamps := notificationTimestamps[appName := now];
      }
      AlertStepKeepsInvariant(s0, appName, now);
    }

    /** The block-transition effect. */
    method CheckTransition(now: int) returns (alert: Option<AlertRequest>)
      requires Valid()
      modifies this
      ensures State() == BlockTransitionStep(old(State()), now).state
      ensures alert == BlockTransitionStep(old(State()), now).alert
      ensures Valid()
    {
      var s := State();
      alert := None;
      if !s.isFocusMode || s.lastActiveWindow == "" {
        return;
      }
      var name := CurrentAppName(s);
      var allowed := IsAppInWhitelist(s.variant, name, MergeEssentials(s.whitelist), ActiveOwner(s));
      alert := AlertOnLeaving(name, allowed, now);
    }

    /** The effect's second half, once the current application and its verdict are known. */
    method AlertOnLeaving(name: string, allowed: bool, now: int) returns (alert: Option<AlertRequest>)
      requires Valid()
      modifies this
      ensures State() == LeavingStep(old(State()), name, allowed, now).state
      ensures alert == LeavingStep(old(State()), name, allowed, now).alert
      ensures Valid()
    {
      var s := State();
      alert := None;
      if s.wasInWhitelistedApp && !allowed && name != ""
         && now - GetOr(s.notificationTimestamps, name, 0) > NotificationCooldown {
        alert := HandleNonWhitelistedApp(name, now);
        notificationTimestamps := notificationTimestamps[name := now];
      }
      wasInWhitelistedApp := allowed;
      LeavingStepKeepsInvariant(s, name, allowed, now);
    }

    /** The `active-window-changed` listener. */
    method OnActiveWindowChanged(w: WindowInfo)
      requires Valid()
      modifies this
      ensures State() == WindowChangedStep(old(State()), w)
      ensures Valid()
    {
      var s := State();
      var name := WindowAppName(w);
      ShowWindowFields(w, name, IsAppInWhitelist(s.variant, name, s.whitelist, ActiveOwner(s)));
    }

    /** The listener's setters. */
    method ShowWindowFields(w: WindowInfo, name: string, allowed: bool)
      requires Valid()
      modifies this
      ensures State() == ShowWindow(old(State()), w, name, allowed)
      ensures Valid()
    {
      ghost var s0 := State();
      isCurrentAppWhitelisted := allowed;
      activeWindow := Some(w);
      currentActiveApp := name;
      lastActiveWindow := w.title;
      ShowWindowKeepsInvariant(s0, w, name, allowed);
    }

    /** The `notification-dismissed` listener. */
    method OnNotificationDismissed(detail: string)
      requires Valid()
      modifies this
      ensures State() == DismissedStep(old(State()), detail)
      ensures Valid()
    {
      ghost var s0 := State();
      lastNotificationDismissed := detail;
      if currentAlertApp != "" && Contains(detail, currentAlertApp) {
        showingAlert := false;
      }
      DismissedStepKeepsInvariant(s0, detail);
    }

    /** `toggleFocusMode()`; the result is the application to alert about a little later. */
    method ToggleFocusMode(now: int) returns (pendingAlert: Option<string>)
      requires Valid()
      modifies this
      ensures State() == ToggleStep(old(State()), now).state
      ensures pendingAlert == ToggleStep(old(State()), now).pendingAlert
      ensures Valid()
    {
      var s := State();
      ResetForToggleFields();
      pendingAlert := None;
      if Throttled(s, now) {
        return;
      }
      if s.variant == Jsx {
        lastFocusModeToastTime := now;
      }
      if !s.isFocusMode {
        pendingAlert := CheckOnEnable();
      } else {
        HideAlert();
      }
    }

    /** What every toggle does first. */
    method ResetForToggleFields()
      requires Valid()
      modifies this
      ensures State() == ResetForToggle(old(State()))
      ensures Valid()
    {
      isFocusMode := !isFocusMode;
      wasInWhitelistedApp := false;
      notificationTimestamps := map[];
    }

    /** Turning the mode off hides the alert. */
    method HideAlert()
      requires Valid()
      modifies this
      ensures State() == old(State()).(showingAlert := false, currentAlertApp := "")
      ensures Valid()
    {
      showingAlert := false;
      currentAlertApp := "";
    }

    /** The check `toggleFocusMode()` makes when it turns the mode on. */
    method CheckOnEnable() returns (pendingAlert: Option<string>)
      requires Valid()
      modifies this
      ensures State() == EnableCheckStep(old(State())).state
      ensures pendingAlert == EnableCheckStep(old(State())).pendingAlert
      ensures Valid()
    {
      var t := State();
      pendingAlert := None;
      if t.lastActiveWindow != "" {
        var name := ExtractAppName(t.lastActiveWindow);
        var allowed := IsAppInWhitelist(t.variant, name, MergeEssentials(t.whitelist), ActiveOwner(t));
        wasInWhitelistedApp := allowed;
        if !allowed && name != "" {
          pendingAlert := Some(name);
        }
      }
    }

    /** `addToWhitelist(app)` */
    method AddToWhitelist(app: string)
      requires Valid()
      modifies this
      ensures State() == AddStep(old(State()), app)
      ensures Valid()
    {
      var s := State();
      AddStepKeepsInvariant(s, app);
      if s.variant == Tsx {
        if app != "" && app !in s.whitelist {
          whitelist := s.whitelist + [app];
        }
      } else if app !in s.whitelist && Trim(app) != "" {
        whitelist := s.whitelist + [app];
        ForgetAlert(app);
        MarkAllowed(app);
      }
    }

    /** The JavaScript copy's `addToWhitelist(app)`: hide the alert for `app` and drop its
        cooldown. */
    method ForgetAlert(app: string)
      modifies this
      ensures State() == ForgetAlertStep(old(State()), app)
    {
      if currentAlertApp == app {
        showingAlert := false;
        currentAlertApp := "";
        var ts := notificationTimestamps;
        if app in ts && ts[app] != 0 {
          notificationTimestamps := ts - {app};
        }
      }
    }

    /** The JavaScript copy's `addToWhitelist(app)`: mark the current application allowed. */
    method MarkAllowed(app: string)
      modifies this
      ensures State() == MarkAllowedStep(old(State()), app)
    {
      var s := State();
      if s.lastActiveWindow != "" && ExtractAppName(s.lastActiveWindow) == app {
        wasInWhitelistedApp := true;
      }
      if s.currentActiveApp == app {
        isCurrentAppWhitelisted := true;
      }
    }

    /** `removeFromWhitelist(app)`; `refused` is the JavaScript copy's error toast. */
    method RemoveFromWhitelist(app: string) returns (refused: bool, pendingAlert: Option<string>)
      requires Valid()
      modifies this
      ensures State() == RemoveStep(old(State()), app).state
      ensures refused == RemoveStep(old(State()), app).refused
      ensures pendingAlert == RemoveStep(old(State()), app).pendingAlert
      ensures Valid()
    {
      var s := State();
      refused := false;
      pendingAlert := None;
      if s.variant == Jsx && RemovalRefused(app) {
        refused := true;
        return;
      }
      RemoveStepKeepsInvariant(s, app);
      whitelist := RemoveAll(s.whitelist, app);
      if s.variant == Jsx {
        pendingAlert := RevokeActive(app);
      }
    }

    /** The JavaScript copy's `removeFromWhitelist(app)`: revoke the last window's application
        when it is `app`. */
    method RevokeActive(app: string) returns (pendingAlert: Option<string>)
      modifies this
      ensures State() == RevokeActiveStep(old(State()), app).state
      ensures pendingAlert == RevokeActiveStep(old(State()), app).pendingAlert
    {
      var s := State();
      pendingAlert := None;
      if s.isFocusMode && s.lastActiveWindow != "" && ExtractAppName(s.lastActiveWindow) == app {
        wasInWhitelistedApp := false;
        isCurrentAppWhitelisted := false;
        pendingAlert := Some(app);
      }
    }

    /** The save effect; `stored` is what it writes to storage. */
    method SaveWhitelist() returns (stored: seq<string>)
      requires Valid()
      modifies this
      ensures State() == SaveStep(old(State()))
      ensures stored == MergeEssentials(old(whitelist))
      ensures Valid()
    {
      ghost var s0 := State();
      SaveStepKeepsInvariant(s0);
      stored := MergeEssentials(whitelist);
      if |stored| != |whitelist| {
        whitelist := stored;
      }
    }

    /** The effect that runs when the flag changes, with the check it makes at once. */
    method OnFocusModeChanged()
      requires Valid()
      modifies this
      ensures State() == PollStep(FocusModeEffectStep(old(State())))
      ensures Valid()
    {
      ghost var s0 := State();
      wasInWhitelistedApp := false;
      notificationTimestamps := map[];
      if !isFocusMode {
        showingAlert := false;
      }
      FocusModeEffectKeepsInvariant(s0);
      PollActiveWindow();
    }

    /** `checkActiveWindowAgainstWhitelist(lastActiveWindow)`, once a second while the mode is on. */
    method PollActiveWindow()
      requires Valid()
      modifies this
      ensures State() == PollStep(old(State()))
      ensures Valid()
    {
      var s := State();
      if isFocusMode && lastActiveWindow != "" {
        var alertAllowed := IsAppInWhitelist(variant, currentAlertApp, MergeEssentials(whitelist), ActiveOwner(s));
        PollFieldsSet(CurrentAppName(s), PolledVerdict(s), alertAllowed);
      }
    }

    /** The poll's setters. */
    method PollFieldsSet(name: string, allowed: bool, alertAllowed: bool)
      requires Valid()
      modifies this
      ensures State() == PollFields(old(State()), name, allowed, alertAllowed)
      ensures Valid()
    {
      ghost var s0 := State();
      if showingAlert && currentAlertApp != "" && alertAllowed {
        showingAlert := false;
      }
      currentActiveApp := name;
      isCurrentAppWhitelisted := allowed;
      PollFieldsKeepsInvariant(s0, name, allowed, alertAllowed);
    }

    /** The user-change effect. */
    method OnUserChanged(userId: string)
      requires Valid()
      modifies this
      ensures State() == UserChangedStep(old(State()), userId)
      ensures Valid()
    {
      ghost var s0 := State();
      if variant == Tsx && currentUserId != userId {
        isFocusMode := false;
        wasInWhitelistedApp := false;
        notificationTimestamps := map[];
        currentUserId := userId;
      }
      UserChangedKeepsInvariant(s0, userId);
    }

    /** The effect that loads the alert text and image. */
    method LoadAlertPreferences(stored: StoredPreferences)
      requires Valid()
      modifies this
      ensures State() == LoadAlertStep(old(State()), stored)
      ensures Valid()
    {
      var s := State();
      customText := OrDefault(stored.customText, DefaultAlertText);
      customImage := OrDefault(stored.customImage, DefaultImage);
      LoadStepKeepsInvariant(s, stored);
    }

    /** The effect that loads the list, the dim option and the flag. */
    method LoadSettings(stored: StoredPreferences)
      requires Valid()
      modifies this
      ensures State() == LoadSettingsStep(old(State()), stored)
      ensures Valid()
    {
      var s := State();
      whitelist := LoadedList(stored.whitelist);
      if stored.dimOption.ParsedFlag? {
        dimInsteadOfBlock := stored.dimOption.isTrue;
      }
      isFocusMode := LoadedFocusMode(s.variant, s.isFocusMode, stored.focusMode);
      LoadStepKeepsInvariant(s, stored);
    }

    /** `toggleDimOption()` */
    method ToggleDimOption()
      requires Valid()
      modifies this
      ensures State() == old(State()).(dimInsteadOfBlock := !old(dimInsteadOfBlock))
      ensures Valid()
    {
      dimInsteadOfBlock := !dimInsteadOfBlock;
    }

    /** `updateCustomText(text)` */
    method UpdateCustomText(text: string)
      requires Valid()
      modifies this
      ensures State() == old(State()).(customText := text)
      ensures Valid()
    {
      customText := text;
    }

    /** `updateCustomImage(url)`; the empty string stands for `null`. */
    method UpdateCustomImage(url: string)
      requires Valid()
      modifies this
      ensures State() == old(State()).(customImage := url)
      ensures Valid()
    {
      customImage := url;
    }
  }

  /** The settings page's "test" button. */
  method TestFocusModePopup(p: FocusModeProvider, now: int) returns (alert: Option<AlertRequest>)
    requires p.Valid()
    modifies p
    ensures p.State() == TestPopupStep(old(p.State()), now).state
    ensures alert == TestPopupStep(old(p.State()), now).alert
    ensures p.Valid()
  {
    if p.variant == Tsx {
      alert := p.HandleNonWhitelistedApp("Test Application", now);
    } else {
      alert := Some(TestAlertFor(p.State(), now));
    }
  }
}
