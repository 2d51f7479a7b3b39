# Mindful Desktop Companion: focus mode, alerts, timers and reminders in Dafny

This project models the core of the Mindful Desktop Companion, a desktop wellbeing app. The
model covers these parts:

- **The focus-mode allow-list matcher** (`extractAppName`, `isAppInWhitelist`). It decides
  whether the window in front belongs to an allowed application. It works by name inclusion,
  process and executable names, bundle ids and paths, tokens and browser families, in both
  the TypeScript and the JavaScript copy of the provider.
- **The focus-session state machine** (`FocusModeProvider`). It covers the window listener,
  the block-transition effect with its two-second cooldown, the once-a-second poll that
  refreshes the live preview and hides alerts for allowed applications, the alert handler, dismissal,
  toggling, adding and removing entries, saving with the essential applications merged back,
  the user-change and loading effects, and the test popup. Each step is a function on a
  `FocusState` value. A class with the provider's fields applies the steps in place. An
  invariant (no duplicate entries; an alert only for a named application) is proved to
  survive every step.
- **The alert popup** (`RichMediaPopup`). It covers the application-id key taken from a
  notification id, repeat suppression, the eight-second auto-close and both kinds of
  dismissal.
- **The timer engines** (`TimerContext`). These are the Pomodoro countdown and the
  eye-care work/rest cycle, each a class with tick, start, pause and reset. The provider
  adds the settings update and the per-user reset.
- **The hydration and posture reminder cards.** They count down a period, fire and restart,
  and render time as `M:SS`.
- **The UI helpers:**
  - the usage list's comparator, an insertion sort proved sorted and a permutation, the
    duration text and the Allowed/Blocked badge;
  - the Pomodoro card's clock text, settings popover and buttons;
  - the eye-care card's notices and countdown texts;
  - the settings form's bounds and its minute/second conversion;
  - the focus settings card's Add buttons and row highlight.

JavaScript details are written out explicitly:

- `%` truncates toward zero (`Reminders.JsRem`).
- `parseInt(...) * 60 || fallback` treats NaN and zero as falsy (`PomodoroView.MinutesInput`).
- `toLowerCase` is ASCII lower-casing.
- The regular expressions are hand-written scanners:
  - the lazy `^(.*?)(?:\s[-–—]\s|\s\|\s|\s:|\s\d|$)` of `extractAppName`, all five alternatives;
  - the `focus-mode-(.*?)-\d` of the popup;
  - the `[^\w\s.-]` filter.

React effects become explicit calls, made in the order the component runs them. Timers
(`setInterval`, `setTimeout`) become one method call per callback. The clock (`Date.now()`)
is a parameter.

Files:

| file | module | covers |
|---|---|---|
| strings.dfy | JsStrings | the string operations the code uses: lower-casing, `includes`, `trim`, `split`, `replace`, `padStart`, number rendering |
| matcher.dfy | AppMatcher | `extractAppName`, `isAppInWhitelist` (both copies) |
| session.dfy | FocusSession | the focus-mode state, its invariant and every step as a function |
| provider.dfy | FocusProvider | `FocusModeProvider` as a class whose methods follow the steps |
| popup.dfy | AlertPopup | `RichMediaPopup` |
| timers.dfy | Timers | the Pomodoro and eye-care engines and `TimerProvider` |
| reminders.dfy | Reminders | `HydrationCheck` and `PostureCheck` |
| usage.dfy | AppUsage | `AppUsageList` |
| pomodoro_view.dfy | PomodoroView | `PomodoroTimer` |
| eyecare_view.dfy | EyeCareView | `EyeCareReminder` |
| settings_panel.dfy | SettingsPanel | `SettingsPanel` |
| focus_settings.dfy | FocusSettingsForm | `FocusModeSettings` |

## Model

| member | source | states |
|---|---|---|
| JsStrings.TrimIdempotent | Desktop/attentionnPlss/mindful-desktop-companion-50/src/contexts/FocusModeContext.jsx:591 | trimming a trimmed name changes nothing, so the Add button's trimmed name passes the `app.trim() !== ''` guard unchanged |
| JsStrings.ReplaceFirstSpec | Desktop/attentionnPlss/mindful-desktop-companion-50/src/contexts/FocusModeContext.tsx:124 | `replace('{app}', name)` replaces the first occurrence of the placeholder and nothing else; text without it comes back unchanged |
| JsStrings.PaddedRoundTrip | Desktop/attentionnPlss/mindful-desktop-companion-50/src/components/health/HydrationCheck.tsx:89 | `padStart(2, '0')` of a number below 100 is two digits that read back as the number |
| JsStrings.DigitsRoundTrip | Desktop/attentionnPlss/mindful-desktop-companion-50/src/components/health/HydrationCheck.tsx:89 | the decimal rendering of a natural number is all digits and reads back as the number |
| AppMatcher.CaptureEnd | Desktop/attentionnPlss/mindful-desktop-companion-50/src/contexts/FocusModeContext.tsx:505 | the lazy scan stops at the unique end of the leading segment, or reports that the pattern's alternatives never match before a line terminator |
| AppMatcher.SegmentEndUnique | Desktop/attentionnPlss/mindful-desktop-companion-50/src/contexts/FocusModeContext.tsx:505 | the lazy group has at most one end |
| AppMatcher.ExtractAppName | Desktop/attentionnPlss/mindful-desktop-companion-50/src/contexts/FocusModeContext.tsx:501-507 | empty title gives the empty name; the name has no surrounding white space; it is the trimmed leading segment when that is non-blank and the trimmed title otherwise |
| AppMatcher.ExtractAppNameInTitle | Desktop/attentionnPlss/mindful-desktop-companion-50/src/contexts/FocusModeContext.tsx:501-507 | the extracted name is a piece of the title |
| AppMatcher.ExtractAppNameIdempotentOnSegment | Desktop/attentionnPlss/mindful-desktop-companion-50/src/contexts/FocusModeContext.tsx:505-506 | a name taken from a non-blank leading segment extracts to itself |
| AppMatcher.ExtractAppNameNotIdempotent | Desktop/attentionnPlss/mindful-desktop-companion-50/src/contexts/FocusModeContext.tsx:506 | extraction is not idempotent in general: " - 1" gives "- 1", which gives "-" |
| AppMatcher.ExtractAppNameExample | Desktop/attentionnPlss/mindful-desktop-companion-50/src/contexts/FocusModeContext.tsx:505 | a title with an em-dash separator is cut before it |
| AppMatcher.Normalize | Desktop/attentionnPlss/mindful-desktop-companion-50/src/contexts/FocusModeContext.tsx:514 | normalisation keeps only word characters, white space, dots and dashes, none upper-case, and never lengthens |
| AppMatcher.NormalizeIdempotent | Desktop/attentionnPlss/mindful-desktop-companion-50/src/contexts/FocusModeContext.tsx:531 | normalising twice is normalising once |
| AppMatcher.NormalizeLower | Desktop/attentionnPlss/mindful-desktop-companion-50/src/contexts/FocusModeContext.tsx:514 | normalisation ignores letter case |
| AppMatcher.ContainsNormalize | Desktop/attentionnPlss/mindful-desktop-companion-50/src/contexts/FocusModeContext.tsx:514 | inclusion of raw names survives normalisation |
| AppMatcher.ContainsLowerNormalize | Desktop/attentionnPlss/mindful-desktop-companion-50/src/contexts/FocusModeContext.tsx:514 | case-insensitive inclusion implies inclusion of the normalised forms |
| AppMatcher.ProcessName | Desktop/attentionnPlss/mindful-desktop-companion-50/src/contexts/FocusModeContext.tsx:517-518 | the process name is empty exactly when the name is empty or ends with a slash, and holds no slash |
| AppMatcher.ProcessNameOfNormalized | Desktop/attentionnPlss/mindful-desktop-companion-50/src/contexts/FocusModeContext.tsx:517-518 | on a normalised name the process name is the whole name |
| AppMatcher.StripExe | Desktop/attentionnPlss/mindful-desktop-companion-50/src/contexts/FocusModeContext.tsx:588 | removing a trailing `.exe` leaves a prefix of the executable name |
| AppMatcher.LongTokens | Desktop/attentionnPlss/mindful-desktop-companion-50/src/contexts/FocusModeContext.tsx:598-599 | the filter keeps exactly the tokens longer than two characters |
| AppMatcher.BrowserRuleUngated | Desktop/attentionnPlss/mindful-desktop-companion-50/src/contexts/FocusModeContext.tsx:615-627 | the browser gate adds nothing: the rule holds exactly when both mention one browser, or the Microsoft/Edge pair |
| AppMatcher.IsAppInWhitelist | Desktop/attentionnPlss/mindful-desktop-companion-50/src/contexts/FocusModeContext.tsx:510-511 | an empty name is never allowed |
| AppMatcher.SelfRuleOfNormalized | Desktop/attentionnPlss/mindful-desktop-companion-50/src/contexts/FocusModeContext.tsx:520-525 | the companion-app shortcut holds exactly for names whose normalised form mentions "electron" or "mindful" |
| AppMatcher.SelfRuleOnName | Desktop/attentionnPlss/mindful-desktop-companion-50/src/contexts/FocusModeContext.tsx:520-525 | the shortcut, applied to a name and its own process name, is the mention test |
| AppMatcher.EmptyListAllowsOnlySelf | Desktop/attentionnPlss/mindful-desktop-companion-50/src/contexts/FocusModeContext.tsx:510-529 | with an empty list exactly the non-empty companion-app names are allowed |
| AppMatcher.SelfAppAlwaysAllowed | Desktop/attentionnPlss/mindful-desktop-companion-50/src/contexts/FocusModeContext.tsx:520-525 | a companion-app name is allowed whatever the list and window |
| AppMatcher.IncludedEntryAllows | Desktop/attentionnPlss/mindful-desktop-companion-50/src/contexts/FocusModeContext.tsx:535-546 | an entry whose normalised form includes or is included in the name's allows it |
| AppMatcher.OverlapAllows | Desktop/attentionnPlss/mindful-desktop-companion-50/src/contexts/FocusModeContext.tsx:541-546 | an entry overlapping the name ignoring case allows it |
| AppMatcher.SymbolNameAllowedByAnyList | Desktop/attentionnPlss/mindful-desktop-companion-50/src/contexts/FocusModeContext.tsx:541-546 | a non-empty name made only of stripped characters is allowed by any non-empty list |
| AppMatcher.WhitelistMonotone | Desktop/attentionnPlss/mindful-desktop-companion-50/src/contexts/FocusModeContext.tsx:529 | adding entries never revokes a verdict |
| AppMatcher.NoRuleRefuses | Desktop/attentionnPlss/mindful-desktop-companion-50/src/contexts/FocusModeContext.tsx:529-635 | a name no rule allows for any entry, and that is not the companion app, is refused |
| AppMatcher.TokenRuleAllowsTsx | Desktop/attentionnPlss/mindful-desktop-companion-50/src/contexts/FocusModeContext.tsx:598-611 | two long tokens including one another allow the name in the TypeScript copy |
| AppMatcher.BrowserRuleAllowsTsx | Desktop/attentionnPlss/mindful-desktop-companion-50/src/contexts/FocusModeContext.tsx:615-628 | both mentioning the same browser allows the name in the TypeScript copy |
| AppMatcher.JsxBundleIdShadowsPath | Desktop/attentionnPlss/mindful-desktop-companion-50/src/contexts/FocusModeContext.jsx:451-462 | in the JavaScript copy a bundle id decides every entry the name rules leave open; the path is never consulted |
| AppMatcher.JsxTokenVerdict | Desktop/attentionnPlss/mindful-desktop-companion-50/src/contexts/FocusModeContext.jsx:485-490 | in the JavaScript copy any token overlapping the entry allows the name |
| AppMatcher.JsxEmptyTokenAllowsAll | Desktop/attentionnPlss/mindful-desktop-companion-50/src/contexts/FocusModeContext.jsx:485-490 | a JavaScript-copy name that starts or ends with a separator has an empty token and is allowed by any non-empty list |
| FocusSession.MergeEssentials | Desktop/attentionnPlss/mindful-desktop-companion-50/src/contexts/FocusModeContext.tsx:434 | the merged list has no duplicates, holds every entry and every essential entry, and nothing else |
| FocusSession.LoadedList | Desktop/attentionnPlss/mindful-desktop-companion-50/src/contexts/FocusModeContext.tsx:219-232 | the loaded list has no duplicates, holds the essential entries and every stored one, and nothing else |
| FocusSession.LoadedFocusMode | Desktop/attentionnPlss/mindful-desktop-companion-50/src/contexts/FocusModeContext.tsx:244-250 | the flag is on exactly when stored as "true" (TypeScript) or when stored so or already on (JavaScript, lines 150-153 of the .jsx copy) |
| FocusSession.InitialInvariant | Desktop/attentionnPlss/mindful-desktop-companion-50/src/contexts/FocusModeContext.tsx:48-69 | the initial state has no duplicate entries and no alert |
| FocusSession.AlertStepSpec | Desktop/attentionnPlss/mindful-desktop-companion-50/src/contexts/FocusModeContext.tsx:95-145 | the handler skips exactly names overlapping an essential entry (the empty one included); otherwise it shows the alert, stamps the time, builds the id, and sends the image only when one is set |
| FocusSession.AlertStepKeepsInvariant | Desktop/attentionnPlss/mindful-desktop-companion-50/src/contexts/FocusModeContext.tsx:95-145 | the handler keeps the provider invariant |
| FocusSession.EmptyOverlapsEssential | Desktop/attentionnPlss/mindful-desktop-companion-50/src/contexts/FocusModeContext.tsx:97-101 | the empty name overlaps every essential entry |
| FocusSession.DefaultAlertBody | Desktop/attentionnPlss/mindful-desktop-companion-50/src/contexts/FocusModeContext.tsx:112-125 | with no custom text the body is the default sentence with the name in place of `{app}` |
| FocusSession.DefaultBodyText | Desktop/attentionnPlss/mindful-desktop-companion-50/src/contexts/FocusModeContext.tsx:112 | the default sentence with the placeholder replaced reads as intended |
| FocusSession.DismissOwnAlert | Desktop/attentionnPlss/mindful-desktop-companion-50/src/contexts/FocusModeContext.tsx:291-299 | an alert is cleared by a dismissal carrying its own notification id |
| FocusSession.DismissedStepSpec | Desktop/attentionnPlss/mindful-desktop-companion-50/src/contexts/FocusModeContext.tsx:291-299 | the dismissal clears the alert exactly when the detail contains the non-empty alert application, and records the detail |
| FocusSession.DismissedStepKeepsInvariant | Desktop/attentionnPlss/mindful-desktop-companion-50/src/contexts/FocusModeContext.tsx:291-299 | the dismissal keeps the invariant |
| FocusSession.RefusedNotEssential | Desktop/attentionnPlss/mindful-desktop-companion-50/src/contexts/FocusModeContext.tsx:434-449 | a name refused by the merged list never overlaps an essential entry, so the handler's skip never fires on this path |
| FocusSession.BlockTransitionAlertsExactlyWhen | Desktop/attentionnPlss/mindful-desktop-companion-50/src/contexts/FocusModeContext.tsx:421-456 | the effect alerts exactly on leaving an allowed application for a refused, named one whose last alert is older than the two-second cooldown |
| FocusSession.BlockTransitionAlertState | Desktop/attentionnPlss/mindful-desktop-companion-50/src/contexts/FocusModeContext.tsx:440-455 | after an alert the current application is showing, stamped with the time and no longer remembered as allowed |
| FocusSession.BlockTransitionQuietState | Desktop/attentionnPlss/mindful-desktop-companion-50/src/contexts/FocusModeContext.tsx:421-456 | without an alert only the remembered verdict changes |
| FocusSession.BlockTransitionNoRepeat | Desktop/attentionnPlss/mindful-desktop-companion-50/src/contexts/FocusModeContext.tsx:440-455 | staying in the refused application raises no second alert |
| FocusSession.CooldownSuppresses | Desktop/attentionnPlss/mindful-desktop-companion-50/src/contexts/FocusModeContext.tsx:442-451 | within the cooldown the same application gets no second alert |
| FocusSession.BlockTransitionKeepsInvariant | Desktop/attentionnPlss/mindful-desktop-companion-50/src/contexts/FocusModeContext.tsx:421-456 | the effect keeps the invariant |
| FocusSession.LeavingStepKeepsInvariant | Desktop/attentionnPlss/mindful-desktop-companion-50/src/contexts/FocusModeContext.tsx:440-455 | the alerting half of the effect keeps the invariant |
| FocusSession.ToggleStepSpec | Desktop/attentionnPlss/mindful-desktop-companion-50/src/contexts/FocusModeContext.tsx:639-702 | a toggle flips the flag, forgets the cooldowns and keeps the list; the JavaScript copy (lines 495-588 of the .jsx) throttles within a second; turning off hides the alert |
| FocusSession.TogglePendingAlert | Desktop/attentionnPlss/mindful-desktop-companion-50/src/contexts/FocusModeContext.tsx:681-696 | turning on schedules an alert exactly for a refused, named application in the last window, and that alert is one the handler shows |
| FocusSession.ToggleStepKeepsInvariant | Desktop/attentionnPlss/mindful-desktop-companion-50/src/contexts/FocusModeContext.tsx:639-702 | a toggle keeps the invariant |
| FocusSession.UserChangedStepSpec | Desktop/attentionnPlss/mindful-desktop-companion-50/src/contexts/FocusModeContext.tsx:147-171 | a new user turns the mode off and forgets the cooldowns; the same user changes nothing |
| FocusSession.UserChangedKeepsInvariant | Desktop/attentionnPlss/mindful-desktop-companion-50/src/contexts/FocusModeContext.tsx:147-171 | the user-change effect keeps the invariant |
| FocusSession.LoadStepSpec | Desktop/attentionnPlss/mindful-desktop-companion-50/src/contexts/FocusModeContext.tsx:173-250 | loading yields a duplicate-free list with every stored and essential entry, non-empty alert text and image, and the flag as stored |
| FocusSession.LoadStepKeepsInvariant | Desktop/attentionnPlss/mindful-desktop-companion-50/src/contexts/FocusModeContext.tsx:173-250 | both loading effects keep the invariant |
| FocusSession.AddStepMembers | Desktop/attentionnPlss/mindful-desktop-companion-50/src/contexts/FocusModeContext.tsx:705-710 | adding puts the entry in when non-empty (non-blank in the JavaScript copy) and changes membership in no other way |
| FocusSession.AddStepIdempotent | Desktop/attentionnPlss/mindful-desktop-companion-50/src/contexts/FocusModeContext.tsx:705-710 | adding twice is adding once |
| FocusSession.AddStepKeepsInvariant | Desktop/attentionnPlss/mindful-desktop-companion-50/src/contexts/FocusModeContext.jsx:590-637 | adding keeps the invariant in both copies |
| FocusSession.AddStepListJsx | Desktop/attentionnPlss/mindful-desktop-companion-50/src/contexts/FocusModeContext.jsx:591-602 | the JavaScript copy appends exactly a new, non-blank entry |
| FocusSession.JsxAddClearsAlert | Desktop/attentionnPlss/mindful-desktop-companion-50/src/contexts/FocusModeContext.jsx:607-626 | adding the alert's application hides it and drops its time stamp; adding the current application marks it allowed |
| FocusSession.ForgetAlertFields | Desktop/attentionnPlss/mindful-desktop-companion-50/src/contexts/FocusModeContext.jsx:607-616 | forgetting the alert for an application clears it when it is the current one and otherwise changes nothing |
| FocusSession.MarkAllowedFields | Desktop/attentionnPlss/mindful-desktop-companion-50/src/contexts/FocusModeContext.jsx:619-626 | marking an application allowed touches only the two verdict flags |
| FocusSession.RemoveStepSpec | Desktop/attentionnPlss/mindful-desktop-companion-50/src/contexts/FocusModeContext.jsx:639-691 | removal takes out every copy of the entry and nothing else, unless the JavaScript guard refuses it; a JavaScript removal of the last window's application revokes it and schedules an alert |
| FocusSession.RemoveStepKeepsInvariant | Desktop/attentionnPlss/mindful-desktop-companion-50/src/contexts/FocusModeContext.tsx:712-715 | removal keeps the invariant |
| FocusSession.AddThenRemove | Desktop/attentionnPlss/mindful-desktop-companion-50/src/contexts/FocusModeContext.tsx:705-715 | removing an entry just added gives back the list |
| FocusSession.SaveRestoresEssentials | Desktop/attentionnPlss/mindful-desktop-companion-50/src/contexts/FocusModeContext.tsx:326-340 | the save effect puts back every essential entry and keeps every other one |
| FocusSession.SaveStepIdempotent | Desktop/attentionnPlss/mindful-desktop-companion-50/src/contexts/FocusModeContext.tsx:326-340 | saving twice is saving once |
| FocusSession.SaveStepKeepsInvariant | Desktop/attentionnPlss/mindful-desktop-companion-50/src/contexts/FocusModeContext.tsx:326-340 | the save effect keeps the invariant |
| FocusSession.FocusModeEffectKeepsInvariant | Desktop/attentionnPlss/mindful-desktop-companion-50/src/contexts/FocusModeContext.tsx:371-419 | the flag-change effect keeps the invariant |
| FocusSession.JsxRemovalExamples | Desktop/attentionnPlss/mindful-desktop-companion-50/src/contexts/FocusModeContext.jsx:641-648 | the JavaScript guard refuses "chrome" and "ELECTRON" and lets "Zoom" go |
| FocusSession.WindowAppNameInTitle | Desktop/attentionnPlss/mindful-desktop-companion-50/src/contexts/FocusModeContext.tsx:253-271 | without owner or application names the window's name is a piece of its title |
| FocusSession.WindowChangedStepSpec | Desktop/attentionnPlss/mindful-desktop-companion-50/src/contexts/FocusModeContext.tsx:253-288 | the listener records the window and its name; a companion-app window is always marked allowed, a nameless one never |
| FocusSession.ShowWindowKeepsInvariant | Desktop/attentionnPlss/mindful-desktop-companion-50/src/contexts/FocusModeContext.tsx:253-288 | the listener keeps the invariant |
| FocusSession.PollStepSpec | Desktop/attentionnPlss/mindful-desktop-companion-50/src/contexts/FocusModeContext.tsx:459-498 | with the mode on and a window, the poll shows the current application and its verdict against the merged list or its executable name, hides the alert exactly when the merged list allows the alert's application, and changes nothing else; otherwise it does nothing |
| FocusSession.PollStepKeepsInvariant | Desktop/attentionnPlss/mindful-desktop-companion-50/src/contexts/FocusModeContext.tsx:459-498 | the poll keeps the invariant |
| FocusSession.PollClearsAllowedAlert | Desktop/attentionnPlss/mindful-desktop-companion-50/src/contexts/FocusModeContext.tsx:492-496 | an alert for an application on the list is hidden by the next poll |
| FocusSession.AddThenPollClearsAlert | Desktop/attentionnPlss/mindful-desktop-companion-50/src/contexts/FocusModeContext.tsx:705-710 | adding the alerted application leaves the TypeScript alert up until the next poll hides it; the JavaScript copy (lines 607-616 of the .jsx) hides it at once |
| FocusSession.TestPopupSpec | Desktop/attentionnPlss/mindful-desktop-companion-50/src/contexts/FocusModeContext.tsx:734-736 | the test button always yields a request: a real alert for "Test Application" (TypeScript), or one for the current application or "Test App" that changes no state (JavaScript, lines 779-799 of the .jsx) |
| FocusSession.TestApplicationNotEssential | Desktop/attentionnPlss/mindful-desktop-companion-50/src/contexts/FocusModeContext.tsx:734-736 | "Test Application" overlaps no essential entry, so the TypeScript test alert is never skipped |
| FocusSession.TestFallbackHasNoPlaceholder | Desktop/attentionnPlss/mindful-desktop-companion-50/src/contexts/FocusModeContext.jsx:784 | the JavaScript test fallback text has no `{app}` placeholder |
| FocusProvider.FocusModeProvider.constructor | Desktop/attentionnPlss/mindful-desktop-companion-50/src/contexts/FocusModeContext.tsx:48-92 | a fresh provider is the initial state and valid |
| FocusProvider.FocusModeProvider.HandleNonWhitelistedApp | Desktop/attentionnPlss/mindful-desktop-companion-50/src/contexts/FocusModeContext.tsx:95-145 | the fields change as the handler step says; the invariant is kept |
| FocusProvider.FocusModeProvider.CheckTransition | Desktop/attentionnPlss/mindful-desktop-companion-50/src/contexts/FocusModeContext.tsx:421-456 | the fields change as the block-transition step says; the invariant is kept |
| FocusProvider.FocusModeProvider.AlertOnLeaving | Desktop/attentionnPlss/mindful-desktop-companion-50/src/contexts/FocusModeContext.tsx:440-455 | the alerting half of the effect on the fields |
| FocusProvider.FocusModeProvider.OnActiveWindowChanged | Desktop/attentionnPlss/mindful-desktop-companion-50/src/contexts/FocusModeContext.tsx:253-288 | the window listener on the fields |
| FocusProvider.FocusModeProvider.ShowWindowFields | Desktop/attentionnPlss/mindful-desktop-companion-50/src/contexts/FocusModeContext.tsx:264-287 | the listener's setters on the fields |
| FocusProvider.FocusModeProvider.OnNotificationDismissed | Desktop/attentionnPlss/mindful-desktop-companion-50/src/contexts/FocusModeContext.tsx:291-299 | the dismissal listener on the fields |
| FocusProvider.FocusModeProvider.ToggleFocusMode | Desktop/attentionnPlss/mindful-desktop-companion-50/src/contexts/FocusModeContext.tsx:639-702 | the toggle on the fields, returning the application to alert about |
| FocusProvider.FocusModeProvider.ResetForToggleFields | Desktop/attentionnPlss/mindful-desktop-companion-50/src/contexts/FocusModeContext.tsx:651-667 | every toggle flips the flag and forgets the cooldowns |
| FocusProvider.FocusModeProvider.HideAlert | Desktop/attentionnPlss/mindful-desktop-companion-50/src/contexts/FocusModeContext.tsx:697-701 | turning off hides the alert and nothing else |
| FocusProvider.FocusModeProvider.CheckOnEnable | Desktop/attentionnPlss/mindful-desktop-companion-50/src/contexts/FocusModeContext.tsx:681-696 | the check made on enabling, on the fields |
| FocusProvider.FocusModeProvider.AddToWhitelist | Desktop/attentionnPlss/mindful-desktop-companion-50/src/contexts/FocusModeContext.tsx:705-710 | adding on the fields; the invariant is kept |
| FocusProvider.FocusModeProvider.ForgetAlert | Desktop/attentionnPlss/mindful-desktop-companion-50/src/contexts/FocusModeContext.jsx:607-616 | the JavaScript copy hides the alert for the added application |
| FocusProvider.FocusModeProvider.MarkAllowed | Desktop/attentionnPlss/mindful-desktop-companion-50/src/contexts/FocusModeContext.jsx:619-626 | the JavaScript copy marks the added application allowed |
| FocusProvider.FocusModeProvider.RemoveFromWhitelist | Desktop/attentionnPlss/mindful-desktop-companion-50/src/contexts/FocusModeContext.jsx:639-691 | removal on the fields, with the refusal and the scheduled alert |
| FocusProvider.FocusModeProvider.RevokeActive | Desktop/attentionnPlss/mindful-desktop-companion-50/src/contexts/FocusModeContext.jsx:665-680 | the JavaScript copy revokes the last window's application |
| FocusProvider.FocusModeProvider.SaveWhitelist | Desktop/attentionnPlss/mindful-desktop-companion-50/src/contexts/FocusModeContext.tsx:326-340 | the save effect on the fields; what is stored is the merged list |
| FocusProvider.FocusModeProvider.OnFocusModeChanged | Desktop/attentionnPlss/mindful-desktop-companion-50/src/contexts/FocusModeContext.tsx:371-419 | the flag-change effect on the fields, followed by the check it makes at once |
| FocusProvider.FocusModeProvider.PollActiveWindow | Desktop/attentionnPlss/mindful-desktop-companion-50/src/contexts/FocusModeContext.tsx:390-407 | one tick of the poll on the fields; the invariant is kept |
| FocusProvider.FocusModeProvider.PollFieldsSet | Desktop/attentionnPlss/mindful-desktop-companion-50/src/contexts/FocusModeContext.tsx:488-496 | the poll's setters on the fields |
| FocusProvider.FocusModeProvider.OnUserChanged | Desktop/attentionnPlss/mindful-desktop-companion-50/src/contexts/FocusModeContext.tsx:147-171 | the user-change effect on the fields |
| FocusProvider.FocusModeProvider.LoadAlertPreferences | Desktop/attentionnPlss/mindful-desktop-companion-50/src/contexts/FocusModeContext.tsx:173-199 | loading the alert text and image on the fields |
| FocusProvider.FocusModeProvider.LoadSettings | Desktop/attentionnPlss/mindful-desktop-companion-50/src/contexts/FocusModeContext.tsx:218-250 | loading the list, dim option and flag on the fields |
| FocusProvider.FocusModeProvider.ToggleDimOption | Desktop/attentionnPlss/mindful-desktop-companion-50/src/contexts/FocusModeContext.tsx:717-719 | only the dim option flips |
| FocusProvider.FocusModeProvider.UpdateCustomText | Desktop/attentionnPlss/mindful-desktop-companion-50/src/contexts/FocusModeContext.tsx:721-723 | only the alert text changes |
| FocusProvider.FocusModeProvider.UpdateCustomImage | Desktop/attentionnPlss/mindful-desktop-companion-50/src/contexts/FocusModeContext.tsx:725-732 | only the alert image changes |
| FocusProvider.TestFocusModePopup | Desktop/attentionnPlss/mindful-desktop-companion-50/src/contexts/FocusModeContext.tsx:734-736 | the test button on the provider |
| AlertPopup.GroupEnd | Desktop/attentionnPlss/mindful-desktop-companion-50/src/components/customRules/RichMediaPopup.jsx:19 | the lazy group ends at the first dash-digit pair reached without a line terminator, or the match fails |
| AlertPopup.MatchFrom | Desktop/attentionnPlss/mindful-desktop-companion-50/src/components/customRules/RichMediaPopup.jsx:19 | a captured group follows `focus-mode-` in the id; an id without that prefix does not match |
| AlertPopup.AppIdKey | Desktop/attentionnPlss/mindful-desktop-companion-50/src/components/customRules/RichMediaPopup.jsx:19-20 | an id without the prefix has no application id |
| AlertPopup.AppIdOfAlertId | Desktop/attentionnPlss/mindful-desktop-companion-50/src/components/customRules/RichMediaPopup.jsx:19-20 | an id built by the focus-mode handler gives back its application name when the name has no dash-digit pair or line terminator |
| AlertPopup.TestIdHasNoAppId | Desktop/attentionnPlss/mindful-desktop-companion-50/src/components/customRules/RichMediaPopup.jsx:19-20 | test popup ids carry no application id |
| AlertPopup.AppIdKeyCollision | Desktop/attentionnPlss/mindful-desktop-companion-50/src/components/customRules/RichMediaPopup.jsx:19-23 | an alert for "Editor-2" is taken for a repeat of one for "Editor" |
| AlertPopup.ViewOf | Desktop/attentionnPlss/mindful-desktop-companion-50/src/components/customRules/RichMediaPopup.jsx:91-123 | nothing is drawn without data; the dialog shows exactly when open, with the data's title and body |
| AlertPopup.ShowStepSpec | Desktop/attentionnPlss/mindful-desktop-companion-50/src/components/customRules/RichMediaPopup.jsx:15-57 | a show event is skipped exactly when its key is the remembered one; otherwise the popup opens on the new data, remembers the key and acknowledges the id |
| AlertPopup.AutoCloseSuppressesRepeat | Desktop/attentionnPlss/mindful-desktop-companion-50/src/components/customRules/RichMediaPopup.jsx:45-48 | after the popup closes by itself the next alert for the same application is still skipped |
| AlertPopup.DismissAllowsRepeat | Desktop/attentionnPlss/mindful-desktop-companion-50/src/components/customRules/RichMediaPopup.jsx:78-89 | after a dismissal any alert shows again |
| AlertPopup.ExternalDismissSpec | Desktop/attentionnPlss/mindful-desktop-companion-50/src/components/customRules/RichMediaPopup.jsx:61-67 | an external dismissal acts exactly when it names the id on screen |
| AlertPopup.DismissEchoIdempotent | Desktop/attentionnPlss/mindful-desktop-companion-50/src/components/customRules/RichMediaPopup.jsx:78-89 | the popup hears its own dismissal, and hearing it changes nothing more |
| AlertPopup.DismissClearsFocusAlert | Desktop/attentionnPlss/mindful-desktop-companion-50/src/components/customRules/RichMediaPopup.jsx:78-89 | dismissing the popup for a focus alert also clears that alert in the provider |
| AlertPopup.ViewAfterShow | Desktop/attentionnPlss/mindful-desktop-companion-50/src/components/customRules/RichMediaPopup.jsx:91-123 | nothing is drawn before the first alert; a shown alert is drawn with its title and body |
| AlertPopup.RichMediaPopup.constructor | Desktop/attentionnPlss/mindful-desktop-companion-50/src/components/customRules/RichMediaPopup.jsx:9-11 | a fresh popup is closed, empty and remembers no application |
| AlertPopup.RichMediaPopup.HandleShowFocusPopup | Desktop/attentionnPlss/mindful-desktop-companion-50/src/components/customRules/RichMediaPopup.jsx:15-57 | the show listener on the fields, returning the acknowledgement |
| AlertPopup.RichMediaPopup.AutoClose | Desktop/attentionnPlss/mindful-desktop-companion-50/src/components/customRules/RichMediaPopup.jsx:46-48 | the eight-second timer, and the dialog's Escape or overlay close (RichMediaPopup.jsx:98), close the popup and keep the key |
| AlertPopup.RichMediaPopup.HandleNotificationDismissed | Desktop/attentionnPlss/mindful-desktop-companion-50/src/components/customRules/RichMediaPopup.jsx:61-67 | the dismissal listener on the fields |
| AlertPopup.RichMediaPopup.HandleDismiss | Desktop/attentionnPlss/mindful-desktop-companion-50/src/components/customRules/RichMediaPopup.jsx:78-89 | the dismiss buttons on the fields, returning the detail dispatched |
| Timers.PomodoroResetStep | Desktop/attentionnPlss/mindful-desktop-companion-50/src/contexts/TimerContext.tsx:290-301 | a reset stops the timer, seeds the requested phase from its duration at zero seconds and fills the ring |
| Timers.PomodoroTickCountsDown | Desktop/attentionnPlss/mindful-desktop-companion-50/src/contexts/TimerContext.tsx:196-227 | a running tick before 00:00 takes exactly one second off, keeps a clock reading and records the progress before the tick |
| Timers.PomodoroTickCompletes | Desktop/attentionnPlss/mindful-desktop-companion-50/src/contexts/TimerContext.tsx:197-216 | a running tick at 00:00 raises the phase's toast, switches phase, seeds it and stops |
| Timers.PomodoroPausedStays | Desktop/attentionnPlss/mindful-desktop-companion-50/src/contexts/TimerContext.tsx:195-231 | a paused timer does not move |
| Timers.PomodoroRunsToEnd | Desktop/attentionnPlss/mindful-desktop-companion-50/src/contexts/TimerContext.tsx:188-237 | a running phase reaches 00:00 after exactly its remaining seconds, and the next tick ends it |
| Timers.PomodoroSettingsStep | Desktop/attentionnPlss/mindful-desktop-companion-50/src/contexts/TimerContext.tsx:158-185 | new durations always apply; a paused timer is reseeded for its phase, a running one keeps its reading |
| Timers.EyeCareResetStep | Desktop/attentionnPlss/mindful-desktop-companion-50/src/contexts/TimerContext.tsx:307-311 | a reset returns to the start of a work phase and keeps the running flag |
| Timers.EyeCareTickInPhase | Desktop/attentionnPlss/mindful-desktop-companion-50/src/contexts/TimerContext.tsx:240-284 | a tick keeps the count within its phase and changes neither durations nor the running flag |
| Timers.EyeCareTickSpec | Desktop/attentionnPlss/mindful-desktop-companion-50/src/contexts/TimerContext.tsx:240-284 | work ticks count up until the rest starts; rest ticks record the rest progress and count up until the rest completes |
| Timers.EyeCareCycle | Desktop/attentionnPlss/mindful-desktop-companion-50/src/contexts/TimerContext.tsx:240-284 | from the start of work the rest begins after work+1 ticks and the next work phase after rest+1 more |
| Timers.EyeCareCountsUp | Desktop/attentionnPlss/mindful-desktop-companion-50/src/contexts/TimerContext.tsx:240-284 | from a phase start, n+1 ticks with n the phase duration count to the end and switch phase |
| Timers.EyeCareSettingsStep | Desktop/attentionnPlss/mindful-desktop-companion-50/src/contexts/TimerContext.tsx:158-185 | new durations always apply; a paused eye-care timer restarts its work phase |
| Timers.PomodoroEngine.constructor | Desktop/attentionnPlss/mindful-desktop-companion-50/src/contexts/TimerContext.tsx:55-83 | the engine starts from the stored reading |
| Timers.PomodoroEngine.Tick | Desktop/attentionnPlss/mindful-desktop-companion-50/src/contexts/TimerContext.tsx:188-237 | one interval callback on the fields, returning the toast |
| Timers.PomodoroEngine.Start | Desktop/attentionnPlss/mindful-desktop-companion-50/src/contexts/TimerContext.tsx:287 | only the running flag is set |
| Timers.PomodoroEngine.Pause | Desktop/attentionnPlss/mindful-desktop-companion-50/src/contexts/TimerContext.tsx:288 | only the running flag is cleared |
| Timers.PomodoroEngine.Reset | Desktop/attentionnPlss/mindful-desktop-companion-50/src/contexts/TimerContext.tsx:290-301 | the reset on the fields |
| Timers.EyeCareEngine.constructor | Desktop/attentionnPlss/mindful-desktop-companion-50/src/contexts/TimerContext.tsx:85-108 | the engine starts from the stored values |
| Timers.EyeCareEngine.Tick | Desktop/attentionnPlss/mindful-desktop-companion-50/src/contexts/TimerContext.tsx:240-284 | one interval callback on the fields, returning the toast |
| Timers.EyeCareEngine.Start | Desktop/attentionnPlss/mindful-desktop-companion-50/src/contexts/TimerContext.tsx:304 | only the running flag is set |
| Timers.EyeCareEngine.Pause | Desktop/attentionnPlss/mindful-desktop-companion-50/src/contexts/TimerContext.tsx:305 | only the running flag is cleared |
| Timers.EyeCareEngine.Reset | Desktop/attentionnPlss/mindful-desktop-companion-50/src/contexts/TimerContext.tsx:307-311 | the reset on the fields |
| Timers.TimerProvider.constructor | Desktop/attentionnPlss/mindful-desktop-companion-50/src/contexts/TimerContext.tsx:46-108 | mounting with the stored values and no user yet |
| Timers.TimerProvider.UpdateTimerSettings | Desktop/attentionnPlss/mindful-desktop-companion-50/src/contexts/TimerContext.tsx:158-185 | both engines take the new settings |
| Timers.TimerProvider.OnUserChanged | Desktop/attentionnPlss/mindful-desktop-companion-50/src/contexts/TimerContext.tsx:111-134 | a different user gets every default, eye care running; the same user keeps everything |
| Timers.MountDiscardsStoredTimers | Desktop/attentionnPlss/mindful-desktop-companion-50/src/contexts/TimerContext.tsx:111-134 | the first user effect after mounting replaces whatever storage held with the defaults |
| Reminders.Period | Desktop/attentionnPlss/mindful-desktop-companion-50/src/components/health/HydrationCheck.tsx:53 | the reminder period is longer than one second (1800 s to drink, 2700 s for posture) |
| Reminders.LoadedReminder | Desktop/attentionnPlss/mindful-desktop-companion-50/src/components/health/HydrationCheck.tsx:10-18 | mounting reads the stored flag (off when absent) and time left (a full period when absent) |
| Reminders.ToggleStep | Desktop/attentionnPlss/mindful-desktop-companion-50/src/components/health/HydrationCheck.tsx:76-84 | the toggle flips the flag; enabling restarts a full period, disabling keeps the count |
| Reminders.ReminderTickSpec | Desktop/attentionnPlss/mindful-desktop-companion-50/src/components/health/HydrationCheck.tsx:32-57 | an enabled tick takes one second off, or at one second raises the reminder and restarts; a disabled card does not move |
| Reminders.InRangeKept | Desktop/attentionnPlss/mindful-desktop-companion-50/src/components/health/HydrationCheck.tsx:32-84 | ticks and toggles keep the count between one second and the period |
| Reminders.ReminderFiresOnTime | Desktop/attentionnPlss/mindful-desktop-companion-50/src/components/health/HydrationCheck.tsx:32-57 | with t seconds left nothing fires for t-1 ticks and the reminder fires on the t-th, restarting the period |
| Reminders.FirstReminderAfterPeriod | Desktop/attentionnPlss/mindful-desktop-companion-50/src/components/health/PostureCheck.tsx:76-84 | after enabling, the first reminder comes after exactly one period |
| Reminders.JsRem | Desktop/attentionnPlss/mindful-desktop-companion-50/src/components/health/HydrationCheck.tsx:88 | JavaScript remainder: Euclidean on non-negative counts, non-positive and above -b on negative ones |
| Reminders.FormatTimeRoundTrip | Desktop/attentionnPlss/mindful-desktop-companion-50/src/components/health/HydrationCheck.tsx:86-90 | a non-negative count renders as M:SS that reads back as the count, seconds below sixty |
| Reminders.ReminderCard.constructor | Desktop/attentionnPlss/mindful-desktop-companion-50/src/components/health/HydrationCheck.tsx:10-18 | mounting with what storage holds |
| Reminders.ReminderCard.Tick | Desktop/attentionnPlss/mindful-desktop-companion-50/src/components/health/HydrationCheck.tsx:32-74 | one interval callback on the fields, reporting whether the reminder fired |
| Reminders.ReminderCard.Toggle | Desktop/attentionnPlss/mindful-desktop-companion-50/src/components/health/HydrationCheck.tsx:76-84 | the toggle on the fields |
| AppUsage.CompareIsGroupThenScore | Desktop/attentionnPlss/mindful-desktop-companion-50/src/components/dashboard/AppUsageList.tsx:49-61 | the comparator puts items with an activity time first, newest first, then the rest by time spent, longest first |
| AppUsage.BeforeTotalPreorder | Desktop/attentionnPlss/mindful-desktop-companion-50/src/components/dashboard/AppUsageList.tsx:49-61 | the comparator's order is total, reflexive and transitive |
| AppUsage.SortedMeaning | Desktop/attentionnPlss/mindful-desktop-companion-50/src/components/dashboard/AppUsageList.tsx:49-61 | in a sorted list active items come first, newest first, and inactive ones by time spent |
| AppUsage.SortByRecency | Desktop/attentionnPlss/mindful-desktop-companion-50/src/components/dashboard/AppUsageList.tsx:49-61 | the list ends sorted by the comparator and is a permutation of the input |
| AppUsage.InsertAt | Desktop/attentionnPlss/mindful-desktop-companion-50/src/components/dashboard/AppUsageList.tsx:49-61 | one insertion step extends the sorted prefix and permutes the array |
| AppUsage.HandleAppUsageUpdate | Desktop/attentionnPlss/mindful-desktop-companion-50/src/components/dashboard/AppUsageList.tsx:41-63 | the shown list is the received one, sorted, as a permutation |
| AppUsage.UsageSeconds | Desktop/attentionnPlss/mindful-desktop-companion-50/src/components/dashboard/AppUsageList.tsx:94-105 | values above an hour of milliseconds become whole seconds (rounded down); others are taken as seconds |
| AppUsage.FormatUsageHours | Desktop/attentionnPlss/mindful-desktop-companion-50/src/components/dashboard/AppUsageList.tsx:107-112 | from an hour up the text is Hh Mm, denoting the time rounded down to the minute |
| AppUsage.FormatUsageMinutes | Desktop/attentionnPlss/mindful-desktop-companion-50/src/components/dashboard/AppUsageList.tsx:107-114 | from a minute up to an hour the text is Mm Ss, exactly the time |
| AppUsage.FormatUsageSeconds | Desktop/attentionnPlss/mindful-desktop-companion-50/src/components/dashboard/AppUsageList.tsx:90-117 | below a minute the text is Ss with at least one second; a value below one is exactly "1s" |
| AppUsage.UsageUnitBoundary | Desktop/attentionnPlss/mindful-desktop-companion-50/src/components/dashboard/AppUsageList.tsx:96-105 | the unit guess jumps at an hour of milliseconds: 3600000 reads as 1000h 0m, 3600001 as 1h 0m |
| AppUsage.BadgeLabel | Desktop/attentionnPlss/mindful-desktop-companion-50/src/components/dashboard/AppUsageList.tsx:177-185 | no badge outside a focus session; Allowed exactly for a whitelisted name, Blocked otherwise |
| AppUsage.BadgeCases | Desktop/attentionnPlss/mindful-desktop-companion-50/src/components/dashboard/AppUsageList.tsx:120-125 | an empty list allows nothing; an entry equal ignoring case allows; the empty name is allowed by any non-empty list |
| AppUsage.BadgeCaseAndGrowth | Desktop/attentionnPlss/mindful-desktop-companion-50/src/components/dashboard/AppUsageList.tsx:120-125 | the badge ignores the name's case and is never revoked by more entries |
| PomodoroView.FormatClockReadsBack | Desktop/attentionnPlss/mindful-desktop-companion-50/src/components/timers/PomodoroTimer.tsx:34-36 | a clock reading shows as MM:SS whose fields read back as the minutes and seconds |
| PomodoroView.SessionName | Desktop/attentionnPlss/mindful-desktop-companion-50/src/components/timers/PomodoroTimer.tsx:38-40 | "Break Time" exactly in a break, "Work Session" otherwise |
| PomodoroView.MinutesInputShown | Desktop/attentionnPlss/mindful-desktop-companion-50/src/components/timers/PomodoroTimer.tsx:101 | an input keeps whole minutes; a zero or unreadable entry gives way to the default |
| PomodoroView.SavedSettings | Desktop/attentionnPlss/mindful-desktop-companion-50/src/components/timers/PomodoroTimer.tsx:46-59 | saving sends the minutes typed and resets eye care to twenty minutes and twenty seconds |
| PomodoroView.SaveShowsTypedWork | Desktop/attentionnPlss/mindful-desktop-companion-50/src/components/timers/PomodoroTimer.tsx:46-59 | saving n minutes of work shows n:00 in a stopped work phase |
| PomodoroView.DurationsChangedEffect | Desktop/attentionnPlss/mindful-desktop-companion-50/src/components/timers/PomodoroTimer.tsx:72-76 | the effect reseeds a stopped timer when its durations changed and otherwise changes nothing |
| PomodoroView.SettingsEffectRedundant | Desktop/attentionnPlss/mindful-desktop-companion-50/src/components/timers/PomodoroTimer.tsx:72-76 | after a settings update the effect has nothing left to do |
| PomodoroView.PauseAsWritten | Desktop/attentionnPlss/mindful-desktop-companion-50/src/components/timers/PomodoroTimer.tsx:72-76 | with its dependency list as written, pausing always ends stopped |
| PomodoroView.PauseDiscardsProgress | Desktop/attentionnPlss/mindful-desktop-companion-50/src/components/timers/PomodoroTimer.tsx:72-76 | pausing as written reseeds the phase: a running 12:34 becomes 25:00 |
| PomodoroView.PauseThenStartResumes | Desktop/attentionnPlss/mindful-desktop-companion-50/src/components/timers/PomodoroTimer.tsx:72-76 | with the effect keyed on the durations, pausing and restarting resumes where the countdown stood |
| PomodoroView.PomodoroTimerView.constructor | Desktop/attentionnPlss/mindful-desktop-companion-50/src/components/timers/PomodoroTimer.tsx:27-32 | the popover starts from the provider's durations |
| PomodoroView.PomodoroTimerView.OnWorkTimeInput | Desktop/attentionnPlss/mindful-desktop-companion-50/src/components/timers/PomodoroTimer.tsx:101 | the work input keeps whole minutes |
| PomodoroView.PomodoroTimerView.OnBreakTimeInput | Desktop/attentionnPlss/mindful-desktop-companion-50/src/components/timers/PomodoroTimer.tsx:116 | the break input keeps whole minutes |
| PomodoroView.PomodoroTimerView.SaveSettings | Desktop/attentionnPlss/mindful-desktop-companion-50/src/components/timers/PomodoroTimer.tsx:46-59 | saving updates both engines, reseeds the current phase and closes the popover |
| PomodoroView.PomodoroTimerView.SyncFromProvider | Desktop/attentionnPlss/mindful-desktop-companion-50/src/components/timers/PomodoroTimer.tsx:62-69 | the popover is refilled from the provider's durations |
| PomodoroView.PomodoroTimerView.TogglePlay | Desktop/attentionnPlss/mindful-desktop-companion-50/src/components/timers/PomodoroTimer.tsx:196 | the card with its reset effect corrected (see Findings): Start runs the timer; Pause stops it and keeps the countdown, which the effect as written at lines 72-76 would reseed |
| PomodoroView.PomodoroTimerView.ResetButton | Desktop/attentionnPlss/mindful-desktop-companion-50/src/components/timers/PomodoroTimer.tsx:205 | Reset restarts the current phase |
| EyeCareView.NoticeFor | Desktop/attentionnPlss/mindful-desktop-companion-50/src/components/eyecare/EyeCareReminder.tsx:37-80 | the rest-start notice exactly on a rest's first second, the rest-complete notice exactly on a running work phase's first second |
| EyeCareView.NoticesFollowTicks | Desktop/attentionnPlss/mindful-desktop-companion-50/src/components/eyecare/EyeCareReminder.tsx:37-80 | the tick that starts a rest is followed by the rest-start notice, the one that ends it by the rest-complete notice, others by none |
| EyeCareView.ResetAnnouncesRestComplete | Desktop/attentionnPlss/mindful-desktop-companion-50/src/components/eyecare/EyeCareReminder.tsx:59-78 | Reset during a running phase, and mounting a running timer, also announce a completed rest |
| EyeCareView.RestTextCountsDown | Desktop/attentionnPlss/mindful-desktop-companion-50/src/components/eyecare/EyeCareReminder.tsx:115 | during a rest the text is the seconds still to go |
| EyeCareView.NextBreakTextReadsBack | Desktop/attentionnPlss/mindful-desktop-companion-50/src/components/eyecare/EyeCareReminder.tsx:122-123 | during work the countdown reads back as the seconds to the next break |
| EyeCareView.PhaseLabelMinutes | Desktop/attentionnPlss/mindful-desktop-companion-50/src/components/eyecare/EyeCareReminder.tsx:165-167 | the work label names the work duration in whole minutes, rounded down |
| EyeCareView.ToggleActive | Desktop/attentionnPlss/mindful-desktop-companion-50/src/components/eyecare/EyeCareReminder.tsx:82-89 | Pause stops a running timer, Resume starts a stopped one; nothing else changes |
| SettingsPanel.FormFromSettings | Desktop/attentionnPlss/mindful-desktop-companion-50/src/components/settings/SettingsPanel.tsx:41-57 | the form shows the Pomodoro durations and the eye-care work duration in whole minutes, rounded down |
| SettingsPanel.Submit | Desktop/attentionnPlss/mindful-desktop-companion-50/src/components/settings/SettingsPanel.tsx:21-26 | a submission is accepted exactly within the schema's bounds |
| SettingsPanel.SubmitThenReload | Desktop/attentionnPlss/mindful-desktop-companion-50/src/components/settings/SettingsPanel.tsx:59-66 | an accepted form comes back unchanged once the provider has taken it |
| SettingsPanel.UntouchedSave | Desktop/attentionnPlss/mindful-desktop-companion-50/src/components/settings/SettingsPanel.tsx:59-66 | saving an untouched form keeps the settings exactly when the work duration is whole minutes |
| SettingsPanel.DefaultsAccepted | Desktop/attentionnPlss/mindful-desktop-companion-50/src/components/settings/SettingsPanel.tsx:41-46 | the provider's defaults fill an acceptable form that saves back to themselves |
| SettingsPanel.PomodoroOutOfBoundsBlocksSave | Desktop/attentionnPlss/mindful-desktop-companion-50/src/components/settings/SettingsPanel.tsx:21-26 | out-of-bounds Pomodoro durations block every eye-care save |
| FocusSettingsForm.AddDecision | Desktop/attentionnPlss/mindful-desktop-companion-50/src/components/settings/FocusModeSettings.tsx:31-38 | the Add button adds the trimmed typed name, else the current application, else nothing |
| FocusSettingsForm.TypedNameAdded | Desktop/attentionnPlss/mindful-desktop-companion-50/src/components/settings/FocusModeSettings.tsx:31-38 | a typed name lands in the list trimmed, and nothing else joins |
| FocusSettingsForm.HighlightedRows | Desktop/attentionnPlss/mindful-desktop-companion-50/src/components/settings/FocusModeSettings.tsx:174 | a highlighted row earns the current application the Allowed badge; its own row is highlighted; no current app, no highlight |
| FocusSettingsForm.WhitelistForm.constructor | Desktop/attentionnPlss/mindful-desktop-companion-50/src/components/settings/FocusModeSettings.tsx:31-38 | the field starts empty |
| FocusSettingsForm.WhitelistForm.OnInput | Desktop/attentionnPlss/mindful-desktop-companion-50/src/components/settings/FocusModeSettings.tsx:31-38 | typing sets the field |
| FocusSettingsForm.WhitelistForm.HandleAddToWhitelist | Desktop/attentionnPlss/mindful-desktop-companion-50/src/components/settings/FocusModeSettings.tsx:31-38 | adds what the decision names; a typed name clears the field |
| FocusSettingsForm.WhitelistForm.HandleAddCurrentApp | Desktop/attentionnPlss/mindful-desktop-companion-50/src/components/settings/FocusModeSettings.tsx:40-45 | adds the current application, if any, and announces it |
| FocusSession.AlertStep | Desktop/attentionnPlss/mindful-desktop-companion-50/src/contexts/FocusModeContext.tsx:95-145 | the handler as a step on the state; specified by AlertStepSpec and AlertStepKeepsInvariant |
| FocusSession.BlockTransitionStep | Desktop/attentionnPlss/mindful-desktop-companion-50/src/contexts/FocusModeContext.tsx:421-456 | the block-transition effect as a step; specified by BlockTransitionAlertsExactlyWhen, BlockTransitionAlertState and BlockTransitionQuietState |
| FocusSession.LeavingStep | Desktop/attentionnPlss/mindful-desktop-companion-50/src/contexts/FocusModeContext.tsx:440-455 | the effect once the verdict is known; specified by LeavingStepKeepsInvariant and through BlockTransitionAlertsExactlyWhen |
| FocusSession.WindowChangedStep | Desktop/attentionnPlss/mindful-desktop-companion-50/src/contexts/FocusModeContext.tsx:253-288 | the window listener as a step; specified by WindowChangedStepSpec |
| FocusSession.DismissedStep | Desktop/attentionnPlss/mindful-desktop-companion-50/src/contexts/FocusModeContext.tsx:291-299 | the dismissal listener as a step; specified by DismissedStepSpec |
| FocusSession.ToggleStep | Desktop/attentionnPlss/mindful-desktop-companion-50/src/contexts/FocusModeContext.tsx:639-702 | the toggle as a step; specified by ToggleStepSpec and TogglePendingAlert |
| FocusSession.AddStep | Desktop/attentionnPlss/mindful-desktop-companion-50/src/contexts/FocusModeContext.tsx:705-710 | adding an entry as a step, both copies; specified by AddStepMembers, AddStepIdempotent and JsxAddClearsAlert |
| FocusSession.RemoveStep | Desktop/attentionnPlss/mindful-desktop-companion-50/src/contexts/FocusModeContext.tsx:712-715 | removal as a step, both copies (lines 639-691 of the .jsx); specified by RemoveStepSpec and AddThenRemove |
| FocusSession.SaveStep | Desktop/attentionnPlss/mindful-desktop-companion-50/src/contexts/FocusModeContext.tsx:326-340 | the save effect as a step; specified by SaveRestoresEssentials and SaveStepIdempotent |
| FocusSession.UserChangedStep | Desktop/attentionnPlss/mindful-desktop-companion-50/src/contexts/FocusModeContext.tsx:147-171 | the user-change effect as a step; specified by UserChangedStepSpec |
| FocusSession.FocusModeEffectStep | Desktop/attentionnPlss/mindful-desktop-companion-50/src/contexts/FocusModeContext.tsx:371-419 | the flag-change effect as a step; specified by FocusModeEffectKeepsInvariant |
| FocusSession.PollStep | Desktop/attentionnPlss/mindful-desktop-companion-50/src/contexts/FocusModeContext.tsx:459-498 | the poll as a step; specified by PollStepSpec, PollClearsAllowedAlert and AddThenPollClearsAlert |
| FocusSession.TestPopupStep | Desktop/attentionnPlss/mindful-desktop-companion-50/src/contexts/FocusModeContext.tsx:734-736 | the test button as a step; specified by TestPopupSpec |
| AlertPopup.ShowStep | Desktop/attentionnPlss/mindful-desktop-companion-50/src/components/customRules/RichMediaPopup.jsx:15-57 | the show listener as a step; specified by ShowStepSpec |
| AlertPopup.AutoCloseStep | Desktop/attentionnPlss/mindful-desktop-companion-50/src/components/customRules/RichMediaPopup.jsx:46-48 | the auto-close as a step; specified by AutoCloseSuppressesRepeat |
| AlertPopup.ExternalDismissStep | Desktop/attentionnPlss/mindful-desktop-companion-50/src/components/customRules/RichMediaPopup.jsx:61-67 | the dismissal listener as a step; specified by ExternalDismissSpec |
| AlertPopup.DismissStep | Desktop/attentionnPlss/mindful-desktop-companion-50/src/components/customRules/RichMediaPopup.jsx:78-89 | the dismiss buttons as a step; specified by DismissAllowsRepeat, DismissEchoIdempotent and DismissClearsFocusAlert |
| Timers.PomodoroTickStep | Desktop/attentionnPlss/mindful-desktop-companion-50/src/contexts/TimerContext.tsx:188-237 | one Pomodoro interval callback; specified by PomodoroTickCountsDown, PomodoroTickCompletes, PomodoroPausedStays and PomodoroRunsToEnd |
| Timers.EyeCareTickStep | Desktop/attentionnPlss/mindful-desktop-companion-50/src/contexts/TimerContext.tsx:240-284 | one eye-care interval callback; specified by EyeCareTickInPhase, EyeCareTickSpec and EyeCareCycle |
| Reminders.ReminderTickStep | Desktop/attentionnPlss/mindful-desktop-companion-50/src/components/health/HydrationCheck.tsx:32-57 | one reminder interval callback; specified by ReminderTickSpec, InRangeKept and ReminderFiresOnTime |
| Reminders.FormatTime | Desktop/attentionnPlss/mindful-desktop-companion-50/src/components/health/HydrationCheck.tsx:86-90 | the M:SS rendering; specified by FormatTimeRoundTrip |
| AppUsage.Compare | Desktop/attentionnPlss/mindful-desktop-companion-50/src/components/dashboard/AppUsageList.tsx:49-61 | the sort comparator; specified by CompareIsGroupThenScore and BeforeTotalPreorder |
| AppUsage.FormatUsage | Desktop/attentionnPlss/mindful-desktop-companion-50/src/components/dashboard/AppUsageList.tsx:90-118 | the usage text; specified by FormatUsageHours, FormatUsageMinutes, FormatUsageSeconds and UsageUnitBoundary |
| AppUsage.IsAppWhitelisted | Desktop/attentionnPlss/mindful-desktop-companion-50/src/components/dashboard/AppUsageList.tsx:120-125 | the badge's list test; specified by BadgeCases and BadgeCaseAndGrowth |
| PomodoroView.FormatClock | Desktop/attentionnPlss/mindful-desktop-companion-50/src/components/timers/PomodoroTimer.tsx:34-36 | the clock text; specified by FormatClockReadsBack |
| PomodoroView.MinutesInput | Desktop/attentionnPlss/mindful-desktop-companion-50/src/components/timers/PomodoroTimer.tsx:101 | an input change; specified by MinutesInputShown |
| PomodoroView.PauseKeepingProgress | Desktop/attentionnPlss/mindful-desktop-companion-50/src/components/timers/PomodoroTimer.tsx:72-76 | pausing under the corrected effect; specified by PauseThenStartResumes |
| EyeCareView.NoticeEffect | Desktop/attentionnPlss/mindful-desktop-companion-50/src/components/eyecare/EyeCareReminder.tsx:37-80 | the notification effect with its dependency list; specified by NoticesFollowTicks and ResetAnnouncesRestComplete |
| EyeCareView.RestText | Desktop/attentionnPlss/mindful-desktop-companion-50/src/components/eyecare/EyeCareReminder.tsx:115 | the rest countdown text; specified by RestTextCountsDown |
| EyeCareView.NextBreakText | Desktop/attentionnPlss/mindful-desktop-companion-50/src/components/eyecare/EyeCareReminder.tsx:122-123 | the next-break countdown text; specified by NextBreakTextReadsBack |
| EyeCareView.PhaseLabel | Desktop/attentionnPlss/mindful-desktop-companion-50/src/components/eyecare/EyeCareReminder.tsx:165-167 | the phase label; specified by PhaseLabelMinutes |
| SettingsPanel.InBounds | Desktop/attentionnPlss/mindful-desktop-companion-50/src/components/settings/SettingsPanel.tsx:21-26 | the schema's bounds; specified by Submit, SubmitThenReload and PomodoroOutOfBoundsBlocksSave |
| FocusSettingsForm.RowHighlighted | Desktop/attentionnPlss/mindful-desktop-companion-50/src/components/settings/FocusModeSettings.tsx:174 | the row highlight; specified by HighlightedRows |
| AppMatcher.EntryVerdict | Desktop/attentionnPlss/mindful-desktop-companion-50/src/contexts/FocusModeContext.tsx:529-635 | the rules tried for one entry; specified by IncludedEntryAllows, TokenRuleAllowsTsx, BrowserRuleAllowsTsx, JsxBundleIdShadowsPath and JsxTokenVerdict |

## Left out

- Storage, Electron IPC and the DOM events are left out. `localStorage` reads are parameters of the loading functions (an absent key is `None`). Electron `send`/`on` messages and DOM `CustomEvent`s become return values and method calls.
- Toasts, `console` output and the `stabilize-window` messages are left out; they carry no state. The toasts that mark an engine's phase change are returned as events.
- React's render timing is not modelled: stale closures, batched updates, `setTimeout` delays (50/100/300/500 ms) and interval re-creation. Each effect runs once per call, on the state it is given. The flag-change effect (`FocusModeEffectStep`) depends only on the flag in FocusModeContext.tsx, but in FocusModeContext.jsx it depends on the flag, `lastActiveWindow` and `whitelist`, so that copy also clears the cooldowns and `wasInWhitelistedApp` on every window or list change, and the premise of `FocusSession.CooldownSuppresses` (time stamps kept) fails more often there.
- The one-second throttle of the JavaScript toggle is modelled. The `processedAppSwitches` set and `lastNotifiedApp` are not: they only shape console output and a duplicate-event guard that the explicit call order already gives.
- The one-second interval around `checkActiveWindowAgainstWhitelist` and its `get-active-window` request are left out: each tick is a call of `PollActiveWindow`, made by the caller. The poll itself is modelled.
- The dim effect (`applyDimEffect`, a CSS class on the document) is not part of this model; only the option's flag is.
- Progress percentages are floating point in the source. Here they are kept as a numerator and a denominator (`Percent`), and the SVG ring drawn from them is left out.
- The `Number()` values of the settings form are integers here. Fractional entries, and the `step` attributes of the inputs, are not modelled.
- Usage times that are not whole numbers are not modelled. The list receives integer times.
- `AppUsage.SortByRecency` is an insertion sort standing for `Array.prototype.sort`; stability is not claimed.
- `longBreakTime` and `sessionsUntilLongBreak` in the Pomodoro popover are never read by the timer, so they are left out.
- `toLowerCase` is modelled for ASCII letters only. Unicode case mapping is not modelled.
- JavaScript `null` alert and application fields are the empty string here. The code treats both as falsy wherever it tests them.
- The regular expressions' `.` excludes exactly the line terminators `\n`, `\r`, U+2028 and U+2029. `\s` and `trim` use the full ECMAScript WhiteSpace and LineTerminator set (`JsStrings.IsSpace`).
- AppMatcher.IsAppInWhitelist: the verdict's logging and the `activeWindowInfo` lookups are modelled as parameters. The window's bundle id, path and executable name come from the caller.
- PomodoroView.PomodoroTimerView.TogglePlay: models the card with the corrected reset effect, so a pause keeps the countdown. The effect as written at PomodoroTimer.tsx:72-76 reseeds the phase on every pause. `PauseAsWritten` and `PauseDiscardsProgress` state that behaviour (see Findings).

## Findings

| source | as written | input that shows it | evidently intended | confidence | as-written member | corrected member |
|---|---|---|---|---|---|---|
| Desktop/attentionnPlss/mindful-desktop-companion-50/src/components/timers/PomodoroTimer.tsx:72-76 | the reset effect lists `isPomodoroActive` among its dependencies, so it also runs when the timer stops and reseeds the phase | pause a running work phase showing 12:34; the next render shows 25:00 | reset a stopped timer only when its durations change, so that pausing keeps the countdown | not executed | PomodoroView.PauseDiscardsProgress | PomodoroView.PauseThenStartResumes |
