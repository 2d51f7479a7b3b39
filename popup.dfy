/** The rich-media alert popup: one slot for the alert on screen, a key that keeps the same
    application's alerts from stacking up, an eight-second auto-close and two ways to dismiss. */
module AlertPopup {
  import opened JsStrings
  import opened FocusSession

  const AlertIdPrefix: string := "focus-mode-"
  /** Milliseconds after which a shown popup closes by itself. */
  const AutoCloseDelay: int := 8000

  // ---------------------------------------------------------------------------
  // The application id inside a notification id: `/focus-mode-(.*?)-\d+/`

  /** A dash followed by a decimal digit starts at `j`. */
  predicate DashDigitAt(id: string, j: int)
  {
    0 <= j && j + 1 < |id| && id[j] == '-' && IsDigit(id[j + 1])
  }

  /** The lazy group that starts at `from` ends at the first dash-digit pair; `.` does not
      cross a line terminator, so the group fails at the first one. */
  function GroupEnd(id: string, from: nat, j: nat): (r: Option<nat>)
    requires from <= j <= |id|
    requires forall k :: from <= k < j ==> !DashDigitAt(id, k) && !IsLineTerminator(id[k])
    ensures r.Some? ==> (j <= r.value && DashDigitAt(id, r.value) &&
      forall k :: from <= k < r.value ==> !DashDigitAt(id, k) && !IsLineTerminator(id[k]))
    ensures r.None? ==> forall k :: from <= k && DashDigitAt(id, k) ==>
      exists m :: from <= m < k && IsLineTerminator(id[m])
    decreases |id| - j
  {
    if DashDigitAt(id, j) then Some(j)
    else if j < |id| && !IsLineTerminator(id[j]) then GroupEnd(id, from, j + 1)
    else
      assert forall k :: from <= k && DashDigitAt(id, k) ==> j < k && from <= j < k && IsLineTerminator(id[j]);
      None
  }

  /** The group of the leftmost match starting at or after `p`. */
  function MatchFrom(id: string, p: nat): (r: Option<string>)
    ensures r.Some? ==> exists q :: p <= q && OccursAt(id, AlertIdPrefix + r.value, q)
    ensures !Contains(id, AlertIdPrefix) ==> r.None?
    decreases |id| - p
  {
    var start := p + |AlertIdPrefix|;
    if OccursAt(id, AlertIdPrefix, p) && GroupEnd(id, start, start).Some? then
      var e := GroupEnd(id, start, start).value;
      assert id[p..e] == AlertIdPrefix + id[start..e];
      assert OccursAt(id, AlertIdPrefix + id[start..e], p);
      Some(id[start..e])
    else if p < |id| then MatchFrom(id, p + 1)
    else None
  }

  /** The application id the popup de-duplicates on; the empty string when the id does not
      match, which the popup treats like a match with an empty group (both are falsy). */
  function AppIdKey(notificationId: string): (key: string)
    ensures !Contains(notificationId, AlertIdPrefix) ==> key == ""
  {
    match MatchFrom(notificationId, 0)
    case Some(a) => a
    case None => ""
  }

  /** An alert id built by the focus-mode handler gives back its application name, provided
      the name has no dash-digit pair and no line terminator and the time is not negative. */
  lemma AppIdOfAlertId(appName: string, now: int)
    requires now >= 0
    requires forall k :: !DashDigitAt(appName, k)
    requires forall k :: 0 <= k < |appName| ==> !IsLineTerminator(appName[k])
    ensures AppIdKey(AlertId(appName, now)) == appName
  {
    var digits := IntToString(now);
    var id := AlertId(appName, now);
    var start := |AlertIdPrefix|;
    var e := start + |appName|;
    assert id == AlertIdPrefix + appName + "-" + digits;
    assert |digits| >= 1 && IsDigit(digits[0]);
    assert id[e] == '-' && id[e + 1] == digits[0];
    forall k | start <= k < e
      ensures !DashDigitAt(id, k) && !IsLineTerminator(id[k])
    {
      assert id[k] == appName[k - start];
      if k + 1 < e {
        assert id[k + 1] == appName[k - start + 1];
        assert !DashDigitAt(appName, k - start);
      } else {
        assert id[k + 1] == '-';
      }
    }
    GroupEndAt(id, start, e);
    assert OccursAt(id, AlertIdPrefix, 0);
    assert id[start..e] == appName;
  }

  /** When every position from `from` up to `e` is crossed and `e` holds a dash-digit pair,
      the group ends at `e`. */
  lemma {:induction false} GroupEndAt(id: string, from: nat, e: nat)
    requires from <= e && DashDigitAt(id, e)
    requires forall k :: from <= k < e ==> !DashDigitAt(id, k) && !IsLineTerminator(id[k])
    ensures from <= |id| && GroupEnd(id, from, from) == Some(e)
  {
    GroupEndFrom(id, from, from, e);
  }

  lemma {:induction false} GroupEndFrom(id: string, from: nat, j: nat, e: nat)
    requires from <= j <= e && DashDigitAt(id, e)
    requires forall k :: from <= k < e ==> !DashDigitAt(id, k) && !IsLineTerminator(id[k])
    ensures j <= |id| && GroupEnd(id, from, j) == Some(e)
    decreases e - j
  {
    if j < e {
      GroupEndFrom(id, from, j + 1, e);
    }
  }

  /** The test button's ids carry no application id, so test popups are never de-duplicated. */
  lemma TestIdHasNoAppId(now: int)
    ensures AppIdKey("test-focus-popup-" + IntToString(now)) == ""
  {
    var id := "test-focus-popup-" + IntToString(now);
    assert forall k :: 0 <= k < |id| ==> id[k] != 'm' by {
      assert forall k :: 0 <= k < |IntToString(now)| ==> IsDigit(IntToString(now)[k]) || IntToString(now)[k] == '-';
    }
    NotContainsChar(id, AlertIdPrefix, 6);
  }

  /** Two applications whose names differ by a dash-digit suffix share a key: an alert for
      "Editor-2" is taken for a repeat of one for "Editor". */
  lemma AppIdKeyCollision()
    ensures AppIdKey(AlertId("Editor-2", 1)) == "Editor"
  {
    var id := AlertId("Editor-2", 1);
    assert id == "focus-mode-Editor-2-1";
    assert DashDigitAt(id, 17);
    forall k | 11 <= k < 17
      ensures !DashDigitAt(id, k) && !IsLineTerminator(id[k])
    {
    }
    GroupEndAt(id, 11, 17);
    assert OccursAt(id, AlertIdPrefix, 0);
    assert id[11..17] == "Editor";
  }

  // ---------------------------------------------------------------------------
  // The popup's state

  /** What the popup keeps of a `show-focus-popup` event. */
  datatype NotificationData = NotificationData(title: string, body: string, notificationId: string, appName: string)

  /** `isOpen`, `notificationData` (None for `null`) and `lastShownAppId` ("" for `null`). */
  datatype PopupState = PopupState(isOpen: bool, data: Option<NotificationData>, lastShownAppId: string)

  /** A show event's outcome: the new state and the `focus-popup-displayed` acknowledgement. */
  datatype ShowResult = ShowResult(state: PopupState, ack: Option<string>)

  /** A manual dismissal's outcome: the new state and the `notification-dismissed` detail. */
  datatype DismissResult = DismissResult(state: PopupState, emitted: Option<string>)

  /** What is on screen. */
  datatype PopupView = Nothing | Closed | Dialog(title: string, body: string)

  const InitialPopup: PopupState := PopupState(false, None, "")

  /** `handleShowFocusPopup`: skip a repeat of the last application; otherwise replace the
      slot, open it and acknowledge. */
  function ShowStep(s: PopupState, req: AlertRequest): ShowResult
  {
    var key := AppIdKey(req.notificationId);
    if key != "" && key == s.lastShownAppId then ShowResult(s, None)
    else
      ShowResult(
        PopupState(true, Some(NotificationData(req.title, req.body, req.notificationId, req.appName)),
                   if key != "" then key else s.lastShownAppId),
        Some(req.notificationId))
  }

  /** The eight-second timer: closes, and keeps the key. The dialog's own close path
      (`onOpenChange={setIsOpen}`: Escape or a click on the overlay) has exactly this effect:
      closed, key kept, nothing dispatched. */
  function AutoCloseStep(s: PopupState): PopupState
  {
    s.(isOpen := false)
  }

  /** `handleNotificationDismissed`: only the id on screen closes the popup and clears the key. */
  function ExternalDismissStep(s: PopupState, detail: string): PopupState
  {
    if s.data.Some? && detail == s.data.value.notificationId then s.(isOpen := false, lastShownAppId := "")
    else s
  }

  /** `handleDismiss`: close, clear the key and announce the id on screen. */
  function DismissStep(s: PopupState): DismissResult
  {
    DismissResult(s.(isOpen := false, lastShownAppId := ""),
                  if s.data.Some? then Some(s.data.value.notificationId) else None)
  }

  /** The rendered output. */
  function ViewOf(s: PopupState): (v: PopupView)
    ensures v == Nothing <==> s.data.None?
    ensures v.Dialog? <==> s.data.Some? && s.isOpen
    ensures v.Dialog? ==> v.title == s.data.value.title && v.body == s.data.value.body
  {
    match s.data
    case None => Nothing
    case Some(d) => if s.isOpen then Dialog(d.title, d.body) else Closed
  }

  // ---------------------------------------------------------------------------
  // Properties

  /** A show event is skipped exactly when its key is the remembered one; otherwise the
      popup opens on the new data, remembers the new key (or keeps the old one when there is
      none) and acknowledges the same id. */
  lemma ShowStepSpec(s: PopupState, req: AlertRequest)
    ensures var r := ShowStep(s, req);
      var key := AppIdKey(req.notificationId);
      (r.ack.None? <==> key != "" && key == s.lastShownAppId) &&
      (r.ack.None? ==> r.state == s) &&
      (r.ack.Some? ==>
         r.ack.value == req.notificationId && r.state.isOpen &&
         r.state.data == Some(NotificationData(req.title, req.body, req.notificationId, req.appName)) &&
         r.state.lastShownAppId == (if key != "" then key else s.lastShownAppId))
  {
  }

  /** After the popup for an application closed by itself, the next alert for the same
      application is still skipped. */
  lemma AutoCloseSuppressesRepeat(s: PopupState, first: AlertRequest, next: AlertRequest)
    requires AppIdKey(first.notificationId) != ""
    requires AppIdKey(next.notificationId) == AppIdKey(first.notificationId)
    ensures var t := AutoCloseStep(ShowStep(s, first).state);
      ShowStep(t, next) == ShowResult(t, None) && !t.isOpen
  {
    var r := ShowStep(s, first);
    assert r.state.lastShownAppId == AppIdKey(first.notificationId);
  }

  /** After a dismissal, by hand or by the id on screen, any alert is shown again. */
  lemma DismissAllowsRepeat(s: PopupState, req: AlertRequest)
    ensures ShowStep(DismissStep(s).state, req).ack == Some(req.notificationId)
    ensures s.data.Some? ==>
      ShowStep(ExternalDismissStep(s, s.data.value.notificationId), req).ack == Some(req.notificationId)
  {
  }

  /** An external dismissal acts exactly when it names the id on screen. */
  lemma ExternalDismissSpec(s: PopupState, detail: string)
    ensures var t := ExternalDismissStep(s, detail);
      (t != s ==> s.data.Some? && detail == s.data.value.notificationId) &&
      (s.data.Some? && detail == s.data.value.notificationId ==>
         !t.isOpen && t.lastShownAppId == "" && t.data == s.data)
  {
  }

  /** The popup hears its own dismissal, and hearing it changes nothing more. */
  lemma DismissEchoIdempotent(s: PopupState)
    ensures var r := DismissStep(s);
      (r.emitted.Some? <==> s.data.Some?) &&
      (r.emitted.Some? ==> ExternalDismissStep(r.state, r.emitted.value) == r.state) &&
      !r.state.isOpen && r.state.data == s.data
  {
  }

  /** Dismissing the popup for an alert the focus-mode handler raised clears that alert in
      the provider too, since the announced id contains the application's name. */
  lemma DismissClearsFocusAlert(fs: FocusState, appName: string, now: int, p: PopupState)
    requires AlertStep(fs, appName, now).alert.Some?
    requires ShowStep(p, AlertStep(fs, appName, now).alert.value).ack.Some?
    ensures var h := AlertStep(fs, appName, now);
      var shown := ShowStep(p, h.alert.value).state;
      var d := DismissStep(shown);
      d.emitted == Some(AlertId(appName, now)) &&
      !DismissedStep(h.state, d.emitted.value).showingAlert
  {
    DismissOwnAlert(fs, appName, now);
  }

  /** Nothing is drawn before the first alert arrives, and a shown alert is drawn with its
      title and body. */
  lemma ViewAfterShow(req: AlertRequest)
    ensures ViewOf(InitialPopup) == Nothing
    ensures ViewOf(ShowStep(InitialPopup, req).state) == Dialog(req.title, req.body)
  {
  }

  // ---------------------------------------------------------------------------
  // The component

  class RichMediaPopup {
    var isOpen: bool
    var data: Option<NotificationData>
    var lastShownAppId: string

    function State(): PopupState
      reads this
    {
      PopupState(isOpen, data, lastShownAppId)
    }

    constructor()
      ensures State() == InitialPopup
    {
      isOpen := false;
      data := None;
      lastShownAppId := "";
    }

    /** The `show-focus-popup` listener; the result is the acknowledgement it dispatches. */
    method HandleShowFocusPopup(req: AlertRequest) returns (ack: Option<string>)
      modifies this
      ensures State() == ShowStep(old(State()), req).state
      ensures ack == ShowStep(old(State()), req).ack
    {
      var key := AppIdKey(req.notificationId);
      if key != "" && key == lastShownAppId {
        ack := None;
        return;
      }
      if key != "" {
        lastShownAppId := key;
      }
      data := Some(NotificationData(req.title, req.body, req.notificationId, req.appName));
      isOpen := true;
      ack := Some(req.notificationId);
    }

    /** The timer set by the show listener; also the dialog's Escape and overlay close. */
    method AutoClose()
      modifies this
      ensures State() == AutoCloseStep(old(State()))
    {
      isOpen := false;
    }

    /** The `notification-dismissed` listener. */
    method HandleNotificationDismissed(detail: string)
      modifies this
      ensures State() == ExternalDismissStep(old(State()), detail)
    {
      if data.Some? && detail == data.value.notificationId {
        isOpen := false;
        lastShownAppId := "";
      }
    }

    /** The close and "Dismiss" buttons; the result is the detail it dispatches. */
    method HandleDismiss() returns (emitted: Option<string>)
      modifies this
      ensures State() == DismissStep(old(State())).state
      ensures emitted == DismissStep(old(State())).emitted
    {
      isOpen := false;
      lastShownAppId := "";
      emitted := if data.Some? then Some(data.value.notificationId) else None;
    }

  }
}
