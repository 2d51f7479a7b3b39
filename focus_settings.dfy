/** The focus-mode settings card: a text field with an Add button, a shortcut that adds the
    app in front, and the whitelist rows, the current app's highlighted. */
module FocusSettingsForm {
  import opened JsStrings
  import opened FocusSession
  import opened FocusProvider
  import AppUsage

  /** What the Add button hands to `addToWhitelist`: the typed name trimmed; with nothing
      typed, the current app as it is; with neither, nothing. */
  function AddDecision(input: string, currentApp: string): (r: Option<string>)
    ensures Trim(input) != "" ==> r == Some(Trim(input))
    ensures Trim(input) == "" && currentApp != "" ==> r == Some(currentApp)
    ensures Trim(input) == "" && currentApp == "" ==> r == None
  {
    if Trim(input) != "" then Some(Trim(input))
    else if currentApp != "" then Some(currentApp)
    else None
  }

  /** A typed name is added trimmed and lands in the whitelist, whichever provider serves the
      card; before the click it was there only if it was there already. */
  lemma TypedNameAdded(s: FocusState, input: string)
    requires Trim(input) != ""
    ensures var d := AddDecision(input, s.currentActiveApp);
      d.Some? && Trim(d.value) == d.value && d.value in AddStep(s, d.value).whitelist
    ensures var d := AddDecision(input, s.currentActiveApp);
      forall x :: x in AddStep(s, d.value).whitelist <==> x in s.whitelist || x == d.value
  {
    TrimIdempotent(input);
    AddStepMembers(s, Trim(input));
  }

  /** `currentActiveApp && currentActiveApp.toLowerCase().includes(app.toLowerCase())` */
  predicate RowHighlighted(currentApp: string, entry: string)
  {
    currentApp != "" && Contains(Lower(currentApp), Lower(entry))
  }

  /** A highlighted row is one that earns the current app the dashboard's Allowed badge; the
      current app's own row is highlighted, and without a current app none is. */
  lemma HighlightedRows(currentApp: string, whitelist: seq<string>, i: nat)
    requires i < |whitelist|
    ensures RowHighlighted(currentApp, whitelist[i]) ==> AppUsage.IsAppWhitelisted(currentApp, whitelist)
    ensures currentApp != "" && Lower(whitelist[i]) == Lower(currentApp) ==> RowHighlighted(currentApp, whitelist[i])
    ensures currentApp == "" ==> !RowHighlighted(currentApp, whitelist[i])
  {
    if RowHighlighted(currentApp, whitelist[i]) {
      assert EitherContains(Lower(currentApp), Lower(whitelist[i]));
    }
    if Lower(whitelist[i]) == Lower(currentApp) {
      ContainsSelf(Lower(currentApp));
    }
  }

  class WhitelistForm {
    const focus: FocusModeProvider
    var newApp: string

    constructor(f: FocusModeProvider)
      ensures focus == f && newApp == ""
    {
      focus := f;
      newApp := "";
    }

    method OnInput(text: string)
      modifies this
      ensures newApp == text
    {
      newApp := text;
    }

    /** `handleAddToWhitelist()`: a typed name clears the field once added; the current app is
        added without touching the field. */
    method HandleAddToWhitelist()
      requires focus.Valid()
      modifies this, focus
      ensures var d := AddDecision(old(newApp), old(focus.currentActiveApp));
        focus.State() == (if d.Some? then AddStep(old(focus.State()), d.value) else old(focus.State()))
      ensures newApp == (if Trim(old(newApp)) != "" then "" else old(newApp))
      ensures focus.Valid()
    {
      var typed := Trim(newApp);
      if typed != "" {
        focus.AddToWhitelist(typed);
        newApp := "";
      } else if focus.currentActiveApp != "" {
        focus.AddToWhitelist(focus.currentActiveApp);
      }
    }

    /** `handleAddCurrentApp()`: adds the app in front, if any, and says so in a toast. */
    method HandleAddCurrentApp() returns (toastText: Option<string>)
      requires focus.Valid()
      modifies focus
      ensures var app := old(focus.currentActiveApp);
        focus.State() == (if app != "" then AddStep(old(focus.State()), app) else old(focus.State())) &&
        toastText == (if app != "" then Some("Added " + app + " to whitelist") else None)
      ensures focus.Valid()
    {
      var app := focus.currentActiveApp;
      toastText := None;
      if app != "" {
        focus.AddToWhitelist(app);
        toastText := Some("Added " + app + " to whitelist");
      }
    }
  }
}
