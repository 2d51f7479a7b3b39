/** The Focus Mode allow-list matcher: turning a window title into an application name,
    normalising names, and the ordered chain of rules that decides whether an application
    is on the allow-list. Both copies of the provider carry a matcher; they differ in the
    bundle-id rule, the token rule and the browser rule, so the variant is a parameter. */
module AppMatcher {
  import opened JsStrings

  /** Which copy of the focus-mode provider: the TypeScript one or the JavaScript one. */
  datatype Variant = Tsx | Jsx

  // ---------------------------------------------------------------------------
  // extractAppName: /^(.*?)(?:\s[-–—]\s|\s\|\s|\s:|\s\d|$)/, group 1, trimmed

  predicate IsDash(c: char)
  {
    c == '-' || c == '\U{2013}' || c == '\U{2014}'
  }

  /** One of the title separators starts at i, or i is the end of the title:
      a space followed by a dash and a space, by a bar and a space, by a colon, or by a digit. */
  predicate SeparatorAt(s: string, i: int)
  {
    0 <= i <= |s| &&
    (i == |s| ||
     (IsSpace(s[i]) && i + 1 < |s| &&
      ((IsDash(s[i + 1]) && i + 2 < |s| && IsSpace(s[i + 2])) ||
       (s[i + 1] == '|' && i + 2 < |s| && IsSpace(s[i + 2])) ||
       s[i + 1] == ':' ||
       IsDigit(s[i + 1]))))
  }

  /** k is where the lazy group ends: the first separator, reached without crossing a line
      terminator (which `.` cannot match). */
  predicate SegmentEnd(s: string, k: int)
  {
    SeparatorAt(s, k) && forall j :: 0 <= j < k ==> !SeparatorAt(s, j) && !IsLineTerminator(s[j])
  }

  /** The lazy scan of the regular expression from position i. */
  function CaptureEnd(s: string, i: nat): (r: Option<nat>)
    requires i <= |s|
    requires forall j :: 0 <= j < i ==> !SeparatorAt(s, j) && !IsLineTerminator(s[j])
    decreases |s| - i
    ensures r.Some? ==> SegmentEnd(s, r.value)
    ensures r.None? ==> forall k :: !SegmentEnd(s, k)
  {
    if SeparatorAt(s, i) then Some(i)
    else if IsLineTerminator(s[i]) then None
    else CaptureEnd(s, i + 1)
  }

  lemma SegmentEndUnique(s: string, k1: int, k2: int)
    requires SegmentEnd(s, k1) && SegmentEnd(s, k2)
    ensures k1 == k2
  {
  }

  /** `extractAppName(title)` */
  function ExtractAppName(title: string): (r: string)
    ensures title == "" ==> r == ""
    ensures r == [] || (!IsSpace(r[0]) && !IsSpace(r[|r| - 1]))
    ensures forall k :: SegmentEnd(title, k) && Trim(title[..k]) != "" ==> r == Trim(title[..k])
    ensures forall k :: SegmentEnd(title, k) && Trim(title[..k]) == "" ==> r == Trim(title)
    ensures (forall k :: !SegmentEnd(title, k)) ==> r == Trim(title)
  {
    if title == "" then ""
    else
      match CaptureEnd(title, 0)
      case Some(k) => if Trim(title[..k]) != "" then Trim(title[..k]) else Trim(title)
      case None => Trim(title)
  }

  lemma TrimIsInfix(s: string)
    ensures Contains(s, Trim(s))
  {
    var a, b := TrimShape(s);
    assert OccursAt(s, Trim(s), a);
  }

  lemma TrimmedPrefixIsInfix(title: string, k: nat)
    requires k <= |title|
    ensures Contains(title, Trim(title[..k]))
  {
    var a, b := TrimShape(title[..k]);
    assert Trim(title[..k]) == title[a..b];
    assert OccursAt(title, Trim(title[..k]), a);
  }

  /** The extracted name is always a piece of the title. */
  lemma ExtractAppNameInTitle(title: string)
    ensures Contains(title, ExtractAppName(title))
  {
    TrimIsInfix(title);
    if title != "" {
      match CaptureEnd(title, 0)
      case Some(k) => TrimmedPrefixIsInfix(title, k);
      case None =>
    }
  }

  /** A separator inside a slice of the title is a separator of the title. */
  lemma SeparatorInSlice(t: string, a: nat, b: nat, j: nat)
    requires a <= b <= |t| && j < b - a && SeparatorAt(t[a..b], j)
    ensures SeparatorAt(t, a + j)
  {
  }

  /** A name taken from the leading segment of a title is extracted from itself unchanged. */
  lemma ExtractAppNameIdempotentOnSegment(title: string, k: nat)
    requires SegmentEnd(title, k) && Trim(title[..k]) != ""
    ensures ExtractAppName(ExtractAppName(title)) == ExtractAppName(title)
  {
    var seg := title[..k];
    var c := Trim(seg);
    var a, b := TrimShape(seg);
    assert c == title[a..b];
    forall j | 0 <= j < |c|
      ensures !SeparatorAt(c, j) && !IsLineTerminator(c[j])
    {
      if SeparatorAt(c, j) {
        SeparatorInSlice(title, a, b, j);
      }
    }
    assert SegmentEnd(c, |c|);
    assert c[..|c|] == c;
    TrimOfTrimmed(c);
  }

  /** Extraction is not idempotent in general: a blank leading segment falls back to the whole
      trimmed title, which can itself have a separator. */
  lemma ExtractAppNameNotIdempotent()
    ensures ExtractAppName(" - 1") == "- 1"
    ensures ExtractAppName("- 1") == "-"
  {
    assert SegmentEnd(" - 1", 0);
    assert " - 1"[..0] == "";
    assert Trim(" - 1") == "- 1" by {
      assert SkipSpaces(" - 1", 0) == 1;
    }
    assert SegmentEnd("- 1", 1);
    assert "- 1"[..1] == "-";
    TrimOfTrimmed("-");
  }

  /** A typical title is cut at the em-dash. */
  lemma ExtractAppNameExample()
    ensures ExtractAppName("Slack \U{2014} general") == "Slack"
  {
    var t := "Slack \U{2014} general";
    assert SegmentEnd(t, 5);
    assert t[..5] == "Slack";
    TrimOfTrimmed("Slack");
  }

  // ---------------------------------------------------------------------------
  // Normalisation: toLowerCase().replace(/[^\w\s.-]/g, '')

  /** The characters normalisation keeps. */
  predicate IsNameChar(c: char)
  {
    IsWordChar(c) || IsSpace(c) || c == '.' || c == '-'
  }

  function Normalize(s: string): (r: string)
    ensures |r| <= |s|
    ensures forall i :: 0 <= i < |r| ==> IsNameChar(r[i]) && !('A' <= r[i] <= 'Z')
  {
    if s == [] then []
    else (if IsNameChar(LowerChar(s[0])) then [LowerChar(s[0])] else []) + Normalize(s[1..])
  }

  lemma {:induction false} NormalizeAppend(a: string, b: string)
    ensures Normalize(a + b) == Normalize(a) + Normalize(b)
    decreases |a|
  {
    if a != [] {
      var h := if IsNameChar(LowerChar(a[0])) then [LowerChar(a[0])] else [];
      assert (a + b)[0] == a[0] && (a + b)[1..] == a[1..] + b;
      assert Normalize(a + b) == h + Normalize(a[1..] + b);
      NormalizeAppend(a[1..], b);
      assert h + (Normalize(a[1..]) + Normalize(b)) == (h + Normalize(a[1..])) + Normalize(b);
    } else {
      assert a + b == b;
    }
  }

  /** Normalising a normalised name changes nothing. */
  lemma {:induction false} NormalizeIdempotent(s: string)
    ensures Normalize(Normalize(s)) == Normalize(s)
    decreases |s|
  {
    if s != [] {
      var head := if IsNameChar(LowerChar(s[0])) then [LowerChar(s[0])] else [];
      NormalizeAppend(head, Normalize(s[1..]));
      NormalizeIdempotent(s[1..]);
    }
  }

  /** Normalisation ignores letter case. */
  lemma {:induction false} NormalizeLower(s: string)
    ensures Normalize(Lower(s)) == Normalize(s)
    decreases |s|
  {
    if s != [] {
      assert Lower(s)[1..] == Lower(s[1..]);
      NormalizeLower(s[1..]);
    }
  }

  /** Inclusion survives normalisation. */
  lemma ContainsNormalize(s: string, t: string)
    requires Contains(s, t)
    ensures Contains(Normalize(s), Normalize(t))
  {
    var i :| 0 <= i <= |s| - |t| && OccursAt(s, t, i);
    assert s == s[..i] + t + s[i + |t|..];
    NormalizeAppend(s[..i] + t, s[i + |t|..]);
    NormalizeAppend(s[..i], t);
    ContainsSelf(Normalize(t));
    ContainsInfix(Normalize(s[..i]), Normalize(t), Normalize(s[i + |t|..]), Normalize(t));
  }

  /** Case-insensitive inclusion, the comparison the dashboard, the alert guard and the
      settings list use, implies inclusion of the normalised forms. */
  lemma ContainsLowerNormalize(s: string, t: string)
    requires Contains(Lower(s), Lower(t))
    ensures Contains(Normalize(s), Normalize(t))
  {
    ContainsNormalize(Lower(s), Lower(t));
    NormalizeLower(s);
    NormalizeLower(t);
  }

  // ---------------------------------------------------------------------------
  // Process name: /([^\\\/]+)(?:\.exe)?$/i, group 1, lower-cased

  predicate IsSlash(c: char)
  {
    c == '/' || c == '\\'
  }

  /** Smallest k such that s[k..j] has no slash. */
  function SegmentStart(s: string, j: nat): (k: nat)
    requires j <= |s|
    ensures k <= j
    ensures forall m :: k <= m < j ==> !IsSlash(s[m])
    ensures k > 0 ==> IsSlash(s[k - 1])
  {
    if j > 0 && !IsSlash(s[j - 1]) then SegmentStart(s, j - 1) else j
  }

  /** The first start position from which a non-empty run of non-slashes reaches the end is
      the one after the last slash; the greedy group takes the whole run, `.exe` included. */
  function ProcessName(s: string): (r: string)
    ensures r == "" <==> s == "" || IsSlash(s[|s| - 1])
    ensures forall c :: c in r ==> !IsSlash(c)
  {
    var k := SegmentStart(s, |s|);
    if k < |s| then Lower(s[k..]) else ""
  }

  lemma LowerNormalized(s: string)
    ensures Lower(Normalize(s)) == Normalize(s)
  {
  }

  /** Normalisation removes both slashes, so the process name is the whole normalised name. */
  lemma ProcessNameOfNormalized(name: string)
    ensures ProcessName(Normalize(name)) == Normalize(name)
  {
    var n := Normalize(name);
    assert SegmentStart(n, |n|) == 0;
    LowerNormalized(name);
  }

  // ---------------------------------------------------------------------------
  // The window descriptor the matcher consults

  /** The owner of the active window; an empty string stands for an absent field. */
  datatype Owner = Owner(name: string, path: string, bundleId: string)

  predicate HasBundleId(owner: Option<Owner>)
  {
    owner.Some? && owner.value.bundleId != ""
  }

  predicate HasPath(owner: Option<Owner>)
  {
    owner.Some? && owner.value.path != ""
  }

  predicate IsDot(c: char)
  {
    c == '.'
  }

  /** Some component of `bundleId.toLowerCase().split('.')` includes the entry or is included in it. */
  predicate BundleRule(bundleId: string, entry: string)
  {
    exists part | part in Split(Lower(bundleId), IsDot, false) :: EitherContains(part, entry)
  }

  /** Last component of `path.toLowerCase().split(/[/\\]/)`. */
  function ExeName(path: string): string
  {
    Last(Split(Lower(path), IsSlash, false))
  }

  /** `replace(/\.exe$/i, '')` */
  function StripExe(x: string): (r: string)
    ensures |r| <= |x| && r == x[..|r|]
  {
    if |x| >= 4 && Lower(x[|x| - 4..]) == ".exe" then x[..|x| - 4] else x
  }

  predicate PathRule(path: string, entry: string)
  {
    var x := ExeName(path);
    (x != "" && EitherContains(x, entry)) || (StripExe(x) != "" && EitherContains(StripExe(x), entry))
  }

  /** Token separators of /[\s-_\.]+/: whitespace, '-', '_' and '.' (the '-' after a class
      escape is a literal). */
  predicate IsTokenSeparator(c: char)
  {
    IsSpace(c) || c == '-' || c == '_' || c == '.'
  }

  function Tokens(s: string): seq<string>
  {
    Split(s, IsTokenSeparator, true)
  }

  /** `filter(part => part.length > 2)` */
  function LongTokens(parts: seq<string>): (r: seq<string>)
    ensures forall p :: p in r <==> p in parts && |p| > 2
  {
    if parts == [] then []
    else (if |parts[0]| > 2 then [parts[0]] else []) + LongTokens(parts[1..])
  }

  /** Some token of the entry and some token of the name, each longer than two characters,
      include one another. */
  predicate TokenRuleTsx(name: string, entry: string)
  {
    exists ep | ep in LongTokens(Tokens(entry)) ::
      exists np | np in LongTokens(Tokens(name)) :: EitherContains(np, ep)
  }

  /** Some token of the name includes the whole entry or is included in it. */
  predicate TokenRuleJsx(name: string, entry: string)
  {
    exists np | np in Tokens(name) :: EitherContains(np, entry)
  }

  const BrowserNames: seq<string> := ["chrome", "firefox", "safari", "edge", "opera", "brave"]

  predicate BrowserRule(name: string, entry: string)
  {
    (exists b | b in BrowserNames :: Contains(name, b) || Contains(entry, b)) &&
    (exists b | b in BrowserNames ::
       (Contains(name, b) && Contains(entry, b)) ||
       (Contains(name, "microsoft") && Contains(entry, "edge")) ||
       (Contains(name, "edge") && Contains(entry, "microsoft")))
  }

  /** The browser gate adds nothing: the rule holds exactly when both mention the same
      browser or the pair is Microsoft / Edge. */
  lemma BrowserRuleUngated(name: string, entry: string)
    ensures BrowserRule(name, entry) <==>
      (exists b | b in BrowserNames :: Contains(name, b) && Contains(entry, b)) ||
      (Contains(name, "microsoft") && Contains(entry, "edge")) ||
      (Contains(name, "edge") && Contains(entry, "microsoft"))
  {
    assert BrowserNames[3] == "edge";
  }

  // ---------------------------------------------------------------------------
  // The matcher

  /** The name's own rule: the companion app itself is never blocked. */
  predicate SelfRule(n: string, pn: string)
  {
    Contains(n, "electron") || Contains(n, "mindful desktop companion") ||
    (pn != "" && (Contains(pn, "electron") || Contains(pn, "mindful")))
  }

  /** Verdict for one normalised entry `e`, the rules tried in the source's order. */
  function EntryVerdict(v: Variant, n: string, pn: string, e: string, owner: Option<Owner>): bool
  {
    if n == e then true
    else if EitherContains(n, e) then true
    else if pn != "" && EitherContains(e, pn) then true
    else if HasBundleId(owner) && v == Jsx then BundleRule(owner.value.bundleId, e)
    else if HasBundleId(owner) && BundleRule(owner.value.bundleId, e) then true
    else if HasPath(owner) && PathRule(owner.value.path, e) then true
    else if v == Tsx then TokenRuleTsx(n, e) || BrowserRule(n, e)
    else TokenRuleJsx(n, e)
  }

  /** `isAppInWhitelist(appName, whitelist)` with the active window's owner made explicit. */
  function IsAppInWhitelist(v: Variant, appName: string, whitelist: seq<string>, owner: Option<Owner>): (r: bool)
    ensures appName == "" ==> !r
  {
    if appName == "" then false
    else
      var n := Normalize(appName);
      var pn := ProcessName(n);
      if SelfRule(n, pn) then true
      else exists e | e in whitelist :: EntryVerdict(v, n, pn, Normalize(e), owner)
  }

  /** What the self rule amounts to on a normalised name. */
  predicate MentionsSelf(n: string)
  {
    Contains(n, "electron") || Contains(n, "mindful")
  }

  /** Since the process name is the normalised name and "mindful desktop companion" mentions
      "mindful", the self rule holds exactly for names mentioning "electron" or "mindful". */
  lemma SelfRuleOfNormalized(appName: string)
    ensures SelfRule(Normalize(appName), ProcessName(Normalize(appName))) <==> MentionsSelf(Normalize(appName))
  {
    ProcessNameOfNormalized(appName);
    SelfRuleOnName(Normalize(appName));
  }

  lemma SelfRuleOnName(n: string)
    ensures SelfRule(n, n) <==> MentionsSelf(n)
  {
    if Contains(n, "mindful desktop companion") {
      CompanionMentionsMindful();
      ContainsTrans(n, "mindful desktop companion", "mindful");
    }
  }

  lemma CompanionMentionsMindful()
    ensures Contains("mindful desktop companion", "mindful")
  {
    assert OccursAt("mindful desktop companion", "mindful", 0);
  }

  /** With an empty list only the companion app itself is allowed. */
  lemma EmptyListAllowsOnlySelf(v: Variant, appName: string, owner: Option<Owner>)
    ensures IsAppInWhitelist(v, appName, [], owner) <==> appName != "" && MentionsSelf(Normalize(appName))
  {
    SelfRuleOfNormalized(appName);
  }

  /** The companion app is allowed whatever the list: any name whose normalised form mentions
      "electron" or "mindful". */
  lemma SelfAppAlwaysAllowed(v: Variant, appName: string, whitelist: seq<string>, owner: Option<Owner>)
    requires MentionsSelf(Normalize(appName))
    ensures IsAppInWhitelist(v, appName, whitelist, owner)
  {
    SelfRuleOfNormalized(appName);
  }

  /** An entry that includes the name, or is included in it, after normalisation allows it
      (in particular an entry equal to the name up to case and stripped characters). */
  lemma IncludedEntryAllows(v: Variant, appName: string, whitelist: seq<string>, owner: Option<Owner>, entry: string)
    requires appName != "" && entry in whitelist
    requires EitherContains(Normalize(appName), Normalize(entry))
    ensures IsAppInWhitelist(v, appName, whitelist, owner)
  {
    var n := Normalize(appName);
    assert EntryVerdict(v, n, ProcessName(n), Normalize(entry), owner);
  }

  /** The dashboard's case-insensitive test implies the provider's verdict: a non-empty name
      that includes an entry, or is included in it, ignoring case, is allowed. */
  lemma OverlapAllows(v: Variant, appName: string, whitelist: seq<string>, owner: Option<Owner>, entry: string)
    requires appName != "" && entry in whitelist
    requires EitherContains(Lower(appName), Lower(entry))
    ensures IsAppInWhitelist(v, appName, whitelist, owner)
  {
    if Contains(Lower(appName), Lower(entry)) {
      ContainsLowerNormalize(appName, entry);
    } else {
      ContainsLowerNormalize(entry, appName);
    }
    IncludedEntryAllows(v, appName, whitelist, owner, entry);
  }

  /** A name made only of stripped characters (a symbol, an emoji) normalises to nothing and is
      allowed by any non-empty list. */
  lemma SymbolNameAllowedByAnyList(v: Variant, appName: string, whitelist: seq<string>, owner: Option<Owner>)
    requires appName != "" && Normalize(appName) == "" && whitelist != []
    ensures IsAppInWhitelist(v, appName, whitelist, owner)
  {
    ContainsEmpty(Normalize(whitelist[0]));
    IncludedEntryAllows(v, appName, whitelist, owner, whitelist[0]);
  }

  /** Adding entries never revokes a verdict. */
  lemma WhitelistMonotone(v: Variant, appName: string, wl1: seq<string>, wl2: seq<string>, owner: Option<Owner>)
    requires forall e :: e in wl1 ==> e in wl2
    requires IsAppInWhitelist(v, appName, wl1, owner)
    ensures IsAppInWhitelist(v, appName, wl2, owner)
  {
  }

  /** Without an allowing rule for any entry the name is refused. */
  lemma NoRuleRefuses(v: Variant, appName: string, whitelist: seq<string>, owner: Option<Owner>)
    requires !MentionsSelf(Normalize(appName))
    requires forall e :: e in whitelist ==>
      !EntryVerdict(v, Normalize(appName), Normalize(appName), Normalize(e), owner)
    ensures !IsAppInWhitelist(v, appName, whitelist, owner)
  {
    SelfRuleOfNormalized(appName);
    ProcessNameOfNormalized(appName);
  }

  /** Two long tokens that include one another allow the name in the TypeScript copy. */
  lemma TokenRuleAllowsTsx(appName: string, whitelist: seq<string>, owner: Option<Owner>, entry: string, np: string, ep: string)
    requires appName != "" && entry in whitelist && !HasBundleId(owner)
    requires np in Tokens(Normalize(appName)) && ep in Tokens(Normalize(entry))
    requires |np| > 2 && |ep| > 2 && EitherContains(np, ep)
    ensures IsAppInWhitelist(Tsx, appName, whitelist, owner)
  {
    var n := Normalize(appName);
    assert np in LongTokens(Tokens(n)) && ep in LongTokens(Tokens(Normalize(entry)));
    assert TokenRuleTsx(n, Normalize(entry));
    assert EntryVerdict(Tsx, n, ProcessName(n), Normalize(entry), owner);
  }

  /** Both mentioning the same browser allows the name in the TypeScript copy. */
  lemma BrowserRuleAllowsTsx(appName: string, whitelist: seq<string>, owner: Option<Owner>, entry: string, b: string)
    requires appName != "" && entry in whitelist && !HasBundleId(owner)
    requires b in BrowserNames && Contains(Normalize(appName), b) && Contains(Normalize(entry), b)
    ensures IsAppInWhitelist(Tsx, appName, whitelist, owner)
  {
    var n := Normalize(appName);
    assert BrowserRule(n, Normalize(entry));
    assert EntryVerdict(Tsx, n, ProcessName(n), Normalize(entry), owner);
  }

  /** In the JavaScript copy a bundle id decides every entry that the name rules did not
      allow: the executable path is never consulted. */
  lemma JsxBundleIdShadowsPath(n: string, e: string, name: string, path1: string, path2: string, bundleId: string)
    requires bundleId != ""
    ensures EntryVerdict(Jsx, n, n, e, Some(Owner(name, path1, bundleId)))
         == EntryVerdict(Jsx, n, n, e, Some(Owner(name, path2, bundleId)))
    ensures !EitherContains(n, e) ==>
      (EntryVerdict(Jsx, n, n, e, Some(Owner(name, path1, bundleId))) <==> BundleRule(bundleId, e))
  {
    if n == e {
      ContainsSelf(n);
    }
  }

  lemma JsxTokenVerdict(n: string, e: string, owner: Option<Owner>)
    requires !HasBundleId(owner) && TokenRuleJsx(n, e)
    ensures EntryVerdict(Jsx, n, n, e, owner)
  {
  }

  /** In the JavaScript copy the token rule has no length filter: a name whose normalised form
      starts or ends with a separator has an empty token, which every entry includes, so with
      no bundle id such a name is allowed by any non-empty list. */
  lemma JsxEmptyTokenAllowsAll(appName: string, whitelist: seq<string>, owner: Option<Owner>)
    requires appName != "" && whitelist != [] && !HasBundleId(owner)
    requires |Normalize(appName)| > 0
    requires IsTokenSeparator(Normalize(appName)[0]) || IsTokenSeparator(Last(Normalize(appName)))
    ensures IsAppInWhitelist(Jsx, appName, whitelist, owner)
  {
    var n := Normalize(appName);
    if IsTokenSeparator(n[0]) {
      SplitLeadingSeparator(n, IsTokenSeparator, true);
    } else {
      SplitTrailingSeparator(n, IsTokenSeparator, true);
    }
    assert "" in Tokens(n);
    var e := Normalize(whitelist[0]);
    ContainsEmpty(e);
    assert EitherContains("", e);
    assert TokenRuleJsx(n, e);
    JsxTokenVerdict(n, e, owner);
    ProcessNameOfNormalized(appName);
    assert whitelist[0] in whitelist;
  }
}
