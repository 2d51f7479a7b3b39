/** The dashboard's app-usage card: the list pushed by the tray service is shown most recently
    active first, each row with its usage time and, during a focus session, an Allowed/Blocked
    badge. */
module AppUsage {
  import opened JsStrings

  datatype UsageType = Productive | Distraction | Communication

  /** One row. `lastActiveTime` is 0 when the tray service sent none (both are falsy). */
  datatype UsageItem = UsageItem(name: string, time: int, kind: UsageType, lastActiveTime: int)

  // ---------------------------------------------------------------------------
  // Ordering

  /** The comparator handed to `sort`: negative puts `a` first. */
  function Compare(a: UsageItem, b: UsageItem): int
  {
    if a.lastActiveTime != 0 && b.lastActiveTime != 0 then b.lastActiveTime - a.lastActiveTime
    else if a.lastActiveTime != 0 then -1
    else if b.lastActiveTime != 0 then 1
    else b.time - a.time
  }

  /** `a` may come before `b` in the sorted list. */
  predicate Before(a: UsageItem, b: UsageItem)
  {
    Compare(a, b) <= 0
  }

  predicate Sorted(xs: seq<UsageItem>)
  {
    forall k, l :: 0 <= k < l < |xs| ==> Before(xs[k], xs[l])
  }

  /** An independent description of the order: rows with an activity stamp form the first
      group, newest first; the rest follow, longest use first. */
  function Group(a: UsageItem): (g: int)
    ensures g == 0 <==> a.lastActiveTime != 0
  {
    if a.lastActiveTime != 0 then 0 else 1
  }

  function Score(a: UsageItem): (v: int)
  {
    if a.lastActiveTime != 0 then a.lastActiveTime else a.time
  }

  /** The comparator agrees with ordering by group, then by descending score. */
  lemma CompareIsGroupThenScore(a: UsageItem, b: UsageItem)
    ensures Before(a, b) <==> Group(a) < Group(b) || (Group(a) == Group(b) && Score(a) >= Score(b))
    ensures Compare(a, b) < 0 <==> Group(a) < Group(b) || (Group(a) == Group(b) && Score(a) > Score(b))
  {
  }

  /** The comparator is consistent, so `sort` has a well-defined result: every two rows are
      comparable and the order is transitive. */
  lemma BeforeTotalPreorder(a: UsageItem, b: UsageItem, c: UsageItem)
    ensures Before(a, b) || Before(b, a)
    ensures Before(a, b) && Before(b, c) ==> Before(a, c)
    ensures Before(a, a)
  {
    CompareIsGroupThenScore(a, b);
    CompareIsGroupThenScore(b, c);
    CompareIsGroupThenScore(a, c);
  }

  /** What a sorted list looks like: no row without a stamp precedes one with a stamp, stamped
      rows are newest first and the others longest first. */
  lemma SortedMeaning(xs: seq<UsageItem>, k: nat, l: nat)
    requires Sorted(xs) && k < l < |xs|
    ensures xs[l].lastActiveTime != 0 ==> xs[k].lastActiveTime != 0
    ensures xs[k].lastActiveTime != 0 && xs[l].lastActiveTime != 0 ==>
      xs[k].lastActiveTime >= xs[l].lastActiveTime
    ensures xs[k].lastActiveTime == 0 && xs[l].lastActiveTime == 0 ==> xs[k].time >= xs[l].time
  {
    assert Before(xs[k], xs[l]);
  }

  /** `formattedAppUsage.sort(...)`: an insertion sort in place. */
  method SortByRecency(a: array<UsageItem>)
    modifies a
    ensures Sorted(a[..])
    ensures multiset(a[..]) == multiset(old(a[..]))
  {
    if a.Length == 0 {
      return;
    }
    var i := 1;
    while i < a.Length
      invariant 1 <= i <= a.Length
      invariant Sorted(a[..i])
      invariant multiset(a[..]) == multiset(old(a[..]))
    {
      InsertAt(a, i);
      i := i + 1;
    }
    assert a[..a.Length] == a[..];
  }

  /** Moves `a[i]` left past every row it must precede, leaving the first `i + 1` rows sorted. */
  method InsertAt(a: array<UsageItem>, i: nat)
    requires i < a.Length && Sorted(a[..i])
    modifies a
    ensures Sorted(a[..i + 1])
    ensures multiset(a[..]) == multiset(old(a[..]))
  {
    var j := i;
    assert Inserting(a[..], j, i);
    while j > 0 && !Before(a[j - 1], a[j])
      invariant 0 <= j <= i
      invariant multiset(a[..]) == multiset(old(a[..]))
      invariant Inserting(a[..], j, i)
    {
      ghost var before := a[..];
      InsertionSwapKeepsOrder(before, j, i);
      a[j - 1], a[j] := a[j], a[j - 1];
      assert a[..] == before[j - 1 := before[j]][j := before[j - 1]];
      j := j - 1;
    }
    InsertionDone(a[..], j, i);
  }

  /** Insertion of `s[j]` into the sorted prefix, part way: the rows before the hole are sorted,
      so are the rows from it to `i`, and every row before it precedes every row after it. */
  predicate Inserting(s: seq<UsageItem>, j: nat, i: nat)
    requires j <= i < |s|
  {
    (forall k, l :: 0 <= k < l < j ==> Before(s[k], s[l])) &&
    (forall k, l :: j <= k < l <= i ==> Before(s[k], s[l])) &&
    (forall k, l :: 0 <= k < j < l <= i ==> Before(s[k], s[l]))
  }

  /** One swap of the insertion step keeps the three ordering facts. */
  lemma InsertionSwapKeepsOrder(s: seq<UsageItem>, j: nat, i: nat)
    requires 0 < j <= i < |s|
    requires !Before(s[j - 1], s[j])
    requires Inserting(s, j, i)
    ensures Inserting(s[j - 1 := s[j]][j := s[j - 1]], j - 1, i)
  {
    var t := s[j - 1 := s[j]][j := s[j - 1]];
    BeforeTotalPreorder(s[j - 1], s[j], s[j]);
    forall k, l | 0 <= k < j - 1 < l <= i
      ensures Before(t[k], t[l])
    {
      if l == j {
        assert t[k] == s[k] && t[l] == s[j - 1];
      } else {
        assert t[k] == s[k] && t[l] == s[l];
      }
    }
    forall k, l | j - 1 <= k < l <= i
      ensures Before(t[k], t[l])
    {
      if k == j - 1 {
        if l == j {
          assert t[k] == s[j] && t[l] == s[j - 1];
        } else {
          assert t[k] == s[j] && t[l] == s[l];
        }
      }
    }
  }

  /** When the inserted row has settled, the first `i + 1` rows are sorted. */
  lemma InsertionDone(s: seq<UsageItem>, j: nat, i: nat)
    requires j <= i < |s|
    requires j == 0 || Before(s[j - 1], s[j])
    requires Inserting(s, j, i)
    ensures Sorted(s[..i + 1])
  {
    forall k, l | 0 <= k < l < i + 1
      ensures Before(s[k], s[l])
    {
      if k < j && l == j {
        if k < j - 1 {
          BeforeTotalPreorder(s[k], s[j - 1], s[j]);
        }
      }
    }
  }

  /** The listener: the pushed rows, copied and sorted. */
  method HandleAppUsageUpdate(appUsage: seq<UsageItem>) returns (shown: seq<UsageItem>)
    ensures Sorted(shown)
    ensures multiset(shown) == multiset(appUsage)
  {
    var a := new UsageItem[|appUsage|](i requires 0 <= i < |appUsage| => appUsage[i]);
    assert a[..] == appUsage;
    SortByRecency(a);
    shown := a[..];
  }

  // ---------------------------------------------------------------------------
  // `formatTime(timeValue)`

  const HourSeconds := 3600
  const HourMillis := 3600000

  /** The seconds a positive usage value stands for: above an hour's worth of milliseconds it
      is read as milliseconds, otherwise as seconds. */
  function UsageSeconds(t: int): (total: int)
    requires t >= 1
    ensures total >= 1
    ensures t > HourMillis ==> total * 1000 <= t < total * 1000 + 1000
    ensures t <= HourMillis ==> total == t
  {
    if t > HourMillis then t / 1000
    else if t > HourSeconds then t
    else if t < 1 then 1 else t
  }

  /** The usage column: hours and minutes, minutes and seconds, or seconds alone. */
  function FormatUsage(t: int): string
  {
    if t < 1 then "1s"
    else
      var total := UsageSeconds(t);
      var hours := total / 3600;
      var minutes := (total % 3600) / 60;
      var seconds := total % 60;
      if hours > 0 then NatToString(hours) + "h " + NatToString(minutes) + "m"
      else if minutes > 0 then NatToString(minutes) + "m " + NatToString(seconds) + "s"
      else NatToString(seconds) + "s"
  }

  /** From an hour up the text is `Hh Mm`, the hours at least one, the minutes below sixty,
      and it denotes the time rounded down to the minute. */
  lemma FormatUsageHours(t: int)
    requires t >= 1 && UsageSeconds(t) >= HourSeconds
    ensures exists hs: string, ms: string ::
      FormatUsage(t) == hs + "h " + ms + "m" && AllDigits(hs) && AllDigits(ms) &&
      DigitsValue(hs) >= 1 && DigitsValue(ms) < 60 &&
      DigitsValue(hs) * 3600 + DigitsValue(ms) * 60 <= UsageSeconds(t) < DigitsValue(hs) * 3600 + DigitsValue(ms) * 60 + 60
  {
    var total := UsageSeconds(t);
    var hs := NatToString(total / 3600);
    var ms := NatToString((total % 3600) / 60);
    DigitsRoundTrip(total / 3600);
    DigitsRoundTrip((total % 3600) / 60);
    assert FormatUsage(t) == hs + "h " + ms + "m";
  }

  /** Between a minute and an hour the text is `Mm Ss` and denotes the time exactly. */
  lemma FormatUsageMinutes(t: int)
    requires t >= 1 && 60 <= UsageSeconds(t) < HourSeconds
    ensures exists ms: string, ss: string ::
      FormatUsage(t) == ms + "m " + ss + "s" && AllDigits(ms) && AllDigits(ss) &&
      DigitsValue(ms) >= 1 && DigitsValue(ss) < 60 &&
      DigitsValue(ms) * 60 + DigitsValue(ss) == UsageSeconds(t)
  {
    var total := UsageSeconds(t);
    var ms := NatToString(total / 60);
    var ss := NatToString(total % 60);
    DigitsRoundTrip(total / 60);
    DigitsRoundTrip(total % 60);
    assert FormatUsage(t) == ms + "m " + ss + "s";
  }

  /** Under a minute the text is `Ss`, never `0s`: anything below one shows as one second. */
  lemma FormatUsageSeconds(t: int)
    requires t < 1 || UsageSeconds(t) < 60
    ensures exists ss: string ::
      FormatUsage(t) == ss + "s" && AllDigits(ss) &&
      1 <= DigitsValue(ss) < 60 && (t >= 1 ==> DigitsValue(ss) == UsageSeconds(t))
    ensures t < 1 ==> FormatUsage(t) == "1s"
  {
    if t < 1 {
      assert FormatUsage(t) == "1" + "s";
      assert DigitsValue("1") == 1;
    } else {
      var total := UsageSeconds(t);
      DigitsRoundTrip(total);
      assert FormatUsage(t) == NatToString(total) + "s";
    }
  }

  /** The unit guess switches at an hour's worth of milliseconds: just below, the value is
      read as a thousand hours; just above, as one hour. */
  lemma UsageUnitBoundary()
    ensures FormatUsage(HourMillis) == "1000h 0m"
    ensures FormatUsage(HourMillis + 1) == "1h 0m"
  {
    assert NatToString(10) == "10";
    assert NatToString(100) == NatToString(10) + "0";
    assert NatToString(1000) == NatToString(100) + "0";
    assert NatToString(0) == "0" && NatToString(1) == "1";
    assert UsageSeconds(HourMillis) == 3600000;
    assert FormatUsage(HourMillis) == NatToString(1000) + "h " + NatToString(0) + "m";
    assert UsageSeconds(HourMillis + 1) == 3600;
    assert FormatUsage(HourMillis + 1) == NatToString(1) + "h " + NatToString(0) + "m";
  }

  // ---------------------------------------------------------------------------
  // The Allowed/Blocked badge

  /** `isAppWhitelisted(name)`: some entry and the name contain one another, ignoring case. */
  predicate IsAppWhitelisted(appName: string, whitelist: seq<string>)
  {
    exists i :: 0 <= i < |whitelist| && EitherContains(Lower(appName), Lower(whitelist[i]))
  }

  /** The badge of a row: none outside a focus session. */
  function BadgeLabel(isFocusMode: bool, appName: string, whitelist: seq<string>): (r: Option<string>)
    ensures !isFocusMode <==> r.None?
    ensures r == Some("Allowed") <==> isFocusMode && IsAppWhitelisted(appName, whitelist)
    ensures r == Some("Blocked") <==> isFocusMode && !IsAppWhitelisted(appName, whitelist)
  {
    if !isFocusMode then None
    else if IsAppWhitelisted(appName, whitelist) then Some("Allowed")
    else Some("Blocked")
  }

  /** Nothing is allowed by an empty list; a listed name, in any case, is allowed; and a row
      whose name is empty is allowed by any non-empty list. */
  lemma BadgeCases(appName: string, whitelist: seq<string>)
    ensures whitelist == [] ==> !IsAppWhitelisted(appName, whitelist)
    ensures (exists i :: 0 <= i < |whitelist| && Lower(whitelist[i]) == Lower(appName)) ==>
      IsAppWhitelisted(appName, whitelist)
    ensures whitelist != [] && appName == "" ==> IsAppWhitelisted(appName, whitelist)
  {
    if exists i :: 0 <= i < |whitelist| && Lower(whitelist[i]) == Lower(appName) {
      var i :| 0 <= i < |whitelist| && Lower(whitelist[i]) == Lower(appName);
      ContainsSelf(Lower(appName));
    }
    if whitelist != [] && appName == "" {
      ContainsEmpty(Lower(whitelist[0]));
    }
  }

  /** The badge ignores case and grows with the list. */
  lemma BadgeCaseAndGrowth(appName: string, whitelist: seq<string>, more: seq<string>)
    ensures IsAppWhitelisted(Lower(appName), whitelist) == IsAppWhitelisted(appName, whitelist)
    ensures IsAppWhitelisted(appName, whitelist) ==> IsAppWhitelisted(appName, whitelist + more)
  {
    LowerIdempotent(appName);
    if IsAppWhitelisted(appName, whitelist) {
      var i :| 0 <= i < |whitelist| && EitherContains(Lower(appName), Lower(whitelist[i]));
      assert (whitelist + more)[i] == whitelist[i];
    }
  }
}
