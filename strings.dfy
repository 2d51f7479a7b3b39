/** String primitives with the semantics the application's JavaScript relies on:
    `String.prototype.trim`, `toLowerCase` (ASCII letters only), `includes`, `split`,
    `padStart`, `Number.prototype.toString` on integers and `replace` with a string pattern. */
module JsStrings {

  datatype Option<T> = None | Some(value: T)

  /** `m[k] || d` for a map whose absent keys read as `d`. */
  function GetOr<K, V>(m: map<K, V>, k: K, d: V): V
  {
    if k in m then m[k] else d
  }

  // ---------------------------------------------------------------------------
  // Character classes

  /** LineTerminator of ECMAScript: the characters `.` refuses to match. */
  predicate IsLineTerminator(c: char)
  {
    c == '\n' || c == '\r' || c == '\U{2028}' || c == '\U{2029}'
  }

  /** WhiteSpace or LineTerminator of ECMAScript: what `\s` matches and `trim` removes. */
  predicate IsSpace(c: char)
  {
    || c == '\t' || c == '\U{000B}' || c == '\U{000C}' || c == ' ' || c == '\U{00A0}'
    || c == '\U{1680}' || ('\U{2000}' <= c <= '\U{200A}') || c == '\U{202F}'
    || c == '\U{205F}' || c == '\U{3000}' || c == '\U{FEFF}' || IsLineTerminator(c)
  }

  /** `\d` */
  predicate IsDigit(c: char)
  {
    '0' <= c <= '9'
  }

  /** `\w` without the `u` flag: ASCII letters, digits and underscore. */
  predicate IsWordChar(c: char)
  {
    ('a' <= c <= 'z') || ('A' <= c <= 'Z') || IsDigit(c) || c == '_'
  }

  // ---------------------------------------------------------------------------
  // Lower-casing (ASCII)

  function LowerChar(c: char): char
  {
    if 'A' <= c <= 'Z' then (c as int + 32) as char else c
  }

  function Lower(s: string): (r: string)
    ensures |r| == |s|
    ensures forall i :: 0 <= i < |s| ==> r[i] == LowerChar(s[i])
  {
    seq(|s|, i requires 0 <= i < |s| => LowerChar(s[i]))
  }

  lemma LowerAppend(a: string, b: string)
    ensures Lower(a + b) == Lower(a) + Lower(b)
  {
    assert forall i :: 0 <= i < |a + b| ==> Lower(a + b)[i] == (Lower(a) + Lower(b))[i];
  }

  /** A lower-case letter absent from s in both cases is absent from its lower-cased form. */
  lemma LowerAvoids(s: string, c: char)
    requires 'a' <= c <= 'z' && c !in s && (c as int - 32) as char !in s
    ensures c !in Lower(s)
  {
    forall i | 0 <= i < |s|
      ensures Lower(s)[i] != c
    {
      assert s[i] != c && s[i] != (c as int - 32) as char;
    }
  }

  lemma LowerSlice(s: string, i: nat, j: nat)
    requires i <= j <= |s|
    ensures Lower(s[i..j]) == Lower(s)[i..j]
  {
    assert forall k :: 0 <= k < j - i ==> Lower(s[i..j])[k] == Lower(s)[i..j][k];
  }

  lemma LowerIdempotent(s: string)
    ensures Lower(Lower(s)) == Lower(s)
  {
  }

  // ---------------------------------------------------------------------------
  // Substrings

  /** t occurs in s at offset i. */
  predicate OccursAt(s: string, t: string, i: int)
  {
    0 <= i && i + |t| <= |s| && s[i..i + |t|] == t
  }

  /** `s.includes(t)`: t occurs in s at some offset (the empty string occurs everywhere). */
  predicate Contains(s: string, t: string)
  {
    exists i | 0 <= i <= |s| - |t| :: OccursAt(s, t, i)
  }

  /** Either string includes the other: the matcher's lenient comparison. */
  predicate EitherContains(a: string, b: string)
  {
    Contains(a, b) || Contains(b, a)
  }

  lemma ContainsEmpty(s: string)
    ensures Contains(s, "")
  {
    assert OccursAt(s, "", 0);
  }

  lemma ContainsSelf(s: string)
    ensures Contains(s, s)
  {
    assert OccursAt(s, s, 0);
  }

  /** Occurrences survive being embedded in a longer string. */
  lemma ContainsInfix(pre: string, s: string, post: string, t: string)
    requires Contains(s, t)
    ensures Contains(pre + s + post, t)
  {
    var i :| 0 <= i <= |s| - |t| && OccursAt(s, t, i);
    var w := pre + s + post;
    assert w[|pre| + i..|pre| + i + |t|] == s[i..i + |t|];
    assert OccursAt(w, t, |pre| + i);
  }

  lemma ContainsTrans(s: string, t: string, u: string)
    requires Contains(s, t) && Contains(t, u)
    ensures Contains(s, u)
  {
    var i :| 0 <= i <= |s| - |t| && OccursAt(s, t, i);
    var j :| 0 <= j <= |t| - |u| && OccursAt(t, u, j);
    assert s[i..i + |t|] == t && t[j..j + |u|] == u;
    forall k | 0 <= k < |u|
      ensures s[i + j + k] == u[k]
    {
      assert s[i..i + |t|][j + k] == t[j + k];
      assert t[j..j + |u|][k] == u[k];
    }
    assert s[i + j..i + j + |u|] == u;
    assert OccursAt(s, u, i + j);
  }

  /** Case-insensitive inclusion survives lower-casing. */
  lemma ContainsLower(s: string, t: string)
    requires Contains(s, t)
    ensures Contains(Lower(s), Lower(t))
  {
    var i :| 0 <= i <= |s| - |t| && OccursAt(s, t, i);
    LowerSlice(s, i, i + |t|);
    assert OccursAt(Lower(s), Lower(t), i);
  }

  /** A string without the character t[k] does not contain t. */
  lemma NotContainsChar(s: string, t: string, k: nat)
    requires k < |t| && t[k] !in s
    ensures !Contains(s, t)
  {
  }

  /** A pair of adjacent characters of t that never occur side by side in s keeps t out of s. */
  lemma NotContainsPair(s: string, t: string, k: nat)
    requires k + 1 < |t|
    requires forall i :: 0 <= i < |s| - 1 ==> !(s[i] == t[k] && s[i + 1] == t[k + 1])
    ensures !Contains(s, t)
  {
    forall i | 0 <= i <= |s| - |t|
      ensures !OccursAt(s, t, i)
    {
      assert !(s[i + k] == t[k] && s[i + k + 1] == t[k + 1]);
      assert s[i..i + |t|][k] == s[i + k] && s[i..i + |t|][k + 1] == s[i + k + 1];
    }
  }

  /** First offset of t in s at or after `from` (`indexOf`). */
  function IndexOfFrom(s: string, t: string, from: nat): (r: Option<nat>)
    decreases |s| - from
    ensures r.Some? ==> from <= r.value && OccursAt(s, t, r.value)
    ensures r.Some? ==> forall j :: from <= j < r.value ==> !OccursAt(s, t, j)
    ensures r.None? ==> forall j :: from <= j ==> !OccursAt(s, t, j)
  {
    if from + |t| > |s| then None
    else if s[from..from + |t|] == t then Some(from)
    else IndexOfFrom(s, t, from + 1)
  }

  lemma IndexOfIffContains(s: string, t: string)
    ensures IndexOfFrom(s, t, 0).Some? <==> Contains(s, t)
  {
  }

  // ---------------------------------------------------------------------------
  // Trimming

  /** First index at or after i that is not whitespace (|s| if none). */
  function SkipSpaces(s: string, i: nat): (k: nat)
    requires i <= |s|
    decreases |s| - i
    ensures i <= k <= |s|
    ensures k < |s| ==> !IsSpace(s[k])
    ensures forall j :: i <= j < k ==> IsSpace(s[j])
  {
    if i < |s| && IsSpace(s[i]) then SkipSpaces(s, i + 1) else i
  }

  /** Smallest k >= lo such that s[k..j] is all whitespace. */
  function SkipSpacesBack(s: string, lo: nat, j: nat): (k: nat)
    requires lo <= j <= |s|
    decreases j
    ensures lo <= k <= j
    ensures k > lo ==> !IsSpace(s[k - 1])
    ensures forall m :: k <= m < j ==> IsSpace(s[m])
  {
    if j > lo && IsSpace(s[j - 1]) then SkipSpacesBack(s, lo, j - 1) else j
  }

  /** `s.trim()`: s without its leading and trailing whitespace. */
  function Trim(s: string): (r: string)
    ensures r == [] || (!IsSpace(r[0]) && !IsSpace(r[|r| - 1]))
  {
    var a := SkipSpaces(s, 0);
    s[a..SkipSpacesBack(s, a, |s|)]
  }

  /** The trimmed string is the slice s[a..b] obtained by dropping only whitespace at both ends. */
  lemma TrimShape(s: string) returns (a: nat, b: nat)
    ensures a <= b <= |s| && Trim(s) == s[a..b]
    ensures forall i :: 0 <= i < a ==> IsSpace(s[i])
    ensures forall i :: b <= i < |s| ==> IsSpace(s[i])
  {
    a := SkipSpaces(s, 0);
    b := SkipSpacesBack(s, a, |s|);
  }

  lemma TrimIdempotent(s: string)
    ensures Trim(Trim(s)) == Trim(s)
  {
    TrimOfTrimmed(Trim(s));
  }

  /** A string whose first and last characters are not whitespace is its own trim. */
  lemma TrimOfTrimmed(s: string)
    requires s == [] || (!IsSpace(s[0]) && !IsSpace(s[|s| - 1]))
    ensures Trim(s) == s
  {
    assert SkipSpaces(s, 0) == 0;
  }

  // ---------------------------------------------------------------------------
  // Splitting

  /** Index of the first character satisfying `sep` at or after `i`, or |s| if none. */
  function FindFirst(s: string, sep: char -> bool, i: nat): (k: nat)
    requires i <= |s|
    decreases |s| - i
    ensures i <= k <= |s|
    ensures k < |s| ==> sep(s[k])
    ensures forall j :: i <= j < k ==> !sep(s[j])
  {
    if i == |s| || sep(s[i]) then i else FindFirst(s, sep, i + 1)
  }

  /** End of the run of separators starting at i: one character when `runs` is false
      (a single-character pattern), the maximal run when it is true (a pattern with `+`). */
  function RunEnd(s: string, sep: char -> bool, runs: bool, i: nat): (j: nat)
    requires i < |s| && sep(s[i])
    decreases |s| - i
    ensures i < j <= |s|
    ensures forall k :: i <= k < j ==> sep(s[k])
    ensures runs && j < |s| ==> !sep(s[j])
    ensures !runs ==> j == i + 1
  {
    if runs && i + 1 < |s| && sep(s[i + 1]) then RunEnd(s, sep, runs, i + 1) else i + 1
  }

  /** `s.split(pattern)` for a pattern that matches one separator character (or a run of them);
      leading and trailing separators yield empty first and last parts, as in JavaScript. */
  function Split(s: string, sep: char -> bool, runs: bool): (parts: seq<string>)
    decreases |s|
    ensures |parts| >= 1
  {
    var i := FindFirst(s, sep, 0);
    if i == |s| then [s]
    else [s[..i]] + Split(s[RunEnd(s, sep, runs, i)..], sep, runs)
  }

  lemma {:induction false} SplitParts(s: string, sep: char -> bool, runs: bool)
    ensures forall p :: p in Split(s, sep, runs) ==> forall c :: c in p ==> !sep(c)
    decreases |s|
  {
    var i := FindFirst(s, sep, 0);
    if i < |s| {
      SplitParts(s[RunEnd(s, sep, runs, i)..], sep, runs);
    }
  }

  /** A separator at the front yields an empty first part. */
  lemma SplitLeadingSeparator(s: string, sep: char -> bool, runs: bool)
    requires |s| > 0 && sep(s[0])
    ensures Split(s, sep, runs)[0] == ""
  {
  }

  /** A separator at the end yields an empty last part. */
  lemma {:induction false} SplitTrailingSeparator(s: string, sep: char -> bool, runs: bool)
    requires |s| > 0 && sep(s[|s| - 1])
    ensures "" in Split(s, sep, runs)
    decreases |s|
  {
    var i := FindFirst(s, sep, 0);
    assert i < |s|;
    var j := RunEnd(s, sep, runs, i);
    var rest := s[j..];
    assert Split(s, sep, runs) == [s[..i]] + Split(rest, sep, runs);
    if rest == [] {
      assert Split(rest, sep, runs) == [""];
    } else {
      assert rest[|rest| - 1] == s[|s| - 1];
      SplitTrailingSeparator(rest, sep, runs);
    }
  }

  function Last<T>(xs: seq<T>): T
    requires |xs| > 0
  {
    xs[|xs| - 1]
  }

  // ---------------------------------------------------------------------------
  // Decimal digits

  function DigitChar(d: nat): (c: char)
    requires d < 10
    ensures IsDigit(c) && c as int - '0' as int == d
  {
    ('0' as int + d) as char
  }

  predicate AllDigits(s: string)
  {
    forall i :: 0 <= i < |s| ==> IsDigit(s[i])
  }

  /** `n.toString()` for a non-negative integer. */
  function NatToString(n: nat): (s: string)
    ensures |s| >= 1 && AllDigits(s)
  {
    if n < 10 then [DigitChar(n)] else NatToString(n / 10) + [DigitChar(n % 10)]
  }

  /** `n.toString()` for any integer. */
  function IntToString(n: int): string
  {
    if n < 0 then "-" + NatToString(-n) else NatToString(n)
  }

  /** The value a string of decimal digits denotes. */
  function DigitsValue(s: string): nat
    requires AllDigits(s)
  {
    if s == [] then 0 else DigitsValue(s[..|s| - 1]) * 10 + (s[|s| - 1] as int - '0' as int)
  }

  lemma {:induction false} DigitsRoundTrip(n: nat)
    ensures DigitsValue(NatToString(n)) == n
  {
    if n >= 10 {
      var s := NatToString(n);
      assert s[..|s| - 1] == NatToString(n / 10);
      DigitsRoundTrip(n / 10);
    }
  }

  /** Leading zeros do not change the value. */
  lemma {:induction false} DigitsLeadingZero(s: string)
    requires AllDigits(s)
    ensures AllDigits("0" + s) && DigitsValue("0" + s) == DigitsValue(s)
    decreases |s|
  {
    if s != [] {
      assert ("0" + s)[..|"0" + s| - 1] == "0" + s[..|s| - 1];
      DigitsLeadingZero(s[..|s| - 1]);
    }
  }

  /** `s.padStart(2, '0')` */
  function PadStart2(s: string): (r: string)
    ensures |r| == if |s| >= 2 then |s| else 2
  {
    if |s| >= 2 then s else if |s| == 1 then "0" + s else "00"
  }

  /** Two-digit padding of a number keeps its value and its digits. */
  lemma PaddedRoundTrip(n: nat)
    ensures AllDigits(PadStart2(NatToString(n)))
    ensures DigitsValue(PadStart2(NatToString(n))) == n
    ensures n < 100 ==> |PadStart2(NatToString(n))| == 2
  {
    DigitsRoundTrip(n);
    DigitsLeadingZero(NatToString(n));
    if n >= 10 {
      assert NatToString(n) == NatToString(n / 10) + [DigitChar(n % 10)];
      if n < 100 {
        assert |NatToString(n / 10)| == 1;
      }
    }
  }

  // ---------------------------------------------------------------------------
  // String.prototype.replace with a string pattern

  /** GetSubstitution without capture groups: `$$`, `$&`, `` $` `` and `$'` are expanded,
      every other `$` stands for itself. */
  function ExpandReplacement(r: string, matched: string, before: string, after: string): string
    decreases |r|
  {
    if r == [] then []
    else if r[0] == '$' && |r| >= 2 && r[1] == '$' then "$" + ExpandReplacement(r[2..], matched, before, after)
    else if r[0] == '$' && |r| >= 2 && r[1] == '&' then matched + ExpandReplacement(r[2..], matched, before, after)
    else if r[0] == '$' && |r| >= 2 && r[1] == '`' then before + ExpandReplacement(r[2..], matched, before, after)
    else if r[0] == '$' && |r| >= 2 && r[1] == '\'' then after + ExpandReplacement(r[2..], matched, before, after)
    else [r[0]] + ExpandReplacement(r[1..], matched, before, after)
  }

  lemma {:induction false} ExpandPlain(r: string, matched: string, before: string, after: string)
    requires '$' !in r
    ensures ExpandReplacement(r, matched, before, after) == r
    decreases |r|
  {
    if r != [] {
      ExpandPlain(r[1..], matched, before, after);
    }
  }

  /** `text.replace(pattern, repl)`: only the first occurrence is replaced. */
  function ReplaceFirst(text: string, pattern: string, repl: string): string
  {
    match IndexOfFrom(text, pattern, 0)
    case None => text
    case Some(i) =>
      text[..i] + ExpandReplacement(repl, pattern, text[..i], text[i + |pattern|..]) + text[i + |pattern|..]
  }

  /** Replacing the first occurrence with a `$`-free string splices it in once, and leaves
      later occurrences alone; without an occurrence the text is unchanged. */
  lemma ReplaceFirstSpec(text: string, pattern: string, repl: string)
    requires '$' !in repl
    ensures !Contains(text, pattern) ==> ReplaceFirst(text, pattern, repl) == text
    ensures Contains(text, pattern) ==>
      exists i :: OccursAt(text, pattern, i)
        && (forall j :: 0 <= j < i ==> !OccursAt(text, pattern, j))
        && ReplaceFirst(text, pattern, repl) == text[..i] + repl + text[i + |pattern|..]
  {
    var r := IndexOfFrom(text, pattern, 0);
    if r.None? {
      forall j | 0 <= j <= |text| - |pattern|
        ensures !OccursAt(text, pattern, j)
      {
      }
      assert !Contains(text, pattern);
    } else {
      var i := r.value;
      ExpandPlain(repl, pattern, text[..i], text[i + |pattern|..]);
      assert ReplaceFirst(text, pattern, repl) == text[..i] + repl + text[i + |pattern|..];
      assert OccursAt(text, pattern, i) && forall j :: 0 <= j < i ==> !OccursAt(text, pattern, j);
    }
  }

  /** Without an occurrence there is nothing to replace, whatever the replacement. */
  lemma ReplaceFirstAbsent(text: string, pattern: string, repl: string)
    requires !Contains(text, pattern)
    ensures ReplaceFirst(text, pattern, repl) == text
  {
  }

  /** When the pattern's first character does not occur before it, the first occurrence is the
      one after `pre`, and it is the one replaced. */
  lemma ReplaceFirstAfter(pre: string, pattern: string, post: string, repl: string)
    requires '$' !in repl && pattern != [] && pattern[0] !in pre
    ensures ReplaceFirst(pre + pattern + post, pattern, repl) == pre + repl + post
  {
    var text := pre + pattern + post;
    assert OccursAt(text, pattern, |pre|);
    ReplaceFirstSpec(text, pattern, repl);
    var i :| OccursAt(text, pattern, i)
      && (forall j :: 0 <= j < i ==> !OccursAt(text, pattern, j))
      && ReplaceFirst(text, pattern, repl) == text[..i] + repl + text[i + |pattern|..];
    assert i == |pre|;
    assert text[..i] == pre;
    assert text[i + |pattern|..] == post;
  }

  // ---------------------------------------------------------------------------
  // Lists without duplicates

  predicate NoDup<T(==)>(xs: seq<T>)
  {
    forall i, j :: 0 <= i < j < |xs| ==> xs[i] != xs[j]
  }

  /** `[...new Set(xs)]`: the first copy of every element, in order. */
  function Dedup<T(==,!new)>(xs: seq<T>): (r: seq<T>)
    ensures NoDup(r)
    ensures forall x :: x in r <==> x in xs
    ensures |r| <= |xs|
  {
    DedupInto([], xs)
  }

  function DedupInto<T(==,!new)>(acc: seq<T>, xs: seq<T>): (r: seq<T>)
    requires NoDup(acc)
    ensures NoDup(r)
    ensures forall x :: x in r <==> x in acc || x in xs
    ensures acc <= r
    ensures |r| <= |acc| + |xs|
    decreases |xs|
  {
    if xs == [] then acc
    else if xs[0] in acc then DedupInto(acc, xs[1..])
    else DedupInto(acc + [xs[0]], xs[1..])
  }

  /** Deduplicating a list that has no duplicates leaves it as it is. */
  lemma {:induction false} DedupIntoFresh<T(!new)>(acc: seq<T>, xs: seq<T>)
    requires NoDup(acc) && NoDup(acc + xs)
    ensures DedupInto(acc, xs) == acc + xs
    decreases |xs|
  {
    if xs != [] {
      forall i | 0 <= i < |acc|
        ensures acc[i] != xs[0]
      {
        assert (acc + xs)[i] == acc[i] && (acc + xs)[|acc|] == xs[0];
      }
      assert acc + xs == (acc + [xs[0]]) + xs[1..];
      DedupIntoFresh(acc + [xs[0]], xs[1..]);
    }
  }

  /** Removing every copy of x (`filter(item => item !== x)`). */
  function RemoveAll<T(==,!new)>(xs: seq<T>, x: T): (r: seq<T>)
    ensures forall y :: y in r <==> y in xs && y != x
    ensures NoDup(xs) ==> NoDup(r)
    ensures |r| <= |xs|
  {
    if xs == [] then []
    else if xs[0] == x then RemoveAll(xs[1..], x)
    else
      var rest := RemoveAll(xs[1..], x);
      assert NoDup(xs) ==> xs[0] !in xs[1..];
      [xs[0]] + rest
  }

  /** Removing an element that is absent changes nothing. */
  lemma {:induction false} RemoveAllAbsent<T(!new)>(xs: seq<T>, x: T)
    requires x !in xs
    ensures RemoveAll(xs, x) == xs
  {
    if xs != [] {
      RemoveAllAbsent(xs[1..], x);
    }
  }

  /** Removing what was just appended gives back the list, when it was not there before. */
  lemma {:induction false} RemoveAllAppended<T(!new)>(xs: seq<T>, x: T)
    requires x !in xs
    ensures RemoveAll(xs + [x], x) == xs
  {
    if xs == [] {
      assert RemoveAll([x], x) == RemoveAll([], x);
    } else {
      assert (xs + [x])[1..] == xs[1..] + [x];
      RemoveAllAppended(xs[1..], x);
    }
  }

  /** A list without duplicates has as many elements as its set of members. */
  lemma {:induction false} NoDupCard<T>(xs: seq<T>)
    requires NoDup(xs)
    ensures |set x | x in xs| == |xs|
  {
    if xs != [] {
      NoDupCard(xs[1..]);
      assert (set x | x in xs) == (set x | x in xs[1..]) + {xs[0]};
      assert xs[0] !in xs[1..];
    }
  }

  /** A list without duplicates whose members include those of another such list and one more
      element is strictly longer. */
  lemma NoDupLonger<T>(small: seq<T>, big: seq<T>, extra: T)
    requires NoDup(small) && NoDup(big)
    requires forall x :: x in small ==> x in big
    requires extra in big && extra !in small
    ensures |big| > |small|
  {
    NoDupCard(small);
    NoDupCard(big);
    var a := set x | x in small;
    var b := set x | x in big;
    assert a + {extra} <= b;
    assert |a + {extra}| == |a| + 1;
    SubsetCard(a + {extra}, b);
  }

  lemma {:induction false} SubsetCard<T>(a: set<T>, b: set<T>)
    requires a <= b
    ensures |a| <= |b|
    decreases a
  {
    if a != {} {
      var x :| x in a;
      SubsetCard(a - {x}, b - {x});
    }
  }

  /** Two lists without duplicates and with the same members have the same length. */
  lemma NoDupSameMembers<T>(xs: seq<T>, ys: seq<T>)
    requires NoDup(xs) && NoDup(ys)
    requires forall x :: x in xs <==> x in ys
    ensures |xs| == |ys|
  {
    NoDupCard(xs);
    NoDupCard(ys);
    assert (set x | x in xs) == (set x | x in ys);
  }
}
