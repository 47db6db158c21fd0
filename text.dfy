/** Python string helpers used by the bot, over `string` (= seq<char>, one char per code point). */
module Text {

  /** Python's `str.isspace()`: the characters `split()`, `strip()` and `rstrip()` treat as whitespace. */
  predicate IsSpace(c: char) {
    || ('\t' <= c <= '\r')
    || ('\U{1C}' <= c <= '\U{1F}')
    || c == ' '
    || c == '\U{85}' || c == '\U{A0}' || c == '\U{1680}'
    || ('\U{2000}' <= c <= '\U{200A}')
    || c == '\U{2028}' || c == '\U{2029}' || c == '\U{202F}' || c == '\U{205F}' || c == '\U{3000}'
  }

  predicate IsAsciiUpper(c: char) { 'A' <= c <= 'Z' }

  predicate IsAsciiLower(c: char) { 'a' <= c <= 'z' }

  /** `str.lower()` restricted to ASCII letters. */
  function LowerChar(c: char): (r: char)
    ensures IsAsciiUpper(c) ==> IsAsciiLower(r) && r as int == c as int + 32
    ensures !IsAsciiUpper(c) ==> r == c
  {
    if IsAsciiUpper(c) then (c as int + 32) as char else c
  }

  /** `str.upper()` restricted to ASCII letters. */
  function UpperChar(c: char): (r: char)
    ensures IsAsciiLower(c) ==> IsAsciiUpper(r) && r as int == c as int - 32
    ensures !IsAsciiLower(c) ==> r == c
  {
    if IsAsciiLower(c) then (c as int - 32) as char else c
  }

  function Lower(s: string): string {
    seq(|s|, i requires 0 <= i < |s| => LowerChar(s[i]))
  }

  function Upper(s: string): string {
    seq(|s|, i requires 0 <= i < |s| => UpperChar(s[i]))
  }

  lemma LowerConcat(a: string, b: string)
    ensures Lower(a + b) == Lower(a) + Lower(b)
  {
  }

  /** Upper-casing the ASCII letters of a string is invisible after lower-casing it. */
  lemma LowerOfUpper(s: string)
    ensures Lower(Upper(s)) == Lower(s)
  {
    assert forall i :: 0 <= i < |s| ==> Lower(Upper(s))[i] == Lower(s)[i];
  }

  /** Python's `needle in haystack` on strings, scanning left to right. */
  function Contains(haystack: string, needle: string): bool
    decreases |haystack|
  {
    if |needle| > |haystack| then false
    else if haystack[..|needle|] == needle then true
    else Contains(haystack[1..], needle)
  }

  /** `needle` occurs in `haystack` starting at index `i`. */
  predicate OccursAt(haystack: string, needle: string, i: nat) {
    i + |needle| <= |haystack| && haystack[i..i + |needle|] == needle
  }

  /** Contains agrees with the declarative meaning of substring occurrence. */
  lemma {:induction false} ContainsIff(haystack: string, needle: string)
    ensures Contains(haystack, needle) <==> exists i: nat :: OccursAt(haystack, needle, i)
    decreases |haystack|
  {
    if |needle| > |haystack| {
    } else if haystack[..|needle|] == needle {
      assert OccursAt(haystack, needle, 0);
    } else {
      ContainsIff(haystack[1..], needle);
      if Contains(haystack, needle) {
        var i: nat :| OccursAt(haystack[1..], needle, i);
        assert haystack[i + 1..i + 1 + |needle|] == haystack[1..][i..i + |needle|];
        assert OccursAt(haystack, needle, i + 1);
      }
      if exists i: nat :: OccursAt(haystack, needle, i) {
        var i: nat :| OccursAt(haystack, needle, i);
        assert i != 0;
        assert haystack[1..][i - 1..i - 1 + |needle|] == haystack[i..i + |needle|];
        assert OccursAt(haystack[1..], needle, i - 1);
      }
    }
  }

  lemma ContainsAt(haystack: string, needle: string, i: nat)
    requires OccursAt(haystack, needle, i)
    ensures Contains(haystack, needle)
  {
    ContainsIff(haystack, needle);
  }

  /** An occurrence in a part is an occurrence in the whole. */
  lemma ContainsInConcat(a: string, b: string, needle: string)
    ensures Contains(a, needle) ==> Contains(a + b, needle)
    ensures Contains(b, needle) ==> Contains(a + b, needle)
  {
    ContainsIff(a, needle);
    ContainsIff(b, needle);
    if Contains(a, needle) {
      var i: nat :| OccursAt(a, needle, i);
      assert (a + b)[i..i + |needle|] == a[i..i + |needle|];
      ContainsAt(a + b, needle, i);
    }
    if Contains(b, needle) {
      var i: nat :| OccursAt(b, needle, i);
      assert (a + b)[|a| + i..|a| + i + |needle|] == b[i..i + |needle|];
      ContainsAt(a + b, needle, |a| + i);
    }
  }

  lemma ContainsTransitive(haystack: string, middle: string, needle: string)
    requires Contains(haystack, middle) && Contains(middle, needle)
    ensures Contains(haystack, needle)
  {
    ContainsIff(haystack, middle);
    ContainsIff(middle, needle);
    var i: nat :| OccursAt(haystack, middle, i);
    var j: nat :| OccursAt(middle, needle, j);
    forall k | 0 <= k < |needle| ensures haystack[i + j + k] == needle[k] {
      assert needle[k] == middle[j + k] == haystack[i + j + k];
    }
    assert haystack[i + j..i + j + |needle|] == needle;
    ContainsAt(haystack, needle, i + j);
  }

  /** Python's `any(t in text for t in terms)`. */
  function AnyOccurs(text: string, terms: seq<string>): bool {
    if terms == [] then false else Contains(text, terms[0]) || AnyOccurs(text, terms[1..])
  }

  lemma {:induction false} AnyOccursIff(text: string, terms: seq<string>)
    ensures AnyOccurs(text, terms) <==> exists k :: 0 <= k < |terms| && Contains(text, terms[k])
  {
    if terms != [] {
      AnyOccursIff(text, terms[1..]);
      if AnyOccurs(text, terms[1..]) {
        var k :| 0 <= k < |terms| - 1 && Contains(text, terms[1..][k]);
        assert Contains(text, terms[k + 1]);
      }
      if exists k :: 0 <= k < |terms| && Contains(text, terms[k]) {
        var k :| 0 <= k < |terms| && Contains(text, terms[k]);
        if k > 0 {
          assert terms[1..][k - 1] == terms[k];
        }
      }
    }
  }

  /** A term that occurs in `small` still occurs in any text containing `small`. */
  lemma AnyOccursGrows(small: string, big: string, terms: seq<string>)
    requires Contains(big, small)
    ensures AnyOccurs(small, terms) ==> AnyOccurs(big, terms)
  {
    AnyOccursIff(small, terms);
    AnyOccursIff(big, terms);
    if AnyOccurs(small, terms) {
      var k :| 0 <= k < |terms| && Contains(small, terms[k]);
      ContainsTransitive(big, small, terms[k]);
    }
  }

  /** The number of whitespace characters `s` starts with. */
  function LeadingSpaces(s: string): (k: nat)
    ensures k <= |s|
    ensures forall i :: 0 <= i < k ==> IsSpace(s[i])
    ensures k < |s| ==> !IsSpace(s[k])
  {
    if s != [] && IsSpace(s[0]) then 1 + LeadingSpaces(s[1..]) else 0
  }

  /** The number of whitespace characters `s` ends with. */
  function TrailingSpaces(s: string): (k: nat)
    ensures k <= |s|
    ensures forall i :: |s| - k <= i < |s| ==> IsSpace(s[i])
    ensures k < |s| ==> !IsSpace(s[|s| - k - 1])
  {
    if s != [] && IsSpace(s[|s| - 1]) then 1 + TrailingSpaces(s[..|s| - 1]) else 0
  }

  /** The leading whitespace count is the only count with its two defining properties. */
  lemma LeadingSpacesUnique(s: string, k: nat)
    requires k <= |s| && (forall i :: 0 <= i < k ==> IsSpace(s[i])) && (k < |s| ==> !IsSpace(s[k]))
    ensures LeadingSpaces(s) == k
  {
  }

  lemma TrailingSpacesUnique(s: string, k: nat)
    requires k <= |s| && (forall i :: |s| - k <= i < |s| ==> IsSpace(s[i]))
    requires k < |s| ==> !IsSpace(s[|s| - k - 1])
    ensures TrailingSpaces(s) == k
  {
  }

  /** Python's `str.lstrip()`. */
  function LStrip(s: string): string {
    s[LeadingSpaces(s)..]
  }

  /** Python's `str.rstrip()`. */
  function RStrip(s: string): string {
    s[..|s| - TrailingSpaces(s)]
  }

  /** Python's `str.strip()`. */
  function Strip(s: string): string {
    RStrip(LStrip(s))
  }

  /** Neither the first nor the last character is whitespace. */
  predicate NoEdgeSpace(s: string) {
    s == [] || (!IsSpace(s[0]) && !IsSpace(s[|s| - 1]))
  }

  /** `lstrip()` leaves a text that is empty or starts visibly, and removes only whitespace. */
  lemma LStripFacts(s: string)
    ensures var r := LStrip(s);
      && |r| <= |s| && r == s[|s| - |r|..]
      && (r != [] ==> !IsSpace(r[0]))
      && (forall i :: 0 <= i < |s| - |r| ==> IsSpace(s[i]))
  {
  }

  /** `rstrip()` leaves a text that is empty or ends visibly, and removes only whitespace. */
  lemma RStripFacts(s: string)
    ensures var r := RStrip(s);
      && |r| <= |s| && r == s[..|r|]
      && (r != [] ==> !IsSpace(r[|r| - 1]))
      && (forall i :: |r| <= i < |s| ==> IsSpace(s[i]))
  {
  }

  lemma StripNoEdgeSpace(s: string)
    ensures NoEdgeSpace(Strip(s))
    ensures NoEdgeSpace(s) ==> Strip(s) == s
  {
    var l := LStrip(s);
    var r := RStrip(l);
    if r != [] {
      assert r[0] == l[0];
    }
    if NoEdgeSpace(s) {
      if s != [] {
        LeadingSpacesUnique(s, 0);
        TrailingSpacesUnique(s, 0);
      }
    }
  }

  lemma StripShrinks(s: string)
    ensures |Strip(s)| <= |s|
  {
  }

  /**
   * Stripping `x + " " + y`, where `x` ends in a visible character: the space
   * and `y` survive exactly when `y` holds a visible character.
   */
  lemma StripJoined(x: string, y: string)
    requires x != [] && !IsSpace(x[|x| - 1])
    ensures RStrip(y) == [] ==> Strip(x + " " + y) == LStrip(x)
    ensures RStrip(y) != [] ==> Strip(x + " " + y) == LStrip(x) + " " + RStrip(y)
  {
    var l := LStrip(x);
    LStripVisible(x, " " + y);
    assert x + (" " + y) == x + " " + y;
    assert LStrip(x + " " + y) == l + (" " + y);
    assert l != [] && l[|l| - 1] == x[|x| - 1];
    if RStrip(y) == [] {
      forall i | 0 <= i < |" " + y| ensures IsSpace((" " + y)[i]) {
        if i > 0 {
          assert (" " + y)[i] == y[i - 1];
        }
      }
      RStripSpaces(l, " " + y);
    } else {
      RStripAppend(l + " ", y);
      assert l + (" " + y) == (l + " ") + y;
    }
  }

  /** LStrip stops inside `x` when `x` holds a visible character. */
  lemma LStripVisible(x: string, z: string)
    requires x != [] && !IsSpace(x[|x| - 1])
    ensures LStrip(x + z) == LStrip(x) + z
  {
    var k := LeadingSpaces(x);
    assert k < |x|;
    LeadingSpacesUnique(x + z, k);
    assert (x + z)[k..] == x[k..] + z;
  }

  /** RStrip removes a tail made only of whitespace. */
  lemma RStripSpaces(l: string, z: string)
    requires l == [] || !IsSpace(l[|l| - 1])
    requires forall i :: 0 <= i < |z| ==> IsSpace(z[i])
    ensures RStrip(l + z) == l
  {
    TrailingSpacesUnique(l + z, |z|);
    assert (l + z)[..|l|] == l;
  }

  /** RStrip only looks into the tail when the tail holds a visible character. */
  lemma RStripAppend(l: string, y: string)
    requires RStrip(y) != []
    ensures RStrip(l + y) == l + RStrip(y)
  {
    var k := TrailingSpaces(y);
    assert k < |y|;
    TrailingSpacesUnique(l + y, k);
    assert (l + y)[..|l + y| - k] == l + y[..|y| - k];
  }

  /** The longest prefix of `t` without whitespace. */
  function Word(t: string): (w: string)
    ensures |w| <= |t| && w == t[..|w|]
    ensures forall i :: 0 <= i < |w| ==> !IsSpace(w[i])
    ensures |w| < |t| ==> IsSpace(t[|w|])
  {
    if t == [] || IsSpace(t[0]) then [] else [t[0]] + Word(t[1..])
  }

  /** Python's `str.split()` with no separator: maximal runs of non-whitespace. */
  function Words(s: string): (ws: seq<string>)
    ensures forall k :: 0 <= k < |ws| ==> ws[k] != [] && forall i :: 0 <= i < |ws[k]| ==> !IsSpace(ws[k][i])
    decreases |s|
  {
    var t := LStrip(s);
    if t == [] then [] else
      var w := Word(t);
      assert w != [];
      [w] + Words(t[|w|..])
  }

  /** Python's `sep.join(parts)`. */
  function JoinWith(sep: string, parts: seq<string>): string {
    if parts == [] then []
    else if |parts| == 1 then parts[0]
    else parts[0] + sep + JoinWith(sep, parts[1..])
  }

  lemma {:induction false} JoinWithSnoc(sep: string, parts: seq<string>, x: string)
    requires parts != []
    ensures JoinWith(sep, parts + [x]) == JoinWith(sep, parts) + sep + x
  {
    if |parts| > 1 {
      assert (parts + [x])[1..] == parts[1..] + [x];
      JoinWithSnoc(sep, parts[1..], x);
    }
  }

  lemma {:induction false} JoinWithContainsPart(sep: string, parts: seq<string>, k: nat)
    requires k < |parts|
    ensures Contains(JoinWith(sep, parts), parts[k])
  {
    if |parts| == 1 {
      ContainsAt(parts[0], parts[0], 0);
    } else {
      var rest := JoinWith(sep, parts[1..]);
      if k == 0 {
        ContainsAt(parts[0], parts[0], 0);
        ContainsInConcat(parts[0], sep + rest, parts[0]);
        assert parts[0] + (sep + rest) == parts[0] + sep + rest;
      } else {
        JoinWithContainsPart(sep, parts[1..], k - 1);
        ContainsInConcat(parts[0] + sep, rest, parts[k]);
      }
    }
  }

  /** The lower-cased list of strings. */
  function LowerAll(parts: seq<string>): (r: seq<string>)
    ensures |r| == |parts| && forall k :: 0 <= k < |parts| ==> r[k] == Lower(parts[k])
  {
    if parts == [] then [] else [Lower(parts[0])] + LowerAll(parts[1..])
  }

  /** Lower-casing a joined text lower-cases each part (the separator is left as it is when it is lower case). */
  lemma {:induction false} LowerJoinWith(sep: string, parts: seq<string>)
    requires Lower(sep) == sep
    ensures Lower(JoinWith(sep, parts)) == JoinWith(sep, LowerAll(parts))
  {
    if |parts| > 1 {
      LowerJoinWith(sep, parts[1..]);
      LowerConcat(parts[0] + sep, JoinWith(sep, parts[1..]));
      LowerConcat(parts[0], sep);
      assert LowerAll(parts)[1..] == LowerAll(parts[1..]);
    }
  }

  /** Python's `" ".join(s.split())`: whitespace runs collapsed to one space, edges trimmed. */
  function Collapse(s: string): string {
    JoinWith(" ", Words(s))
  }

  /** Every whitespace character is a single `' '` between two visible characters. */
  predicate IsCollapsed(s: string) {
    forall i :: 0 <= i < |s| && IsSpace(s[i]) ==>
      s[i] == ' ' && 0 < i < |s| - 1 && !IsSpace(s[i - 1]) && !IsSpace(s[i + 1])
  }

  lemma {:induction false} JoinedWordsCollapsed(ws: seq<string>)
    requires forall k :: 0 <= k < |ws| ==> ws[k] != [] && forall i :: 0 <= i < |ws[k]| ==> !IsSpace(ws[k][i])
    ensures IsCollapsed(JoinWith(" ", ws))
    ensures ws != [] ==> JoinWith(" ", ws) != [] && !IsSpace(JoinWith(" ", ws)[0])
  {
    if |ws| > 1 {
      JoinedWordsCollapsed(ws[1..]);
      var rest := JoinWith(" ", ws[1..]);
      var j := ws[0] + " " + rest;
      assert JoinWith(" ", ws) == j;
      forall i | 0 <= i < |j| && IsSpace(j[i])
        ensures j[i] == ' ' && 0 < i < |j| - 1 && !IsSpace(j[i - 1]) && !IsSpace(j[i + 1])
      {
        if i == |ws[0]| {
          assert j[i - 1] == ws[0][|ws[0]| - 1];
          assert j[i + 1] == rest[0];
        } else if i > |ws[0]| {
          assert j[i] == rest[i - |ws[0]| - 1];
        }
      }
    }
  }

  lemma CollapseIsCollapsed(s: string)
    ensures IsCollapsed(Collapse(s))
  {
    JoinedWordsCollapsed(Words(s));
  }

  /** Cutting a collapsed text and stripping its tail keeps it collapsed. */
  lemma CutCollapsed(s: string, k: nat)
    requires IsCollapsed(s) && k <= |s|
    ensures IsCollapsed(RStrip(s[..k]))
  {
    var r := RStrip(s[..k]);
    forall i | 0 <= i < |r| && IsSpace(r[i])
      ensures r[i] == ' ' && 0 < i < |r| - 1 && !IsSpace(r[i - 1]) && !IsSpace(r[i + 1])
    {
      assert r[i] == s[i];
      assert i != |r| - 1;
      assert r[i + 1] == s[i + 1] && r[i - 1] == s[i - 1];
    }
  }

  /** The first `n` characters (Python's `s[:n]` for `n >= 0`). */
  function Take(s: string, n: nat): (r: string)
    ensures |r| == if n <= |s| then n else |s|
    ensures r == s[..|r|]
  {
    if n <= |s| then s[..n] else s
  }

  function EndsWith(s: string, suffix: string): bool {
    |suffix| <= |s| && s[|s| - |suffix|..] == suffix
  }

  /** Number of occurrences of the character `c` in `s`. */
  function CountChar(s: string, c: char): nat {
    if s == [] then 0 else CountChar(s[..|s| - 1], c) + (if s[|s| - 1] == c then 1 else 0)
  }

  lemma {:induction false} CountCharConcat(a: string, b: string, c: char)
    ensures CountChar(a + b, c) == CountChar(a, c) + CountChar(b, c)
    decreases |b|
  {
    if b != [] {
      assert (a + b)[..|a + b| - 1] == a + b[..|b| - 1];
      CountCharConcat(a, b[..|b| - 1], c);
    } else {
      assert a + b == a;
    }
  }

  lemma PrefixContained(s: string, p: string)
    requires |p| <= |s| && p == s[..|p|]
    ensures Contains(s, p)
  {
    assert OccursAt(s, p, 0);
    ContainsAt(s, p, 0);
  }

  /** Left-stripping a text that ends visibly keeps its last character and takes a piece of the rest. */
  lemma LStripDropLast(e: string)
    requires e != [] && !IsSpace(e[|e| - 1])
    ensures var l := LStrip(e);
      l != [] && l[|l| - 1] == e[|e| - 1] && Contains(e[..|e| - 1], l[..|l| - 1])
  {
    var l := LStrip(e);
    var off := |e| - |l|;
    var front := e[..|e| - 1];
    assert l[..|l| - 1] == front[off..] by {
      assert l == e[off..];
    }
    assert OccursAt(front, l[..|l| - 1], off);
    ContainsAt(front, l[..|l| - 1], off);
  }
}
