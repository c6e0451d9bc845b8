/** String operations the voucher screen relies on: ASCII case mapping
    (`toLowerCase`/`toUpperCase`), the whitespace set of JavaScript's `trim`,
    `includes`, `split(sep)[0]` and `padStart`. */
module Text {

  // ---------------------------------------------------------------------------
  // Letter case (ASCII)
  // ---------------------------------------------------------------------------

  predicate IsAsciiUpper(c: char) { 'A' <= c <= 'Z' }

  predicate IsAsciiLower(c: char) { 'a' <= c <= 'z' }

  function LowerChar(c: char): char {
    if IsAsciiUpper(c) then (c as int + 32) as char else c
  }

  function UpperChar(c: char): char {
    if IsAsciiLower(c) then (c as int - 32) as char else c
  }

  /** `toLowerCase`, restricted to the ASCII letters. */
  function Lower(s: string): string {
    seq(|s|, i requires 0 <= i < |s| => LowerChar(s[i]))
  }

  /** `toUpperCase`, restricted to the ASCII letters. */
  function Upper(s: string): string {
    seq(|s|, i requires 0 <= i < |s| => UpperChar(s[i]))
  }

  /** The other-case letter of an ASCII letter; anything else is left alone. */
  function SwapCase(c: char): char {
    if IsAsciiUpper(c) then LowerChar(c) else UpperChar(c)
  }

  /** `a` and `b` differ at most in the case of some of their letters. */
  predicate SameUpToCase(a: string, b: string) {
    |a| == |b| && forall i :: 0 <= i < |a| ==> b[i] == a[i] || b[i] == SwapCase(a[i])
  }

  /** Two terms that differ only in letter case have the same lower-case form. */
  lemma SameUpToCaseLower(a: string, b: string)
    requires SameUpToCase(a, b)
    ensures Lower(a) == Lower(b)
  {
    forall i | 0 <= i < |a|
      ensures Lower(a)[i] == Lower(b)[i]
    {
      if b[i] != a[i] {
        assert b[i] == SwapCase(a[i]);
      }
    }
  }

  /** A string with no ASCII upper-case letter is its own lower-case form. */
  lemma LowerOfNoUpper(s: string)
    requires forall i :: 0 <= i < |s| ==> !IsAsciiUpper(s[i])
    ensures Lower(s) == s
  {
  }

  // ---------------------------------------------------------------------------
  // Whitespace and trim
  // ---------------------------------------------------------------------------

  /** The characters `String.prototype.trim` removes: ECMAScript's WhiteSpace
      (TAB, VT, FF, ZWNBSP and every Zs space separator) and LineTerminator
      (LF, CR, LS, PS). */
  predicate IsJsSpace(c: char) {
    || c == '\t' || c == '\n' || c == '\U{000B}' || c == '\U{000C}' || c == '\r'
    || c == ' ' || c == '\U{00A0}' || c == '\U{1680}'
    || ('\U{2000}' <= c <= '\U{200A}')
    || c == '\U{2028}' || c == '\U{2029}' || c == '\U{202F}' || c == '\U{205F}'
    || c == '\U{3000}' || c == '\U{FEFF}'
  }

  predicate AllSpace(s: string) {
    forall i :: 0 <= i < |s| ==> IsJsSpace(s[i])
  }

  /** Neither the first nor the last character is whitespace. */
  predicate HasNoOuterSpace(s: string) {
    s == [] || (!IsJsSpace(s[0]) && !IsJsSpace(s[|s| - 1]))
  }

  /** Number of whitespace characters at the start of `s`. */
  function LeadingSpaces(s: string): (n: nat)
    ensures n <= |s|
    ensures AllSpace(s[..n])
    ensures forall k :: 0 <= k < n ==> IsJsSpace(s[k])
    ensures n < |s| ==> !IsJsSpace(s[n])
  {
    if s == [] || !IsJsSpace(s[0]) then 0
    else
      var k := LeadingSpaces(s[1..]);
      assert s[1..][..k] == s[1..k + 1];
      1 + k
  }

  /** Number of whitespace characters at the end of `s`. */
  function TrailingSpaces(s: string): (n: nat)
    ensures n <= |s|
    ensures AllSpace(s[|s| - n..])
    ensures forall k :: |s| - n <= k < |s| ==> IsJsSpace(s[k])
    ensures n < |s| ==> !IsJsSpace(s[|s| - 1 - n])
  {
    if s == [] || !IsJsSpace(s[|s| - 1]) then 0
    else
      var t := s[..|s| - 1];
      var k := TrailingSpaces(t);
      assert s[|s| - (k + 1)..] == t[|t| - k..] + [s[|s| - 1]];
      1 + k
  }

  /** `String.prototype.trim`. */
  function Trim(s: string): (r: string)
    ensures LeadingSpaces(s) + |r| <= |s|
    ensures HasNoOuterSpace(r)
    ensures r == s[LeadingSpaces(s)..LeadingSpaces(s) + |r|]
    ensures AllSpace(s[LeadingSpaces(s) + |r|..])
  {
    var i := LeadingSpaces(s);
    var t := s[i..];
    var j := TrailingSpaces(t);
    assert t[|t| - j..] == s[i + (|t| - j)..];
    t[..|t| - j]
  }

  /** `r` is `s` with some all-whitespace prefix and suffix removed, and `r`
      itself neither starts nor ends with whitespace: an independent
      description of what trimming means. */
  ghost predicate IsTrimmingOf(r: string, s: string) {
    exists i, j :: TrimmedAt(r, s, i, j)
  }

  /** `r` is `s[i..j]` and everything outside that block is whitespace. */
  ghost predicate TrimmedAt(r: string, s: string, i: int, j: int) {
    0 <= i <= j <= |s| && r == s[i..j] && AllSpace(s[..i]) && AllSpace(s[j..]) && HasNoOuterSpace(r)
  }

  /** `Trim` produces a trimming of its input. */
  lemma TrimIsATrimming(s: string)
    ensures IsTrimmingOf(Trim(s), s)
  {
    var i := LeadingSpaces(s);
    var t := Trim(s);
    assert TrimmedAt(t, s, i, i + |t|);
  }

  /** A trimming of `s` is unique, so it is what `Trim` computes. */
  lemma TrimmingIsUnique(s: string, r: string)
    requires IsTrimmingOf(r, s)
    ensures r == Trim(s)
  {
    var i, j :| TrimmedAt(r, s, i, j);
    if r == [] {
      forall k | 0 <= k < |s| ensures IsJsSpace(s[k]) {
        if k < i { assert s[..i][k] == s[k]; } else { assert s[j..][k - j] == s[k]; }
      }
      TrimOfAllSpace(s);
    } else {
      TrimmedAtIsTrim(s, r, i, j);
    }
  }

  /** Text that is whitespace throughout trims to the empty text. */
  lemma TrimOfAllSpace(s: string)
    requires forall k :: 0 <= k < |s| ==> IsJsSpace(s[k])
    ensures Trim(s) == []
  {
  }

  /** A non-empty block with only whitespace around it is what `Trim` keeps:
      it starts at the first non-space character and ends after the last. */
  lemma TrimmedAtIsTrim(s: string, r: string, i: int, j: int)
    requires TrimmedAt(r, s, i, j) && r != []
    ensures r == Trim(s)
  {
    assert r[0] == s[i] && r[|r| - 1] == s[j - 1];
    forall k | 0 <= k < i ensures IsJsSpace(s[k]) { assert s[..i][k] == s[k]; }
    forall k | j <= k < |s| ensures IsJsSpace(s[k]) { assert s[j..][k - j] == s[k]; }
    LeadingSpacesAt(s, i);
    var t := Trim(s);
    var e := i + |t|;
    forall k | e <= k < |s| ensures IsJsSpace(s[k]) { assert s[e..][k - e] == s[k]; }
    if t != [] {
      assert t[|t| - 1] == s[e - 1];
    }
    assert e == j;
  }

  /** When `s[i]` is the first non-space character, `LeadingSpaces(s)` is `i`. */
  lemma LeadingSpacesAt(s: string, i: nat)
    requires i < |s| && !IsJsSpace(s[i])
    requires forall k :: 0 <= k < i ==> IsJsSpace(s[k])
    ensures LeadingSpaces(s) == i
  {
  }

  lemma UpperKeepsSpaces(s: string)
    ensures forall i :: 0 <= i < |s| ==> (IsJsSpace(Upper(s)[i]) <==> IsJsSpace(s[i]))
  {
  }

  // ---------------------------------------------------------------------------
  // Substrings
  // ---------------------------------------------------------------------------

  /** `t` occurs in `s` as a contiguous block. */
  ghost predicate IsSubstring(t: string, s: string) {
    exists i :: OccursAt(t, s, i)
  }

  /** `t` occurs in `s` starting at position `i`. */
  predicate OccursAt(t: string, s: string, i: int) {
    0 <= i && i + |t| <= |s| && s[i..i + |t|] == t
  }

  /** `String.prototype.includes`: scan the start positions of `s` in order. */
  function Includes(s: string, t: string): (b: bool)
    ensures b <==> IsSubstring(t, s)
    decreases |s|
  {
    if |t| > |s| then false
    else if s[..|t|] == t then
      assert OccursAt(t, s, 0);
      true
    else
      var b' := Includes(s[1..], t);
      if b' then
        var i :| OccursAt(t, s[1..], i);
        assert OccursAt(t, s, i + 1);
        b'
      else
        forall i | 0 < i && OccursAt(t, s, i) ensures OccursAt(t, s[1..], i - 1) {
          assert s[1..][i - 1..i - 1 + |t|] == s[i..i + |t|];
        }
        b'
  }

  lemma EmptyIsSubstring(s: string)
    ensures IsSubstring("", s)
  {
    assert OccursAt("", s, 0);
  }

  lemma SubstringTransitive(a: string, b: string, c: string)
    requires IsSubstring(a, b) && IsSubstring(b, c)
    ensures IsSubstring(a, c)
  {
    var i :| OccursAt(a, b, i);
    var j :| OccursAt(b, c, j);
    forall k | 0 <= k < |a| ensures c[j + i + k] == a[k] {
      assert a[k] == b[i + k] == c[j + i + k];
    }
    assert OccursAt(a, c, j + i);
  }

  /** Lower-casing both sides keeps an occurrence. */
  lemma SubstringLower(t: string, s: string)
    requires IsSubstring(t, s)
    ensures IsSubstring(Lower(t), Lower(s))
  {
    var i :| OccursAt(t, s, i);
    assert OccursAt(Lower(t), Lower(s), i);
  }

  /** Every block of `s` shares whatever holds of all of `s`'s characters. */
  lemma SubstringChars(t: string, s: string, P: char -> bool)
    requires IsSubstring(t, s)
    requires forall k :: 0 <= k < |s| ==> P(s[k])
    ensures forall k :: 0 <= k < |t| ==> P(t[k])
  {
    var i :| OccursAt(t, s, i);
    forall k | 0 <= k < |t| ensures P(t[k]) {
      assert t[k] == s[i + k];
    }
  }

  // ---------------------------------------------------------------------------
  // split(sep)[0] and padStart
  // ---------------------------------------------------------------------------

  /** `s.split(sep)[0]`: the text before the first `sep`, or all of `s`. */
  function BeforeFirst(s: string, sep: char): (r: string)
    ensures |r| <= |s| && r == s[..|r|]
    ensures sep !in r
    ensures |r| < |s| ==> s[|r|] == sep
  {
    if s == [] || s[0] == sep then []
    else
      var rest := BeforeFirst(s[1..], sep);
      assert s[1..][..|rest|] == s[1..|rest| + 1];
      [s[0]] + rest
  }

  /** Splitting `a + [sep] + b` at the first `sep`, when `a` has none, gives `a` back. */
  lemma {:induction false} BeforeFirstOfJoin(a: string, sep: char, b: string)
    requires sep !in a
    ensures BeforeFirst(a + [sep] + b, sep) == a
  {
    var s := a + [sep] + b;
    var r := BeforeFirst(s, sep);
    assert s[..|a|] == a;
    assert s[|a|] == sep;
    assert forall k :: 0 <= k < |a| ==> s[k] == a[k];
  }

  /** `s.padStart(width, fill)` for a one-character fill. */
  function PadStart(s: string, width: nat, fill: char): (r: string)
    ensures |r| == if |s| >= width then |s| else width
    ensures r[|r| - |s|..] == s
    ensures forall i :: 0 <= i < |r| - |s| ==> r[i] == fill
  {
    if |s| >= width then s else seq(width - |s|, _ => fill) + s
  }
}
