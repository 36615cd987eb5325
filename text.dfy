/** Small text utilities shared by the extractor and the filter: the
    character classes the extraction pattern uses, maximal runs of a class,
    Python's `str.strip()`, and substring search with and without ASCII
    case folding. */
module Text {

  /** `\d`, restricted to the ASCII digits. */
  predicate IsDigit(c: char) {
    '0' <= c <= '9'
  }

  /** The characters Python's `str.isspace()` accepts; `str.strip()` with no
      argument and the pattern class `\s` both use this set. */
  predicate IsSpace(c: char) {
    ('\t' <= c <= '\r') || ('\U{1C}' <= c <= '\U{1F}') || c == ' ' ||
    c == '\U{85}' || c == '\U{A0}' || c == '\U{1680}' ||
    ('\U{2000}' <= c <= '\U{200A}') || c == '\U{2028}' || c == '\U{2029}' ||
    c == '\U{202F}' || c == '\U{205F}' || c == '\U{3000}'
  }

  /** The class `[APM]`. */
  predicate IsMeridiem(c: char) {
    c == 'A' || c == 'P' || c == 'M'
  }

  /** The class `[^:]`. */
  predicate NotColon(c: char) {
    c != ':'
  }

  /** Length of the longest run of characters satisfying `p` that starts at `i`. */
  function Span(s: string, i: nat, p: char -> bool): (n: nat)
    requires i <= |s|
    ensures i + n <= |s|
    ensures i + n == |s| || !p(s[i + n])
    decreases |s| - i
  {
    if i < |s| && p(s[i]) then 1 + Span(s, i + 1, p) else 0
  }

  /** Every character of the run satisfies `p`. */
  lemma {:induction false} SpanCovers(s: string, i: nat, p: char -> bool)
    requires i <= |s|
    ensures forall k {:trigger p(s[k])} :: i <= k < i + Span(s, i, p) ==> p(s[k])
    decreases |s| - i
  {
    if i < |s| && p(s[i]) {
      SpanCovers(s, i + 1, p);
    }
  }

  /** A run of `p` characters from `i` to `j`, stopped by a non-`p`
      character or the end, is the maximal run at `i`. */
  lemma {:induction false} SpanExact(s: string, i: nat, j: nat, p: char -> bool)
    requires i <= j <= |s|
    requires forall x :: i <= x < j ==> p(s[x])
    requires j == |s| || !p(s[j])
    ensures Span(s, i, p) == j - i
    decreases j - i
  {
    if i < j {
      SpanExact(s, i + 1, j, p);
    }
  }

  /** The first position from `b` on where `stop` holds, or `hi` if there is none before it. */
  function First(b: nat, hi: nat, stop: nat -> bool): (r: nat)
    requires b <= hi
    ensures b <= r <= hi && (r < hi ==> stop(r))
    decreases hi - b
  {
    if b == hi || stop(b) then b else First(b + 1, hi, stop)
  }

  /** Nothing before First(b, hi, stop) satisfies `stop`. */
  lemma {:induction false} FirstEarliest(b: nat, hi: nat, stop: nat -> bool, x: nat)
    requires b <= x && b <= hi && x < First(b, hi, stop)
    ensures !stop(x)
    decreases x - b
  {
    if b < x {
      FirstEarliest(b + 1, hi, stop, x);
    }
  }

  /** `c` is the character at position `i`. */
  predicate CharAt(s: string, i: nat, c: char) {
    i < |s| && s[i] == c
  }

  /** `lit` occurs in `s` at position `i`. */
  predicate LitAt(s: string, i: nat, lit: string) {
    i + |lit| <= |s| && s[i..i + |lit|] == lit
  }

  /** No leading and no trailing whitespace. */
  predicate Stripped(t: string) {
    t == [] || (!IsSpace(t[0]) && !IsSpace(t[|t| - 1]))
  }

  predicate AllSpace(s: string) {
    forall k :: 0 <= k < |s| ==> IsSpace(s[k])
  }

  /** Index of the first non-whitespace character at or after `i`. */
  function SkipSpace(s: string, i: nat): (j: nat)
    requires i <= |s|
    ensures i <= j <= |s|
    ensures AllSpace(s[i..j])
    ensures j == |s| || !IsSpace(s[j])
  {
    SpanCovers(s, i, IsSpace);
    i + Span(s, i, IsSpace)
  }

  /** One past the last non-whitespace character before `j`, not going below `lo`. */
  function BackSpace(s: string, lo: nat, j: nat): (k: nat)
    requires lo <= j <= |s|
    ensures lo <= k <= j
    ensures AllSpace(s[k..j])
    ensures k == lo || !IsSpace(s[k - 1])
    decreases j
  {
    if lo < j && IsSpace(s[j - 1]) then
      var k := BackSpace(s, lo, j - 1);
      assert s[k..j] == s[k..j - 1] + [s[j - 1]];
      k
    else j
  }

  /** Python's `str.strip()`: the text with leading and trailing whitespace
      removed. The result is a slice of `s`, everything cut off is
      whitespace, and the result neither starts nor ends with whitespace. */
  function Strip(s: string): (r: string)
    ensures exists i, j :: 0 <= i <= j <= |s| && r == s[i..j] && AllSpace(s[..i]) && AllSpace(s[j..])
    ensures Stripped(r)
  {
    var i := SkipSpace(s, 0);
    var j := BackSpace(s, i, |s|);
    assert s[..i] == s[0..i];
    s[i..j]
  }

  /** Strip is the only way to cut whitespace from both ends so that no
      whitespace is left at either end. */
  lemma StripUnique(s: string, i: nat, j: nat)
    requires i <= j <= |s| && AllSpace(s[..i]) && AllSpace(s[j..]) && Stripped(s[i..j])
    ensures Strip(s) == s[i..j]
  {
    var i1 := SkipSpace(s, 0);
    var j1 := BackSpace(s, i1, |s|);
    SpaceBelow(s, i1);
    SpaceBelow(s, i);
    SpaceFrom(s, j1);
    SpaceFrom(s, j);
    if i < j {
      assert !IsSpace(s[i]) && !IsSpace(s[j - 1]);
    }
  }

  lemma SpaceBelow(s: string, i: nat)
    requires i <= |s| && AllSpace(s[..i])
    ensures forall k :: 0 <= k < i ==> IsSpace(s[k])
  {
    assert forall k :: 0 <= k < i ==> s[..i][k] == s[k];
  }

  lemma SpaceFrom(s: string, j: nat)
    requires j <= |s| && AllSpace(s[j..])
    ensures forall k :: j <= k < |s| ==> IsSpace(s[k])
  {
    assert forall k :: j <= k < |s| ==> s[j..][k - j] == s[k];
  }

  /** A final line break makes no difference once the text is stripped. */
  lemma StripFinalNewline(t: string)
    requires |t| > 0 && t[|t| - 1] == '\n'
    ensures Strip(t[..|t| - 1]) == Strip(t)
  {
    var u := t[..|t| - 1];
    assert t == u + ['\n'];
    var i, j := StripCuts(u);
    NewlineKeepsCuts(u, i, j);
    StripUnique(t, i, j);
  }

  /** Where Strip cuts `s`. */
  lemma StripCuts(s: string) returns (i: nat, j: nat)
    ensures i <= j <= |s| && AllSpace(s[..i]) && AllSpace(s[j..]) && Stripped(s[i..j])
    ensures Strip(s) == s[i..j]
  {
    i := SkipSpace(s, 0);
    j := BackSpace(s, i, |s|);
    assert s[..i] == s[0..i];
  }

  lemma NewlineKeepsCuts(u: string, i: nat, j: nat)
    requires i <= j <= |u| && AllSpace(u[..i]) && AllSpace(u[j..]) && Stripped(u[i..j])
    ensures var t := u + ['\n'];
            AllSpace(t[..i]) && AllSpace(t[j..]) && t[i..j] == u[i..j] && Stripped(t[i..j])
  {
    var t := u + ['\n'];
    assert t[..i] == u[..i];
    assert t[i..j] == u[i..j];
    assert t[j..] == u[j..] + ['\n'];
  }

  /** `pat` occurs somewhere in `s` (Python's `pat in s`, or a regular
      expression search for a pattern without special characters). */
  predicate Contains(s: string, pat: string) {
    exists i: nat | i <= |s| :: LitAt(s, i, pat)
  }

  /** ASCII lower-casing of one character. */
  function LowerChar(c: char): char {
    if 'A' <= c <= 'Z' then (c as int + 32) as char else c
  }

  function Lower(s: string): (r: string)
    ensures |r| == |s|
    ensures forall k :: 0 <= k < |s| ==> r[k] == LowerChar(s[k])
  {
    if s == [] then [] else [LowerChar(s[0])] + Lower(s[1..])
  }

  /** Case-insensitive search for a lower-case pattern, as a regular
      expression search with `IGNORECASE` does it for ASCII text. */
  predicate ContainsIgnoreCase(s: string, pat: string) {
    Contains(Lower(s), pat)
  }
}
