/**
 * The few Python `str` operations the converter relies on: `lower()`, `upper()`,
 * `strip()`, `endswith()` and `rfind()`, over `seq<char>`.
 * Case mapping is modelled for ASCII letters only.
 */
module Text {

  predicate IsUpperAscii(c: char) { 'A' <= c <= 'Z' }

  predicate IsLowerAscii(c: char) { 'a' <= c <= 'z' }

  function LowerChar(c: char): char {
    if IsUpperAscii(c) then (c as int + 32) as char else c
  }

  function UpperChar(c: char): char {
    if IsLowerAscii(c) then (c as int - 32) as char else c
  }

  /** `s.lower()` */
  function Lower(s: string): (r: string)
    ensures |r| == |s|
    ensures forall i :: 0 <= i < |s| ==> r[i] == LowerChar(s[i])
  {
    seq(|s|, i requires 0 <= i < |s| => LowerChar(s[i]))
  }

  /** `s.upper()` */
  function Upper(s: string): (r: string)
    ensures |r| == |s|
    ensures forall i :: 0 <= i < |s| ==> r[i] == UpperChar(s[i])
  {
    seq(|s|, i requires 0 <= i < |s| => UpperChar(s[i]))
  }

  /** No upper-case ASCII letter occurs in `s`. */
  predicate IsLowercase(s: string) {
    forall i :: 0 <= i < |s| ==> !IsUpperAscii(s[i])
  }

  /** The characters Python's `str.isspace()` accepts, hence those `strip()` removes. */
  predicate IsSpace(c: char) {
    || '\t' <= c <= '\r'
    || '\U{1c}' <= c <= ' '
    || c == '\U{85}' || c == '\U{a0}' || c == '\U{1680}'
    || '\U{2000}' <= c <= '\U{200a}'
    || c == '\U{2028}' || c == '\U{2029}' || c == '\U{202f}' || c == '\U{205f}' || c == '\U{3000}'
  }

  /** Lower-casing neither creates nor removes white space. */
  lemma LowerCharSpace(c: char)
    ensures IsSpace(LowerChar(c)) <==> IsSpace(c)
  {
  }

  /** The index of the first character at or after `i` that is not white space, or `|s|`. */
  function SkipSpace(s: string, i: nat): (n: nat)
    requires i <= |s|
    ensures i <= n <= |s|
    ensures forall k :: i <= k < n ==> IsSpace(s[k])
    ensures n < |s| ==> !IsSpace(s[n])
    decreases |s| - i
  {
    if i < |s| && IsSpace(s[i]) then SkipSpace(s, i + 1) else i
  }

  /** The index just past the last character of `s[lo..j]` that is not white space, or `lo`. */
  function SkipSpaceBack(s: string, lo: nat, j: nat): (n: nat)
    requires lo <= j <= |s|
    ensures lo <= n <= j
    ensures forall k :: n <= k < j ==> IsSpace(s[k])
    ensures lo < n ==> !IsSpace(s[n - 1])
  {
    if lo < j && IsSpace(s[j - 1]) then SkipSpaceBack(s, lo, j - 1) else j
  }

  /** `s[i..j]` is what remains of `s` once white space is dropped at both ends. */
  ghost predicate Trimmed(s: string, i: int, j: int) {
    && 0 <= i <= j <= |s|
    && (forall k :: 0 <= k < i ==> IsSpace(s[k]))
    && (forall k :: j <= k < |s| ==> IsSpace(s[k]))
  }

  /**
   * `s.strip()`: the middle of `s`, with only white space dropped before and after it,
   * and neither starting nor ending with white space.
   */
  function Strip(s: string): (r: string)
    ensures exists i, j :: Trimmed(s, i, j) && r == s[i..j]
    ensures r == [] || (!IsSpace(r[0]) && !IsSpace(r[|r| - 1]))
  {
    var i := SkipSpace(s, 0);
    var j := SkipSpaceBack(s, i, |s|);
    assert Trimmed(s, i, j);
    s[i..j]
  }

  /** `s.endswith(suffix)` */
  predicate EndsWith(s: string, suffix: string) {
    |suffix| <= |s| && s[|s| - |suffix|..] == suffix
  }

  /** `s.rfind(c)`: the index of the last occurrence of `c` in `s`, or -1 when there is none. */
  function LastIndexOf(s: string, c: char): (r: int)
    ensures -1 <= r < |s|
    ensures r >= 0 ==> s[r] == c
    ensures forall i :: r < i < |s| ==> s[i] != c
  {
    if |s| == 0 then -1
    else if s[|s| - 1] == c then |s| - 1
    else LastIndexOf(s[..|s| - 1], c)
  }

  /** The last occurrence of `c` is the only index holding `c` with no `c` after it. */
  lemma LastIndexOfAt(s: string, c: char, k: int)
    requires -1 <= k < |s|
    requires k >= 0 ==> s[k] == c
    requires forall i :: k < i < |s| ==> s[i] != c
    ensures LastIndexOf(s, c) == k
  {
  }

  /** When `s.lower()` ends with `suffix`, each of the last characters of `s` lower-cases to the matching one of `suffix`. */
  lemma LowerEndsWith(s: string, suffix: string)
    requires EndsWith(Lower(s), suffix)
    ensures forall k :: 0 <= k < |suffix| ==> LowerChar(s[|s| - |suffix| + k]) == suffix[k]
  {
    forall k | 0 <= k < |suffix| ensures LowerChar(s[|s| - |suffix| + k]) == suffix[k] {
      assert Lower(s)[|s| - |suffix|..][k] == suffix[k];
    }
  }

  /**
   * When `s.lower()` ends with a dot followed by lower-case letters, `s` ends with a dot
   * followed by letters, which lower-case to those of the ending.
   */
  lemma {:induction false} LowerEndsWithDotted(s: string, suffix: string, n: int)
    requires |suffix| >= 1 && suffix[0] == '.'
    requires forall k :: 1 <= k < |suffix| ==> IsLowerAscii(suffix[k])
    requires EndsWith(Lower(s), suffix) && n == |s| - |suffix|
    ensures s[n] == '.'
    ensures Lower(s[n + 1..]) == suffix[1..]
    ensures forall k :: n < k < |s| ==> s[k] != '.' && s[k] != '/'
  {
    LowerEndsWith(s, suffix);
    assert LowerChar(s[n + 0]) == suffix[0];
    forall k | n + 1 <= k < |s| ensures LowerChar(s[k]) == suffix[k - n] {
      assert s[k] == s[n + (k - n)];
    }
  }

  /** Lower-casing leaves nothing to lower-case: `s.lower().lower() == s.lower()`. */
  lemma LowerIdempotent(s: string)
    ensures Lower(Lower(s)) == Lower(s)
    ensures IsLowercase(Lower(s))
  {
  }

  /** A string with no upper-case letter is its own lower-case form. */
  lemma LowerOfLowercase(s: string)
    requires IsLowercase(s)
    ensures Lower(s) == s
  {
  }

  /** Stripping a string that neither starts nor ends with white space changes nothing. */
  lemma StripOfTrimmed(s: string)
    requires s == [] || (!IsSpace(s[0]) && !IsSpace(s[|s| - 1]))
    ensures Strip(s) == s
  {
  }

  /** `lower()` and `strip()` commute on the trimmed form: `s.strip().lower()` is already stripped. */
  lemma {:induction false} StripLowerOfTrimmed(t: string)
    requires t == Strip(t)
    ensures Strip(Lower(t)) == Lower(t)
  {
    var l := Lower(t);
    if l != [] {
      LowerCharSpace(t[0]);
      LowerCharSpace(t[|t| - 1]);
    }
    StripOfTrimmed(l);
  }
}
