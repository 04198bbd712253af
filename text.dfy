/** The JavaScript string operations the navigation engine relies on, written out over `seq<char>`. */
module Text {

  /** `s.split('/').pop()`: the text after the last `/`, or all of `s` when it has none. */
  function LastSegment(s: string): (r: string)
    ensures |r| <= |s| && r == s[|s| - |r|..]
    ensures '/' !in r
    ensures |r| < |s| ==> s[|s| - |r| - 1] == '/'
  {
    if |s| == 0 then ""
    else if s[|s| - 1] == '/' then ""
    else LastSegment(s[..|s| - 1]) + [s[|s| - 1]]
  }

  /** ASCII lower-casing of one character. */
  function LowerChar(c: char): (r: char)
    ensures 'A' <= c <= 'Z' ==> r as int == c as int + 32
    ensures !('A' <= c <= 'Z') ==> r == c
  {
    if 'A' <= c <= 'Z' then (c as int + 32) as char else c
  }

  /** ASCII lower-casing of a string, character by character. */
  function Lower(s: string): (r: string)
    ensures |r| == |s|
    ensures forall i :: 0 <= i < |s| ==> r[i] == LowerChar(s[i])
  {
    if s == [] then [] else [LowerChar(s[0])] + Lower(s[1..])
  }

  /** `s` ends with the lower-case `suffix`, ignoring ASCII case. */
  predicate EndsWithIgnoringCase(s: string, suffix: string) {
    |suffix| <= |s| && Lower(s[|s| - |suffix|..]) == suffix
  }

  /**
   * The test `/\.(?:xhtml|html)$/i`: the string ends in `.html` or `.xhtml`, in any letter case.
   * Without the `u` flag a case-insensitive JavaScript regular expression never maps a non-ASCII
   * character onto an ASCII letter, so ASCII case folding is exact here.
   */
  predicate IsHtmlEnd(s: string) {
    EndsWithIgnoringCase(s, ".html") || EndsWithIgnoringCase(s, ".xhtml")
  }

  /** The characters a JavaScript `.` in a regular expression does not match. */
  predicate IsLineTerminator(c: char) {
    c == '\n' || c == '\r' || c == '\U{2028}' || c == '\U{2029}'
  }

  /** Position `i` starts a match of `/\..*$/`: a `.` with no line terminator after it. */
  predicate DotRunsToEnd(s: string, i: int) {
    0 <= i < |s| && s[i] == '.' && forall j :: i < j < |s| ==> !IsLineTerminator(s[j])
  }

  /** `s.replace(/\..*$/, '')` searched from position `i` on. */
  function StripFrom(s: string, i: nat): (r: string)
    requires i <= |s|
    requires forall k :: 0 <= k < i ==> !DotRunsToEnd(s, k)
    ensures r <= s
    ensures |r| < |s| ==> DotRunsToEnd(s, |r|)
    ensures forall k :: 0 <= k < |r| ==> !DotRunsToEnd(s, k)
    decreases |s| - i
  {
    if i == |s| then s
    else if DotRunsToEnd(s, i) then s[..i]
    else StripFrom(s, i + 1)
  }

  /**
   * `s.replace(/\..*$/, '')`: cuts `s` at the leftmost `.` that is followed by no line terminator,
   * and leaves `s` alone when there is none.
   */
  function StripExtension(s: string): (r: string)
    ensures r <= s
    ensures |r| < |s| ==> DotRunsToEnd(s, |r|)
    ensures forall k :: 0 <= k < |r| ==> !DotRunsToEnd(s, k)
  {
    StripFrom(s, 0)
  }

  /** Without line terminators, the stripped name keeps no `.` at all. */
  lemma StripExtensionHasNoDot(s: string)
    requires forall j :: 0 <= j < |s| ==> !IsLineTerminator(s[j])
    ensures '.' !in StripExtension(s)
  {
    var r := StripExtension(s);
    if '.' in r {
      var k :| 0 <= k < |r| && r[k] == '.';
      assert DotRunsToEnd(s, k);
    }
  }

  /** JavaScript's `a < b` on strings: lexicographic, a proper prefix being smaller. */
  predicate StrLess(a: string, b: string)
    decreases |a|
  {
    if |a| == 0 then |b| > 0
    else if |b| == 0 then false
    else if a[0] != b[0] then a[0] < b[0]
    else StrLess(a[1..], b[1..])
  }

  lemma {:induction false} StrLessIrreflexive(a: string)
    ensures !StrLess(a, a)
    decreases |a|
  {
    if |a| > 0 { StrLessIrreflexive(a[1..]); }
  }

  lemma {:induction false} StrLessTransitive(a: string, b: string, c: string)
    requires StrLess(a, b) && StrLess(b, c)
    ensures StrLess(a, c)
    decreases |a|
  {
    if |a| > 0 && |b| > 0 && |c| > 0 && a[0] == b[0] && b[0] == c[0] {
      StrLessTransitive(a[1..], b[1..], c[1..]);
    }
  }

  lemma {:induction false} StrLessTotal(a: string, b: string)
    requires a != b
    ensures StrLess(a, b) || StrLess(b, a)
    decreases |a|
  {
    if |a| > 0 && |b| > 0 && a[0] == b[0] {
      assert a == [a[0]] + a[1..] && b == [b[0]] + b[1..];
      StrLessTotal(a[1..], b[1..]);
    }
  }

  function DigitChar(d: nat): (r: char)
    requires d < 10
    ensures '0' <= r <= '9'
  {
    ('0' as int + d) as char
  }

  /** `String(n)` for a non-negative integer: its decimal digits. */
  function NatToString(n: nat): (r: string)
    ensures |r| > 0
    ensures forall i :: 0 <= i < |r| ==> '0' <= r[i] <= '9'
  {
    if n < 10 then [DigitChar(n)] else NatToString(n / 10) + [DigitChar(n % 10)]
  }

  /** `path.join('.')` for a sequence of indices. */
  function JoinPath(path: seq<nat>): (r: string)
    ensures (|path| == 0) == (|r| == 0)
    ensures forall i :: 0 <= i < |r| ==> r[i] == '.' || '0' <= r[i] <= '9'
  {
    if |path| == 0 then ""
    else if |path| == 1 then NatToString(path[0])
    else NatToString(path[0]) + "." + JoinPath(path[1..])
  }
}
