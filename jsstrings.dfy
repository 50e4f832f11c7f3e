/**
 * The few JavaScript string built-ins the selector index relies on, written
 * out as explicit character predicates and functions: the `\s` class (which
 * `String.prototype.trim` strips too), the `.` of a regular expression (any
 * character but a line terminator), `trim` and `toLowerCase`.
 *
 * Strings are sequences of Unicode scalar values; JavaScript works on UTF-16
 * code units.  None of the predicates below tells the two apart: every
 * character they single out lies in the Basic Multilingual Plane.
 */
module JsStrings {

  /** ECMAScript WhiteSpace and LineTerminator: the class `\s` and what `trim` removes. */
  predicate IsSpace(c: char) {
    c == '\t' || c == '\n' || c == '\U{000B}' || c == '\U{000C}' || c == '\r' || c == ' '
    || c == '\U{00A0}' || c == '\U{1680}' || ('\U{2000}' <= c <= '\U{200A}')
    || c == '\U{2028}' || c == '\U{2029}' || c == '\U{202F}' || c == '\U{205F}'
    || c == '\U{3000}' || c == '\U{FEFF}'
  }

  /** ECMAScript LineTerminator: what the regular-expression `.` refuses to match. */
  predicate IsLineTerminator(c: char) {
    c == '\n' || c == '\r' || c == '\U{2028}' || c == '\U{2029}'
  }

  predicate AllSpace(s: string) {
    forall i :: 0 <= i < |s| ==> IsSpace(s[i])
  }

  /** No character of `s` is a line terminator: `s` is matched by `.*`. */
  predicate NoLineTerminator(s: string) {
    forall i :: 0 <= i < |s| ==> !IsLineTerminator(s[i])
  }

  /** `r` occurs in `s` as a contiguous slice. */
  predicate IsSubstring(r: string, s: string) {
    exists a, b :: 0 <= a <= b <= |s| && s[a..b] == r
  }

  /** Removes the maximal run of white space at the end of `s`. */
  function TrimEnd(s: string): (r: string)
    ensures |r| <= |s| && forall i :: 0 <= i < |r| ==> r[i] == s[i]
    ensures forall i :: |r| <= i < |s| ==> IsSpace(s[i])
    ensures r == [] || !IsSpace(r[|r| - 1])
  {
    if |s| > 0 && IsSpace(s[|s| - 1]) then TrimEnd(s[..|s| - 1]) else s
  }

  /** `String.prototype.trim`: white space removed at both ends; a string
      that neither starts nor ends with white space is left as it is. */
  function Trim(s: string): (r: string)
    ensures |r| <= |s|
    ensures r == [] || (!IsSpace(r[0]) && !IsSpace(r[|r| - 1]))
    ensures |s| > 0 && !IsSpace(s[0]) && !IsSpace(s[|s| - 1]) ==> r == s
    decreases |s|
  {
    if |s| > 0 && IsSpace(s[0]) then Trim(s[1..])
    else if |s| > 0 && IsSpace(s[|s| - 1]) then Trim(s[..|s| - 1])
    else s
  }

  /** `r` is the slice of `s` from `a` on, with only white space around it. */
  predicate SpacedSlice(r: string, s: string, a: nat) {
    a + |r| <= |s| && s[a..a + |r|] == r && AllSpace(s[..a]) && AllSpace(s[a + |r|..])
  }

  lemma SpacedSliceCons(r: string, s: string, a: nat)
    requires |s| > 0 && IsSpace(s[0]) && SpacedSlice(r, s[1..], a)
    ensures SpacedSlice(r, s, a + 1)
  {
    var t := s[1..];
    assert s[a + 1..a + 1 + |r|] == t[a..a + |r|];
    assert s[..a + 1] == [s[0]] + t[..a];
    assert s[a + 1 + |r|..] == t[a + |r|..];
  }

  lemma SpacedSliceSnoc(r: string, s: string, a: nat)
    requires |s| > 0 && IsSpace(s[|s| - 1]) && SpacedSlice(r, s[..|s| - 1], a)
    ensures SpacedSlice(r, s, a)
  {
    var t := s[..|s| - 1];
    assert s[a..a + |r|] == t[a..a + |r|];
    assert s[..a] == t[..a];
    assert s[a + |r|..] == t[a + |r|..] + [s[|s| - 1]];
  }

  /** What `trim` returns is a slice of its argument with only white space
      around it. */
  lemma {:induction false} TrimSlice(s: string)
    ensures exists a: nat :: SpacedSlice(Trim(s), s, a)
    decreases |s|
  {
    var r := Trim(s);
    if |s| > 0 && IsSpace(s[0]) {
      TrimSlice(s[1..]);
      var a: nat :| SpacedSlice(r, s[1..], a);
      SpacedSliceCons(r, s, a);
    } else if |s| > 0 && IsSpace(s[|s| - 1]) {
      TrimSlice(s[..|s| - 1]);
      var a: nat :| SpacedSlice(r, s[..|s| - 1], a);
      SpacedSliceSnoc(r, s, a);
    } else {
      assert SpacedSlice(r, s, 0);
    }
  }

  /** `toLowerCase` on one character, restricted to the ASCII letters: the
      result is never an upper-case letter, only upper-case letters change,
      and an upper-case letter becomes the same letter in lower case. */
  function LowerChar(c: char): (r: char)
    ensures !('A' <= r <= 'Z')
    ensures r != c ==> 'A' <= c <= 'Z'
    ensures 'A' <= c <= 'Z' ==> 'a' <= r <= 'z' && r as int - 'a' as int == c as int - 'A' as int
  {
    if 'A' <= c <= 'Z' then (c as int + 32) as char else c
  }

  /** `toLowerCase` with the ASCII case mapping. */
  function Lower(s: string): (r: string)
    ensures |r| == |s|
    ensures forall i :: 0 <= i < |s| ==> r[i] == LowerChar(s[i])
    ensures forall i :: 0 <= i < |r| ==> !('A' <= r[i] <= 'Z')
  {
    seq(|s|, i requires 0 <= i < |s| => LowerChar(s[i]))
  }

  /** Lower-casing twice is lower-casing once: the key a case-insensitive
      map stores is the key it looks up. */
  lemma LowerIdempotent(s: string)
    ensures Lower(Lower(s)) == Lower(s)
  {
  }

  /** White space appended to a string is what `TrimEnd` removes. */
  lemma {:induction false} TrimEndAppendSpace(s: string, w: string)
    requires AllSpace(w)
    ensures TrimEnd(s + w) == TrimEnd(s)
    decreases |w|
  {
    if w == [] {
      assert s + w == s;
    } else {
      var w' := w[..|w| - 1];
      assert (s + w)[..|s + w| - 1] == s + w';
      TrimEndAppendSpace(s, w');
    }
  }

  /** Text in front of a string with a non-space character is untouched by `TrimEnd`. */
  lemma {:induction false} TrimEndPrefix(u: string, s: string)
    requires !AllSpace(s)
    ensures TrimEnd(u + s) == u + TrimEnd(s)
    decreases |s|
  {
    var s' := s[..|s| - 1];
    if IsSpace(s[|s| - 1]) {
      assert !AllSpace(s') by {
        var i :| 0 <= i < |s| && !IsSpace(s[i]);
        assert s'[i] == s[i];
      }
      assert (u + s)[..|u + s| - 1] == u + s';
      TrimEndPrefix(u, s');
    }
  }
}
