/**
 * The significant-fragment classifier of src/classifier.js: given a CSS
 * selector it returns the part of its last compound selector under which the
 * selector is indexed -- the id token if there is one, else the class token,
 * else the token peeled first, and `*` when nothing could be peeled.
 *
 * Each regular expression of the `re` table is written out as a predicate on
 * the SUFFIX at which a match would start (all of them are `$`-anchored), and
 * a JavaScript `match`/`replace` without the `g` flag, which takes the
 * leftmost match, is `Leftmost`: the least start index whose suffix matches.
 */
module Classifier {
  import opened JsStrings
  import opened Options
  import opened Seqs

  // ---------------------------------------------------------------------------
  // Character classes and the token shape shared by re.id, re.cls, re.candidate
  // ---------------------------------------------------------------------------

  /** The class `[\wÀ-￿\-]`. */
  predicate IsNameChar(c: char) {
    ('a' <= c <= 'z') || ('A' <= c <= 'Z') || ('0' <= c <= '9') || c == '_' || c == '-'
    || c >= '\U{00C0}'
  }

  predicate IsSigil(c: char) {
    c == '#' || c == '.'
  }

  /** Length of the unit `(?:[\wÀ-￿\-]|\\.)` at the start of `t`,
      0 when `t` does not start with one.  The alternatives never overlap: a
      name character is never a backslash. */
  function UnitLength(t: string): (n: nat)
    ensures n <= |t| && n <= 2
    ensures n == 1 <==> |t| > 0 && IsNameChar(t[0])
    ensures n == 2 <==> |t| >= 2 && t[0] == '\\' && !IsLineTerminator(t[1])
  {
    if |t| > 0 && IsNameChar(t[0]) then 1
    else if |t| >= 2 && t[0] == '\\' && !IsLineTerminator(t[1]) then 2
    else 0
  }

  /** `t` is matched in full by `(?:[\wÀ-￿\-]|\\.)+`. */
  predicate IsUnits(t: string)
    decreases |t|
  {
    var n := UnitLength(t);
    n > 0 && (n == |t| || IsUnits(t[n..]))
  }

  /** `t` is matched in full by `[#\.]{0,1}(?:[\wÀ-￿\-]|\\.)+?`:
      an optional sigil followed by at least one unit. */
  predicate IsToken(t: string) {
    IsUnits(t) || (|t| > 0 && IsSigil(t[0]) && IsUnits(t[1..]))
  }

  /** `t` is matched in full by `\:.+?|\[.*?\]`: a colon with at least one
      character after it, or a bracket pair; `.` refuses line terminators. */
  predicate IsGarbage(t: string) {
    |t| >= 2 &&
    ((t[0] == ':' && NoLineTerminator(t[1..]))
     || (t[0] == '[' && t[|t| - 1] == ']' && NoLineTerminator(t[1..|t| - 1])))
  }

  /** `re.id.test(c)` (`sigil == '#'`) and `re.cls.test(c)` (`sigil == '.'`):
      `c` starts with the sigil and then one unit. */
  predicate SigilTest(sigil: char, c: string) {
    |c| > 0 && c[0] == sigil && UnitLength(c[1..]) > 0
  }

  // ---------------------------------------------------------------------------
  // The leftmost match of a `$`-anchored expression
  // ---------------------------------------------------------------------------

  /** The least `j >= i` whose suffix `s[j..]` satisfies `P`, or `|s|` if there
      is none: where JavaScript's leftmost-match rule starts the match. */
  function Leftmost(s: string, i: nat, P: string -> bool): (r: nat)
    requires i <= |s|
    ensures i <= r <= |s|
    ensures r < |s| ==> P(s[r..])
    decreases |s| - i
  {
    if i == |s| then |s| else if P(s[i..]) then i else Leftmost(s, i + 1, P)
  }

  /** No suffix in front of the leftmost match satisfies `P`. */
  lemma {:induction false} LeftmostBefore(s: string, i: nat, P: string -> bool, j: nat)
    requires i <= j < |s| && j < Leftmost(s, i, P)
    ensures !P(s[j..])
    decreases |s| - i
  {
    if j > i {
      LeftmostBefore(s, i + 1, P, j);
    }
  }

  /** `selector.replace(re.ws, "")`. */
  function StripSpace(s: string): (r: string)
    ensures r <= s
  {
    TrimEnd(s)
  }

  /** `selector.replace(re.garbage, "")`: everything from the leftmost start of
      a garbage suffix on is cut off. */
  function StripGarbage(s: string): (r: string)
    ensures r <= s
  {
    s[..Leftmost(s, 0, IsGarbage)]
  }

  // ---------------------------------------------------------------------------
  // The specification of the classifier
  // ---------------------------------------------------------------------------

  /** The tokens the `while` loop of the classifier pushes, in order, starting
      from the (already stripped) text `s`: peel the leftmost candidate match,
      strip one garbage suffix, repeat until no candidate matches. */
  function Peel(s: string): seq<string>
    decreases |s|
  {
    var i := Leftmost(s, 0, IsToken);
    if i == |s| then [] else [s[i..]] + Peel(StripGarbage(s[..i]))
  }

  /** The `candidates` array of the classifier for `selector`. */
  function Candidates(selector: string): seq<string> {
    Peel(StripGarbage(StripSpace(selector)))
  }

  /** Index of the first candidate accepted by `SigilTest(sigil, _)`. */
  function Find(cs: seq<string>, sigil: char): (r: Option<nat>)
    ensures r.Some? ==> r.value < |cs| && SigilTest(sigil, cs[r.value])
                        && forall j :: 0 <= j < r.value ==> !SigilTest(sigil, cs[j])
    ensures r.None? ==> forall j :: 0 <= j < |cs| ==> !SigilTest(sigil, cs[j])
  {
    if cs == [] then None
    else if SigilTest(sigil, cs[0]) then Some(0)
    else match Find(cs[1..], sigil)
      case None => None
      case Some(k) => Some(k + 1)
  }

  /** The choice made after the loop: `*` if nothing was peeled, otherwise the
      first id candidate, else the first class candidate, else the first one. */
  function Pick(cs: seq<string>): string {
    if cs == [] then "*"
    else match Find(cs, '#')
      case Some(i) => cs[i]
      case None =>
        match Find(cs, '.')
        case Some(i) => cs[i]
        case None => cs[0]
  }

  /** What `classifier(selector)` returns. */
  function Significant(selector: string): string {
    Pick(Candidates(selector))
  }

  // ---------------------------------------------------------------------------
  // The classifier itself
  // ---------------------------------------------------------------------------

  /** `classifier(selector)`: the peel loop (lines 36-43), then the choice
      among the peeled candidates. */
  method Classify(selector: string) returns (r: string)
    ensures r == Significant(selector)
  {
    var s := StripSpace(selector);
    s := StripGarbage(s);
    var candidates: seq<string> := [];
    var i := Leftmost(s, 0, IsToken);
    while i < |s|
      invariant i == Leftmost(s, 0, IsToken)
      invariant candidates + Peel(s) == Candidates(selector)
      decreases |s|
    {
      PeelStep(s, i);
      var m := s[i..];
      Shift(candidates, Peel(s), m, Peel(StripGarbage(s[..i])));
      s := s[..i];
      s := StripGarbage(s);
      candidates := candidates + [m];
      i := Leftmost(s, 0, IsToken);
    }
    PeelDone(s, i, candidates);
    r := Choose(candidates);
  }

  /** One turn of the peel loop: the leftmost candidate comes first. */
  lemma PeelStep(s: string, i: nat)
    requires i < |s| && i == Leftmost(s, 0, IsToken)
    ensures Peel(s) == [s[i..]] + Peel(StripGarbage(s[..i]))
  {
  }

  /** The peel loop stops when no candidate is left. */
  lemma PeelDone(s: string, i: nat, candidates: seq<string>)
    requires i == |s| && i == Leftmost(s, 0, IsToken)
    ensures candidates + Peel(s) == candidates
  {
    assert Peel(s) == [];
  }

  /** The end of `classifier` (lines 44-57): `*` for no candidates, then a scan
      for the first id candidate, then one for the first class candidate. */
  method Choose(candidates: seq<string>) returns (r: string)
    ensures r == Pick(candidates)
  {
    var l := |candidates|;
    if l == 0 {
      return "*";
    }
    var k := 0;
    while k < l
      invariant 0 <= k <= l
      invariant forall j :: 0 <= j < k ==> !SigilTest('#', candidates[j])
    {
      if SigilTest('#', candidates[k]) {
        assert Find(candidates, '#') == Some(k);
        return candidates[k];
      }
      k := k + 1;
    }
    k := 0;
    while k < l
      invariant 0 <= k <= l
      invariant forall j :: 0 <= j < k ==> !SigilTest('.', candidates[j])
    {
      if SigilTest('.', candidates[k]) {
        assert Find(candidates, '#') == None && Find(candidates, '.') == Some(k);
        return candidates[k];
      }
      k := k + 1;
    }
    assert Find(candidates, '#') == None && Find(candidates, '.') == None;
    return candidates[0];
  }
}
