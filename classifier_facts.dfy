/**
 * What the classifier of src/classifier.js guarantees, proved about its
 * specification `Significant` (which `Classifier.Classify` computes).
 */
module ClassifierFacts {
  import opened JsStrings
  import opened Options
  import opened Classifier

  // ---------------------------------------------------------------------------
  // The leftmost-match search
  // ---------------------------------------------------------------------------

  /** The leftmost match is determined by: it matches (or is the end) and
      nothing before it does. */
  lemma LeftmostUnique(s: string, P: string -> bool, r: nat)
    requires r <= |s| && (r < |s| ==> P(s[r..]))
    requires forall j :: 0 <= j < r ==> !P(s[j..])
    ensures Leftmost(s, 0, P) == r
  {
    LeftmostFrom(s, 0, P, r);
  }

  lemma {:induction false} LeftmostFrom(s: string, i: nat, P: string -> bool, r: nat)
    requires i <= r <= |s| && (r < |s| ==> P(s[r..]))
    requires forall j :: i <= j < r ==> !P(s[j..])
    ensures Leftmost(s, i, P) == r
    decreases r - i
  {
    if i < r {
      LeftmostFrom(s, i + 1, P, r);
    }
  }

  /** A prefix none of whose positions can start a match moves the leftmost
      match by its own length. */
  lemma LeftmostShift(u: string, q: string, P: string -> bool)
    requires forall j :: 0 <= j < |u| ==> !P((u + q)[j..])
    ensures Leftmost(u + q, 0, P) == |u| + Leftmost(q, 0, P)
  {
    var t := u + q;
    var r := Leftmost(q, 0, P);
    forall j | |u| <= j <= |t|
      ensures t[j..] == q[j - |u|..]
    {
    }
    forall j | 0 <= j < |u| + r
      ensures !P(t[j..])
    {
      if j >= |u| {
        assert t[j..] == q[j - |u|..];
        LeftmostBefore(q, 0, P, j - |u|);
      }
    }
    LeftmostUnique(t, P, |u| + r);
  }

  /** A prefix with no `:` and no `[` cannot hold the start of a garbage suffix. */
  predicate NoGarbageStart(u: string) {
    forall i :: 0 <= i < |u| ==> u[i] != ':' && u[i] != '['
  }

  lemma StripGarbageSkipsPrefix(u: string, q: string)
    requires NoGarbageStart(u)
    ensures StripGarbage(u + q) == u + StripGarbage(q)
  {
    forall j | 0 <= j < |u|
      ensures !IsGarbage((u + q)[j..])
    {
      assert (u + q)[j..][0] == u[j];
    }
    LeftmostShift(u, q, IsGarbage);
    var g := Leftmost(q, 0, IsGarbage);
    assert (u + q)[..|u| + g] == u + q[..g];
  }

  // ---------------------------------------------------------------------------
  // Where a token can stop
  // ---------------------------------------------------------------------------

  /** Every character of a run of units is a name character, a backslash, or
      the character a backslash escapes. */
  lemma {:induction false} UnitsChars(t: string)
    requires IsUnits(t)
    ensures forall k :: 0 <= k < |t| ==> IsNameChar(t[k]) || t[k] == '\\' || (k > 0 && t[k - 1] == '\\')
    decreases |t|
  {
    var n := UnitLength(t);
    if n < |t| {
      var t' := t[n..];
      UnitsChars(t');
      forall k | n <= k < |t|
        ensures IsNameChar(t[k]) || t[k] == '\\' || (k > 0 && t[k - 1] == '\\')
      {
        assert t[k] == t'[k - n];
        if k > n {
          assert t[k - 1] == t'[k - n - 1];
        }
      }
    }
  }

  /** A character that ends a compound selector for the classifier: it cannot
      be part of a token, start one, or start a garbage suffix.  Combinators
      and the white space below U+00C0 are such characters. */
  predicate IsBoundary(c: char) {
    !IsNameChar(c) && c != '\\' && !IsSigil(c) && c != ':' && c != '['
  }

  /** `u` ends with an unescaped boundary character and holds no `:` and no
      `[`: the classifier never looks into it when it precedes the text that
      follows. */
  predicate Shields(u: string) {
    NoGarbageStart(u) && |u| > 0 && IsBoundary(u[|u| - 1]) && (|u| < 2 || u[|u| - 2] != '\\')
  }

  /** No token starts at or before an unescaped boundary character. */
  lemma NoTokenAcrossBoundary(u: string, q: string)
    requires Shields(u)
    ensures forall j :: 0 <= j < |u| ==> !IsToken((u + q)[j..])
  {
    var s := u + q;
    forall j | 0 <= j < |u|
      ensures !IsToken(s[j..])
    {
      var t := s[j..];
      var k := |u| - 1 - j;
      assert t[k] == u[|u| - 1];
      assert k > 0 ==> t[k - 1] == u[|u| - 2];
      if IsUnits(t) {
        UnitsChars(t);
      }
      if |t| > 0 && IsSigil(t[0]) && IsUnits(t[1..]) {
        UnitsChars(t[1..]);
      }
    }
  }

  /** The leftmost candidate lies after a shielding prefix. */
  lemma CandidateAfterBoundary(u: string, q: string)
    requires Shields(u)
    ensures Leftmost(u + q, 0, IsToken) == |u| + Leftmost(q, 0, IsToken)
  {
    NoTokenAcrossBoundary(u, q);
    LeftmostShift(u, q, IsToken);
  }

  /** One turn of the peel loop on a text whose prefix `u` holds neither the
      leftmost candidate nor a garbage start. */
  lemma PeelStepAfterPrefix(u: string, q: string, i: nat)
    requires NoGarbageStart(u)
    requires i < |q| && Leftmost(u + q, 0, IsToken) == |u| + i
    ensures Peel(u + q) == [q[i..]] + Peel(u + StripGarbage(q[..i]))
  {
    var s := u + q;
    var k := |u| + i;
    PeelStep(s, k);
    assert s[k..] == q[i..];
    assert s[..k] == u + q[..i];
    StripGarbageSkipsPrefix(u, q[..i]);
  }

  /** The peel loop never reaches past an unescaped boundary character in a
      prefix free of `:` and `[`: that prefix does not change the candidates. */
  lemma {:induction false} PeelSkipsPrefix(u: string, q: string)
    requires Shields(u)
    ensures Peel(u + q) == Peel(q)
    decreases |q|
  {
    CandidateAfterBoundary(u, q);
    var i := Leftmost(q, 0, IsToken);
    if i < |q| {
      PeelStepAfterPrefix(u, q, i);
      PeelSkipsPrefix(u, StripGarbage(q[..i]));
    }
  }

  // ---------------------------------------------------------------------------
  // Properties of `Significant`
  // ---------------------------------------------------------------------------

  /** Empty and white-space-only selectors are indexed as `*`. */
  lemma BlankIsUniversal(s: string)
    requires AllSpace(s)
    ensures Significant(s) == "*"
  {
    assert StripSpace(s) == [];
  }

  /** A selector that is one attribute matcher is indexed as `*`, whatever the
      matcher holds except line terminators (`#`, spaces, escaped brackets). */
  lemma AttributeOnlyIsUniversal(b: string)
    requires NoLineTerminator(b)
    ensures Significant("[" + b + "]") == "*"
  {
    var s := "[" + b + "]";
    assert s[1..|s| - 1] == b;
    assert IsGarbage(s[0..]);
    assert StripSpace(s) == s;
    assert StripGarbage(s) == [];
  }

  /** A last compound selector that is only an attribute matcher, after a
      boundary such as a space, makes the whole selector `*`. */
  lemma TrailingAttributeIsUniversal(u: string, b: string)
    requires Shields(u) && NoLineTerminator(b)
    ensures Significant(u + ("[" + b + "]")) == "*"
  {
    var a := "[" + b + "]";
    var s := u + a;
    assert StripSpace(s) == s;
    assert a[1..|a| - 1] == b;
    assert IsGarbage(a[0..]);
    assert StripGarbage(a) == [];
    StripGarbageSkipsPrefix(u, a);
    assert StripGarbage(s) == u + [];
    PeelSkipsPrefix(u, []);
  }

  /** Trailing white space does not change the result. */
  lemma TrailingSpaceIrrelevant(s: string, w: string)
    requires AllSpace(w)
    ensures Significant(s + w) == Significant(s)
  {
    TrimEndAppendSpace(s, w);
  }

  /** Leading white space (below U+00C0, where the regular expressions do not
      count it as a name character) does not change the result. */
  lemma LeadingSpaceIrrelevant(w: string, s: string)
    requires forall i :: 0 <= i < |w| ==> IsSpace(w[i]) && w[i] < '\U{00C0}'
    ensures Significant(w + s) == Significant(s)
  {
    if AllSpace(s) {
      assert AllSpace(w + s);
      BlankIsUniversal(w + s);
      BlankIsUniversal(s);
    } else if w == [] {
      assert w + s == s;
    } else {
      assert Shields(w);
      LastCompoundOnly(w, s);
    }
  }

  /** Only the last compound selector is examined when the text in front of
      it is free of `:` and `[`: then what precedes an unescaped boundary
      character does not change the result.  A `:` in front does matter, as
      `EarlierPseudoClassDecides` shows. */
  lemma LastCompoundOnly(u: string, q: string)
    requires Shields(u) && !AllSpace(q)
    ensures Significant(u + q) == Significant(q)
  {
    TrimEndPrefix(u, q);
    StripGarbageSkipsPrefix(u, StripSpace(q));
    PeelSkipsPrefix(u, StripGarbage(StripSpace(q)));
  }

  /** Every peeled candidate is a token and a slice of the text it was peeled from. */
  lemma {:induction false} PeeledAreTokens(s: string)
    ensures TokensOf(Peel(s), s)
    decreases |s|
  {
    var i := Leftmost(s, 0, IsToken);
    if i < |s| {
      var rest := StripGarbage(s[..i]);
      PeeledAreTokens(rest);
      PeelStep(s, i);
      assert s[i..|s|] == s[i..];
      PrefixTrans(rest, s[..i], s);
      TokensCons(s[i..], Peel(rest), rest, s);
    }
  }

  lemma PrefixTrans(a: string, b: string, c: string)
    requires a <= b && b <= c
    ensures a <= c
  {
  }

  /** Slices of a prefix are slices of the whole. */
  lemma SubstringOfPrefix(m: string, p: string, s: string)
    requires p <= s && IsSubstring(m, p)
    ensures IsSubstring(m, s)
  {
    var a, b :| 0 <= a <= b <= |p| && p[a..b] == m;
    assert s[a..b] == p[a..b];
  }

  /** Each of `cs` is a token and a slice of `s`. */
  predicate TokensOf(cs: seq<string>, s: string) {
    forall k :: 0 <= k < |cs| ==> IsToken(cs[k]) && IsSubstring(cs[k], s)
  }

  lemma TokensCons(m: string, cs: seq<string>, p: string, s: string)
    requires IsToken(m) && IsSubstring(m, s) && p <= s
    requires TokensOf(cs, p)
    ensures TokensOf([m] + cs, s)
  {
    forall k | 0 <= k < |[m] + cs|
      ensures IsToken(([m] + cs)[k]) && IsSubstring(([m] + cs)[k], s)
    {
      if k > 0 {
        assert ([m] + cs)[k] == cs[k - 1];
        SubstringOfPrefix(cs[k - 1], p, s);
      }
    }
  }

  /** `*` is returned exactly when nothing was peeled; any other result is a
      token -- an optional sigil and at least one unit, never a bare sigil --
      taken from the selector itself. */
  lemma SignificantShape(selector: string)
    ensures Significant(selector) == "*" <==> Candidates(selector) == []
    ensures Significant(selector) != "*" ==>
              IsToken(Significant(selector)) && IsSubstring(Significant(selector), selector)
              && Significant(selector) in Candidates(selector)
  {
    var t := StripGarbage(StripSpace(selector));
    PeeledAreTokens(t);
    PickShape(Candidates(selector), t);
    PrefixTrans(t, StripSpace(selector), selector);
    if Candidates(selector) != [] {
      SubstringOfPrefix(Significant(selector), t, selector);
    }
  }

  /** The choice among tokens is `*` only when there is none to choose. */
  lemma PickShape(cs: seq<string>, t: string)
    requires TokensOf(cs, t)
    ensures Pick(cs) == "*" <==> cs == []
    ensures cs != [] ==> Pick(cs) in cs && IsToken(Pick(cs)) && IsSubstring(Pick(cs), t)
  {
    if cs != [] {
      var r := Pick(cs);
      assert r in cs;
      var k :| 0 <= k < |cs| && cs[k] == r;
      assert IsToken(r);
      assert r != "*" by {
        assert !IsNameChar('*');
      }
    }
  }

  /** On a token, `re.id.test` / `re.cls.test` only look at the first character. */
  lemma TokenSigilTest(t: string, sigil: char)
    requires IsToken(t) && IsSigil(sigil)
    ensures SigilTest(sigil, t) <==> t[0] == sigil
  {
    if t[0] == sigil {
      assert UnitLength(t) == 0;
      assert IsUnits(t[1..]);
    }
  }

  /** On the candidates of a selector, `re.id.test` / `re.cls.test` only
      look at the first character. */
  lemma CandidateSigilTests(selector: string)
    ensures forall j :: 0 <= j < |Candidates(selector)| ==>
              var c := Candidates(selector)[j];
              |c| > 0 && (SigilTest('#', c) <==> c[0] == '#') && (SigilTest('.', c) <==> c[0] == '.')
  {
    var cs := Candidates(selector);
    PeeledAreTokens(StripGarbage(StripSpace(selector)));
    forall j | 0 <= j < |cs|
      ensures |cs[j]| > 0 && (SigilTest('#', cs[j]) <==> cs[j][0] == '#') && (SigilTest('.', cs[j]) <==> cs[j][0] == '.')
    {
      TokenSigilTest(cs[j], '#');
      TokenSigilTest(cs[j], '.');
    }
  }

  predicate StartsWith(c: string, ch: char) {
    |c| > 0 && c[0] == ch
  }

  /** Precedence, first rule: the first peeled (rightmost) `#` candidate wins. */
  lemma IdCandidateWins(selector: string, i: nat)
    requires i < |Candidates(selector)| && StartsWith(Candidates(selector)[i], '#')
    requires forall j :: 0 <= j < i ==> !StartsWith(Candidates(selector)[j], '#')
    ensures Significant(selector) == Candidates(selector)[i]
  {
    var cs := Candidates(selector);
    CandidateSigilTests(selector);
    assert Find(cs, '#') == Some(i);
  }

  /** Precedence, second rule: with no `#` candidate, the first `.` candidate wins. */
  lemma ClassCandidateWins(selector: string, i: nat)
    requires forall j :: 0 <= j < |Candidates(selector)| ==> !StartsWith(Candidates(selector)[j], '#')
    requires i < |Candidates(selector)| && StartsWith(Candidates(selector)[i], '.')
    requires forall j :: 0 <= j < i ==> !StartsWith(Candidates(selector)[j], '.')
    ensures Significant(selector) == Candidates(selector)[i]
  {
    var cs := Candidates(selector);
    CandidateSigilTests(selector);
    assert Find(cs, '#') == None;
    assert Find(cs, '.') == Some(i);
  }

  /** Precedence, last rule: with neither, the first peeled candidate (the
      rightmost token, usually a tag name) is returned. */
  lemma FirstCandidateOtherwise(selector: string)
    requires Candidates(selector) != []
    requires forall j :: 0 <= j < |Candidates(selector)| ==>
               !StartsWith(Candidates(selector)[j], '#') && !StartsWith(Candidates(selector)[j], '.')
    ensures Significant(selector) == Candidates(selector)[0]
  {
    var cs := Candidates(selector);
    CandidateSigilTests(selector);
    assert Find(cs, '#') == None;
    assert Find(cs, '.') == None;
  }
}
