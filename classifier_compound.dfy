/**
 * How the classifier of src/classifier.js treats one compound selector built
 * from plain names: which token wins inside the last compound, what happens to
 * a trailing attribute test or pseudo-class, and that an escaped character
 * never splits a token.
 */
module ClassifierCompound {
  import opened JsStrings
  import opened Classifier
  import opened ClassifierFacts
  import opened Options

  /** A non-empty run of ASCII letters, digits, `_` and `-`: a tag, id or
      class name with nothing to escape. */
  predicate IsPlainName(w: string) {
    |w| > 0 &&
    forall i :: 0 <= i < |w| ==>
      ('a' <= w[i] <= 'z') || ('A' <= w[i] <= 'Z') || ('0' <= w[i] <= '9') || w[i] == '_' || w[i] == '-'
  }

  lemma {:induction false} PlainIsUnits(w: string)
    requires IsPlainName(w)
    ensures IsUnits(w)
    decreases |w|
  {
    if |w| > 1 {
      assert IsPlainName(w[1..]) by {
        forall i | 0 <= i < |w| - 1 ensures w[1..][i] == w[i + 1] { }
      }
      PlainIsUnits(w[1..]);
    }
  }

  /** Units followed by units are units. */
  lemma {:induction false} UnitsAppend(a: string, b: string)
    requires IsUnits(a) && IsUnits(b)
    ensures IsUnits(a + b)
    decreases |a|
  {
    var n := UnitLength(a);
    assert (a + b)[..n] == a[..n];
    assert UnitLength(a + b) == n;
    if n == |a| {
      assert (a + b)[n..] == b;
    } else {
      assert (a + b)[n..] == a[n..] + b;
      UnitsAppend(a[n..], b);
    }
  }


  lemma NoGarbageKept(s: string)
    requires NoGarbageStart(s)
    ensures StripGarbage(s) == s
  {
    StripGarbageSkipsPrefix(s, []);
    assert s + [] == s;
  }

  /** Text that is a single run of units is peeled as one candidate. */
  lemma PeelUnits(t: string)
    requires IsUnits(t)
    ensures Peel(t) == [t]
  {
    assert t[0..] == t;
    LeftmostUnique(t, IsToken, 0);
    PeelStep(t, 0);
    assert t[..0] == [];
    assert StripGarbage([]) == [];
  }

  lemma NoTokenBeforeSigil(u: string, q: string, j: nat)
    requires j < |u| && |q| > 0 && IsSigil(q[0]) && u[|u| - 1] != '\\'
    ensures !IsToken((u + q)[j..])
  {
    var t := (u + q)[j..];
    var k := |u| - j;
    assert t[k] == q[0] && t[k - 1] == u[|u| - 1];
    if IsUnits(t) { UnitsChars(t); }
    if |t| > 0 && IsSigil(t[0]) && IsUnits(t[1..]) {
      UnitsChars(t[1..]);
    }
  }

  /** Pick on a single candidate without a sigil returns it. */
  lemma PickTag(t: string)
    requires |t| > 0 && !IsSigil(t[0])
    ensures Pick([t]) == t
  {
    assert !SigilTest('#', t) && !SigilTest('.', t);
    assert [t][1..] == [];
  }

  /** A sigil that is not escaped ends the text before it: the token from the
      sigil on is peeled first, then the classifier goes on with the text in
      front of it. */
  lemma PeelSigilTail(u: string, sigil: char, c: string)
    requires IsSigil(sigil) && IsUnits(c)
    requires NoGarbageStart(u) && (|u| > 0 ==> u[|u| - 1] != '\\')
    ensures Peel(u + ([sigil] + c)) == [[sigil] + c] + Peel(u)
  {
    var q := [sigil] + c;
    var s := u + q;
    forall j | 0 <= j < |u|
      ensures !IsToken(s[j..])
    {
      NoTokenBeforeSigil(u, q, j);
    }
    assert q[1..] == c && q[0..] == q;
    assert IsToken(q);
    LeftmostUnique(q, IsToken, 0);
    LeftmostShift(u, q, IsToken);
    PeelStep(s, |u|);
    assert s[|u|..] == q && s[..|u|] == u;
    NoGarbageKept(u);
  }

  /** A lone tag name is its own significant part: `div` gives `div`. */
  lemma TagAlone(t: string)
    requires IsPlainName(t)
    ensures Significant(t) == t
  {
    PlainIsUnits(t);
    NoGarbageKept(t);
    PeelUnits(t);
    PickTag(t);
  }

  /** A class beats the tag in front of it: `div.bar` gives `.bar`. */
  lemma ClassBeatsTag(t: string, c: string)
    requires IsPlainName(t) && IsPlainName(c)
    ensures Significant(t + ("." + c)) == "." + c
  {
    var q := "." + c;
    var s := t + q;
    assert s[|s| - 1] == c[|c| - 1];
    assert StripSpace(s) == s;
    NoGarbageKept(s);
    PlainIsUnits(t);
    PlainIsUnits(c);
    PeelUnits(t);
    PeelSigilTail(t, '.', c);
    assert Candidates(s) == [q, t];
    assert q[1..] == c;
    assert !SigilTest('#', q) && !SigilTest('#', t) && SigilTest('.', q);
  }

  lemma IdClassTagCandidates(t: string, i: string, c: string)
    requires IsPlainName(t) && IsPlainName(i) && IsPlainName(c)
    ensures Candidates(t + ("#" + i) + ("." + c)) == ["." + c, "#" + i, t]
  {
    var u := t + ("#" + i);
    var s := u + ("." + c);
    assert s[|s| - 1] == c[|c| - 1];
    assert StripSpace(s) == s;
    NoGarbageKept(s);
    PlainIsUnits(i);
    PlainIsUnits(c);
    assert u[|u| - 1] == i[|i| - 1];
    PeelSigilTail(u, '.', c);
    PeelSigilTail(t, '#', i);
    PlainIsUnits(t);
    PeelUnits(t);
  }

  /** An id beats a class after it and the tag in front of it:
      `tag#id-hello.class` gives `#id-hello`. */
  lemma IdBeatsClassAndTag(t: string, i: string, c: string)
    requires IsPlainName(t) && IsPlainName(i) && IsPlainName(c)
    ensures Significant(t + ("#" + i) + ("." + c)) == "#" + i
  {
    var p := "#" + i;
    var q := "." + c;
    IdClassTagCandidates(t, i, c);
    assert p[1..] == i;
    assert !SigilTest('#', q) && SigilTest('#', p);
    assert Find([q, p, t], '#') == Some(1) by {
      assert [q, p, t][1..] == [p, t];
    }
  }

  /** An attribute test at the end of a selector is cut off before any token
      is peeled: `tag#id.class[attr = '#123']` is classified as
      `tag#id.class`. */
  lemma AttributeDiscarded(u: string, b: string)
    requires NoGarbageStart(u) && (|u| > 0 ==> !IsSpace(u[|u| - 1]))
    requires NoLineTerminator(b)
    ensures Significant(u + ("[" + b + "]")) == Significant(u)
  {
    var a := "[" + b + "]";
    var s := u + a;
    assert StripSpace(s) == s;
    assert a[0..] == a && a[1..|a| - 1] == b;
    assert IsGarbage(a);
    LeftmostUnique(a, IsGarbage, 0);
    assert StripGarbage(a) == [];
    StripGarbageSkipsPrefix(u, a);
    assert StripGarbage(s) == u + [];
    assert u + [] == u;
    assert StripSpace(u) == u;
    NoGarbageKept(u);
  }

  /** A pseudo-class at the end of a selector is cut off likewise:
      `a:active` is classified as `a`. */
  lemma PseudoClassDiscarded(u: string, p: string)
    requires NoGarbageStart(u) && (|u| > 0 ==> !IsSpace(u[|u| - 1]))
    requires |p| > 0 && NoLineTerminator(p) && !IsSpace(p[|p| - 1])
    ensures Significant(u + (":" + p)) == Significant(u)
  {
    var a := ":" + p;
    var s := u + a;
    assert s[|s| - 1] == p[|p| - 1];
    assert StripSpace(s) == s;
    assert a[0..] == a && a[1..] == p;
    assert IsGarbage(a);
    LeftmostUnique(a, IsGarbage, 0);
    assert StripGarbage(a) == [];
    StripGarbageSkipsPrefix(u, a);
    assert StripGarbage(s) == u + [];
    assert u + [] == u;
    assert StripSpace(u) == u;
    NoGarbageKept(u);
  }

  /** An escaped character, even a sigil or a space, stays inside the token:
      `a\ b` and `a\.b` are each one tag name. */
  lemma EscapeStaysInToken(t: string, e: char, c: string)
    requires IsPlainName(t) && IsPlainName(c)
    requires !IsLineTerminator(e) && e != ':' && e != '['
    ensures Significant(t + ([ '\\', e] + c)) == t + ([ '\\', e] + c)
  {
    var x := ['\\', e] + c;
    var s := t + x;
    assert s[|s| - 1] == c[|c| - 1];
    assert StripSpace(s) == s;
    assert NoGarbageStart(s) by {
      forall k | 0 <= k < |s| ensures s[k] != ':' && s[k] != '[' {
        if k >= |t| + 2 { assert s[k] == c[k - |t| - 2]; }
      }
    }
    NoGarbageKept(s);
    PlainIsUnits(t);
    PlainIsUnits(c);
    assert UnitLength(x) == 2 && x[2..] == c;
    assert IsUnits(x);
    UnitsAppend(t, x);
    PeelUnits(s);
    assert s[0] == t[0];
    assert !SigilTest('#', s) && !SigilTest('.', s);
  }

  /** The last compound decides, and a class in it beats its tag: with `u`
      as `p > `, `p > div.bar` gives `.bar`. */
  lemma DescendantClass(u: string, t: string, c: string)
    requires Shields(u) && IsPlainName(t) && IsPlainName(c)
    ensures Significant(u + (t + ("." + c))) == "." + c
  {
    var q := t + ("." + c);
    assert q[0] == t[0];
    ClassBeatsTag(t, c);
    LastCompoundOnly(u, q);
  }


  /** The garbage strip does not honour escapes: in `a\:b` the escaped colon
      still starts a pseudo-class, and the backslash left at the end starts
      no token, so the result is `*`. */
  lemma EscapedColonIsGarbage()
    ensures Significant("a\\:b") == "*"
  {
    assert "a\\:b" == "a\\" + (":" + "b");
    PseudoClassDiscarded("a\\", "b");
    TrailingBackslashIsUniversal();
  }

  /** A selector ending in a lone backslash holds no token: `a\\` gives `*`. */
  lemma TrailingBackslashIsUniversal()
    ensures Significant("a\\") == "*"
  {
    var s := "a\\";
    assert StripSpace(s) == s;
    NoGarbageKept(s);
    assert !IsToken(s[0..]) && !IsToken(s[1..]);
    LeftmostUnique(s, IsToken, 2);
  }

  /** The leftmost colon starts the garbage even when an attribute test
      follows the pseudo-class after a space: `a:hover [x]` gives `a`, not `*`. */
  lemma PseudoClassBeforeAttribute(t: string, p: string, b: string)
    requires IsPlainName(t) && NoLineTerminator(p) && NoLineTerminator(b)
    ensures Significant(t + (":" + (p + (" [" + b + "]")))) == t
  {
    var q := p + (" [" + b + "]");
    assert NoLineTerminator(q) by {
      forall k | 0 <= k < |q| ensures !IsLineTerminator(q[k]) {
        if k < |p| {
          assert q[k] == p[k];
        } else if k >= |p| + 2 && k < |q| - 1 {
          assert q[k] == b[k - |p| - 2];
        }
      }
    }
    assert q[|q| - 1] == ']';
    assert !IsSpace(t[|t| - 1]);
    PseudoClassDiscarded(t, q);
    TagAlone(t);
  }

  /** A pseudo-class in an earlier compound starts the garbage too, so it
      decides the result: `li:hover a` gives `li`, not `a`. */
  lemma EarlierPseudoClassDecides(t: string, p: string, q: string)
    requires IsPlainName(t) && NoLineTerminator(p) && IsPlainName(q)
    ensures Significant(t + (":" + (p + (" " + q)))) == t
  {
    var r := p + (" " + q);
    assert NoLineTerminator(r) by {
      forall k | 0 <= k < |r| ensures !IsLineTerminator(r[k]) {
        if k < |p| {
          assert r[k] == p[k];
        } else if k > |p| {
          assert r[k] == q[k - |p| - 1];
        }
      }
    }
    assert r[|r| - 1] == q[|q| - 1];
    assert !IsSpace(t[|t| - 1]);
    PseudoClassDiscarded(t, r);
    TagAlone(t);
  }
}
