/**
 * How `SelectorSet.prototype.add` (src/SelectorSet.js) cuts a selector list
 * into the selectors it holds: at every `,` that is not inside a quoted
 * string.  A quote is opened by `'` or `"` and closed only by the same
 * character; there is no escaping.
 */
module SelectorSplit {
  import opened Options

  /** `IGNORE_BOUNDARIES`. */
  predicate IsQuote(c: char) {
    c == '\'' || c == '"'
  }

  /** `SELECTORS_DELIMITER`. */
  const Delimiter: char := ','

  /** One turn of the quote flag: `None` is the JavaScript `false`, `Some(q)`
      the quote character `q` that is open. */
  function Step(flag: Option<char>, c: char): Option<char> {
    if flag == Some(c) then None
    else if flag.None? && IsQuote(c) then Some(c)
    else flag
  }

  /** The flag after reading `s` from the state `flag`. */
  function Scan(flag: Option<char>, s: string): Option<char>
    decreases |s|
  {
    if s == [] then flag else Step(Scan(flag, s[..|s| - 1]), s[|s| - 1])
  }

  /** The flag after reading `s` from the start, where no quote is open. */
  function FlagAfter(s: string): Option<char> {
    Scan(None, s)
  }

  /** `s[k]` is a delimiter outside every quote: a place where `add` cuts. */
  predicate IsCut(s: string, k: nat)
    requires k < |s|
  {
    s[k] == Delimiter && FlagAfter(s[..k]) == None
  }

  /** The first cut at or after `i`, or `|s|`. */
  function CutFrom(s: string, i: nat): (r: nat)
    requires i <= |s|
    ensures i <= r <= |s| && (r < |s| ==> IsCut(s, r))
    ensures forall k :: i <= k < r ==> !IsCut(s, k)
    decreases |s| - i
  {
    if i == |s| || IsCut(s, i) then i else CutFrom(s, i + 1)
  }

  /** The selectors `add` files, in order: the pieces between cuts.  A list
      ending in a cut has no empty last piece, and the empty list has no
      piece at all; pieces are not yet trimmed. */
  function Pieces(s: string): seq<string>
    decreases |s|
  {
    if s == [] then []
    else
      var i := CutFrom(s, 0);
      [s[..i]] + (if i < |s| then Pieces(s[i + 1..]) else [])
  }

  /** `ps.join(",")`, with no piece for the empty list. */
  function Join(ps: seq<string>): string {
    if ps == [] then ""
    else if |ps| == 1 then ps[0]
    else ps[0] + ([Delimiter] + Join(ps[1..]))
  }

  /** `s` ends in a cut. */
  predicate EndsInCut(s: string) {
    |s| > 0 && IsCut(s, |s| - 1)
  }

  /** No piece holds a cut of its own. */
  predicate NoCut(p: string) {
    forall k :: 0 <= k < |p| ==> !IsCut(p, k)
  }

  // ---------------------------------------------------------------------------
  // The quote flag
  // ---------------------------------------------------------------------------

  /** Reading two strings in a row is reading one, then the other. */
  lemma {:induction false} ScanAppend(flag: Option<char>, u: string, v: string)
    ensures Scan(flag, u + v) == Scan(Scan(flag, u), v)
    decreases |v|
  {
    if v == [] {
      assert u + v == u;
    } else {
      var v' := v[..|v| - 1];
      assert (u + v)[..|u + v| - 1] == u + v';
      ScanAppend(flag, u, v');
    }
  }

  /** After a cut, the quote flag starts afresh: what follows a cut reads
      as it would on its own. */
  lemma AfterCut(s: string, i: nat, w: string)
    requires i < |s| && IsCut(s, i)
    ensures FlagAfter(s[..i + 1] + w) == FlagAfter(w)
  {
    assert s[..i + 1][..i] == s[..i];
    assert FlagAfter(s[..i + 1]) == None;
    ScanAppend(None, s[..i + 1], w);
  }

  /** The first cut is the one position that is a cut with none before it. */
  lemma CutFromIs(s: string, n: nat)
    requires n <= |s| && (n == |s| || IsCut(s, n))
    requires forall k :: 0 <= k < n ==> !IsCut(s, k)
    ensures CutFrom(s, 0) == n
  {
  }

  /** Cuts behind the first one are the cuts of what follows it. */
  lemma CutShift(s: string, i: nat, k: nat)
    requires i < |s| && IsCut(s, i) && i < k < |s|
    ensures IsCut(s, k) <==> IsCut(s[i + 1..], k - i - 1)
  {
    var r := s[i + 1..];
    assert s[..k] == s[..i + 1] + r[..k - i - 1];
    AfterCut(s, i, r[..k - i - 1]);
  }

  // ---------------------------------------------------------------------------
  // Pieces and joins
  // ---------------------------------------------------------------------------

  lemma PiecesWhole(s: string)
    requires s != [] && CutFrom(s, 0) == |s|
    ensures Pieces(s) == [s]
  {
    assert s[..|s|] == s;
  }

  lemma PiecesCut(s: string)
    requires s != [] && CutFrom(s, 0) < |s|
    ensures Pieces(s) == [s[..CutFrom(s, 0)]] + Pieces(s[CutFrom(s, 0) + 1..])
  {
  }

  /** The tail of the list fixes the final cut. */
  lemma EndsInCutShift(s: string, i: nat)
    requires i + 1 < |s| && IsCut(s, i)
    ensures EndsInCut(s) <==> EndsInCut(s[i + 1..])
  {
    CutShift(s, i, |s| - 1);
  }

  /** Joining the pieces gives the list back, up to a final cut, which leaves
      no piece behind. */
  lemma {:induction false} JoinPieces(s: string)
    ensures Join(Pieces(s)) + (if EndsInCut(s) then [Delimiter] else []) == s
    decreases |s|
  {
    if s != [] {
      var i := CutFrom(s, 0);
      if i == |s| {
        PiecesWhole(s);
      } else if i + 1 == |s| {
        PiecesCut(s);
        assert Pieces(s) == [s[..i]];
        assert s == s[..i] + [Delimiter];
      } else {
        var r := s[i + 1..];
        JoinPieces(r);
        JoinPiecesStep(s, i, if EndsInCut(r) then [Delimiter] else []);
      }
    }
  }

  lemma JoinPiecesStep(s: string, i: nat, tail: string)
    requires i + 1 < |s| && i == CutFrom(s, 0)
    requires tail == (if EndsInCut(s[i + 1..]) then [Delimiter] else [])
    requires Join(Pieces(s[i + 1..])) + tail == s[i + 1..]
    ensures Join(Pieces(s)) + (if EndsInCut(s) then [Delimiter] else []) == s
  {
    var r := s[i + 1..];
    var a := s[..i];
    var ps := Pieces(r);
    PiecesCut(s);
    EndsInCutShift(s, i);
    PiecesNonEmpty(r);
    JoinCons(a, ps);
    SplitAround(s, i);
    Reassemble(a, Join(ps), tail, r, s);
  }

  lemma Reassemble(a: string, j: string, tail: string, r: string, s: string)
    requires j + tail == r && s == a + ([Delimiter] + r)
    ensures (a + ([Delimiter] + j)) + tail == s
  {
    ConsAppend(a, j, tail);
  }

  lemma SplitAround(s: string, i: nat)
    requires i < |s| && s[i] == Delimiter
    ensures s == s[..i] + ([Delimiter] + s[i + 1..])
  {
  }

  lemma ConsAppend(a: string, j: string, tail: string)
    ensures (a + ([Delimiter] + j)) + tail == a + ([Delimiter] + (j + tail))
  {
  }

  lemma PiecesNonEmpty(s: string)
    requires s != []
    ensures Pieces(s) != []
  {
  }

  lemma JoinCons(p: string, ps: seq<string>)
    requires ps != []
    ensures Join([p] + ps) == p + ([Delimiter] + Join(ps))
  {
    assert ([p] + ps)[1..] == ps;
  }

  /** The piece in front of the first cut holds no cut. */
  lemma FirstPieceNoCut(s: string, i: nat)
    requires i <= |s| && forall k :: 0 <= k < i ==> !IsCut(s, k)
    ensures NoCut(s[..i])
  {
    forall k | 0 <= k < i
      ensures !IsCut(s[..i], k)
    {
      assert !IsCut(s, k);
      assert s[..i][..k] == s[..k];
    }
  }

  /** A comma inside a piece is always one inside quotes. */
  lemma {:induction false} PiecesHaveNoCut(s: string)
    ensures forall k :: 0 <= k < |Pieces(s)| ==> NoCut(Pieces(s)[k])
    decreases |s|
  {
    if s != [] {
      var i := CutFrom(s, 0);
      FirstPieceNoCut(s, i);
      if i < |s| {
        PiecesHaveNoCut(s[i + 1..]);
        PiecesCut(s);
      } else {
        PiecesWhole(s);
      }
    }
  }

  /** A piece that closes every quote it opens and holds no cut, followed by
      a delimiter: the first cut is that delimiter, and the rest reads afresh. */
  lemma CutAfterPiece(p: string, w: string)
    requires NoCut(p) && FlagAfter(p) == None
    ensures CutFrom(p + ([Delimiter] + w), 0) == |p|
    ensures (p + ([Delimiter] + w))[|p| + 1..] == w
  {
    var s := p + ([Delimiter] + w);
    forall k | 0 <= k < |p|
      ensures !IsCut(s, k)
    {
      assert s[..k] == p[..k];
      assert !IsCut(p, k);
    }
    assert s[..|p|] == p;
    assert IsCut(s, |p|);
  }

  /** Cutting undoes joining, for pieces that hold no cut, close every quote
      they open, and end in a non-empty piece. */
  lemma {:induction false} PiecesJoin(ps: seq<string>)
    requires forall k :: 0 <= k < |ps| ==> NoCut(ps[k]) && FlagAfter(ps[k]) == None
    requires ps != [] ==> ps[|ps| - 1] != []
    ensures Pieces(Join(ps)) == ps
    decreases |ps|
  {
    if |ps| == 1 {
      var p := ps[0];
      assert CutFrom(p, 0) == |p|;
      PiecesWhole(p);
    } else if |ps| > 1 {
      var p := ps[0];
      var w := Join(ps[1..]);
      CutAfterPiece(p, w);
      PiecesJoin(ps[1..]);
      PiecesCut(p + ([Delimiter] + w));
      assert Join(ps) == p + ([Delimiter] + w);
    }
  }
}
