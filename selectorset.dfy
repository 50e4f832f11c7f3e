/**
 * src/SelectorSet.js: the index of selectors.  `add` cuts a selector list at
 * its top-level commas and files each trimmed piece, with its data, in the
 * first subset whose type test accepts the piece's significant part;
 * `matches` looks every given element up in all four subsets under the keys
 * each subset extracts from it, and returns the candidates the element
 * matches, each once, in the order they were met.
 *
 * The model keeps, as ghost state, the entries added so far; `Valid` ties
 * the four MappedLists to the filing function `Filed` of IndexSpec, and
 * `matches` is proved to return `Result`, whose properties IndexSpec proves.
 */
module SelectorSet {
  import opened Options
  import opened JsStrings
  import opened Classifier
  import opened Buckets
  import opened MappedLists
  import opened Subsets
  import opened SelectorSplit
  import opened IndexSpec
  import opened Seqs

  /** `e` is the entry `add` makes of `piece` and `data`, filed under the
      significant part of the trimmed piece. */
  ghost predicate MadeOf<D>(e: Entry<D>, piece: string, data: D) {
    e.selector == Trim(piece) && e.data == data && e.key == Significant(e.selector)
  }

  /** `after` is `before` followed by one entry per piece: the trimmed piece
      with `data`. */
  ghost predicate Extends<D>(before: seq<Entry<D>>, after: seq<Entry<D>>, pieces: seq<string>, data: D) {
    |after| == |before| + |pieces| && after[..|before|] == before
    && forall k :: 0 <= k < |pieces| ==> MadeOf(after[|before| + k], pieces[k], data)
  }

  lemma ExtendsStep<D>(before: seq<Entry<D>>, after: seq<Entry<D>>, pieces: seq<string>, data: D, e: Entry<D>, piece: string)
    requires Extends(before, after, pieces, data) && MadeOf(e, piece, data)
    ensures Extends(before, after + [e], pieces + [piece], data)
  {
    var after', pieces' := after + [e], pieces + [piece];
    assert after'[..|before|] == after[..|before|];
    forall k | 0 <= k < |pieces'|
      ensures MadeOf(after'[|before| + k], pieces'[k], data)
    {
      if k < |pieces| {
        assert after'[|before| + k] == after[|before| + k] && pieces'[k] == pieces[k];
      } else {
        assert after'[|before| + k] == e && pieces'[k] == piece;
      }
    }
  }

  /** What `add` stored for a piece is what `matches` can find: its entry is
      returned exactly when the piece's significant part found a subset and
      an element looked up under that part matches the trimmed piece. */
  lemma AddedPieceMatched<D>(entries: seq<Entry<D>>, args: seq<Arg>, ms: (Element, string) -> bool,
                             e: Entry<D>, piece: string, data: D)
    requires e in entries && MadeOf(e, piece, data)
    ensures e in Result(entries, args, ms) <==>
              Route(Significant(Trim(piece))).Some?
              && exists t :: 0 <= t < |Flatten(args)| && ms(Flatten(args)[t], Trim(piece)) && Keyed(e, Flatten(args)[t])
  {
    ResultMembers(entries, args, ms, e);
  }

  /** `rest` is what `selector` holds from `from` on, stated index by index. */
  ghost predicate SuffixAt(selector: string, from: nat, rest: string) {
    from + |rest| == |selector| && forall k :: 0 <= k < |rest| ==> rest[k] == selector[from + k]
  }

  /** `selector.substr(from, len)` is the start of what is left. */
  lemma SuffixTake(selector: string, from: nat, rest: string, len: nat)
    requires SuffixAt(selector, from, rest) && len <= |rest|
    ensures selector[from..from + len] == rest[..len]
  {
  }

  /** Past a cut, what is left is the rest of the rest. */
  lemma SuffixDrop(selector: string, from: nat, rest: string, n: nat)
    requires SuffixAt(selector, from, rest) && n <= |rest|
    ensures SuffixAt(selector, from + n, rest[n..])
  {
  }

  /** One turn of the inner loop of `add`: the character read is no cut,
      and the flag moves on by it. */
  lemma ScanStep(rest: string, len: nat, flag: Option<char>)
    requires len < |rest| && flag == FlagAfter(rest[..len])
    requires forall k :: 0 <= k < len ==> !IsCut(rest, k)
    requires flag.Some? || rest[len] != Delimiter
    ensures Step(flag, rest[len]) == FlagAfter(rest[..len + 1])
    ensures forall k :: 0 <= k < len + 1 ==> !IsCut(rest, k)
  {
    assert rest[..len + 1][..len] == rest[..len];
  }

  /** One turn of the outer loop of `add`: the piece read is the first piece
      of what is left, and what lies past the cut is left for the next turn. */
  lemma PieceStep(selector: string, from: nat, rest: string, len: nat)
    requires SuffixAt(selector, from, rest) && 0 < |rest| && len <= |rest|
    requires forall k :: 0 <= k < len ==> !IsCut(rest, k)
    requires len == |rest| || IsCut(rest, len)
    ensures selector[from..from + len] == rest[..len]
    ensures Pieces(rest) == [rest[..len]] + (if len < |rest| then Pieces(rest[len + 1..]) else [])
    ensures len < |rest| ==> SuffixAt(selector, from + len + 1, rest[len + 1..])
  {
    SuffixTake(selector, from, rest, len);
    FirstPiece(rest, len);
    if len < |rest| {
      SuffixDrop(selector, from, rest, len + 1);
    }
  }

  /** The first piece ends at the first cut, or at the end. */
  lemma FirstPiece(rest: string, len: nat)
    requires 0 < |rest| && len <= |rest|
    requires forall k :: 0 <= k < len ==> !IsCut(rest, k)
    requires len == |rest| || IsCut(rest, len)
    ensures len < |rest| ==> Pieces(rest) == [rest[..len]] + Pieces(rest[len + 1..])
    ensures len == |rest| ==> Pieces(rest) == [rest]
  {
    CutFromIs(rest, len);
    if len < |rest| {
      PiecesCut(rest);
    } else {
      PiecesWhole(rest);
    }
  }

  class SelectorSet<D> {
    /** `this.subsets`: id, class, tag and universal, in that order. */
    const subsets: seq<Subset<Entry<D>>>
    /** The MappedLists objects of the subsets, which `add` updates. */
    ghost const Repr: set<object>
    /** Every entry `_add` has created, oldest first, filed or not. */
    ghost var entries: seq<Entry<D>>

    /** The subsets are the four of the factory, each holding what `Filed`
        says, and no entry was added twice: `_add` makes a new array for
        every piece, so `add("a, a")` stores two entries. */
    ghost predicate Valid()
      reads this, Repr
    {
      WellFormed(subsets)
      && Repr == (set i | 0 <= i < |subsets| :: subsets[i].lists as object)
      && NoDuplicates(entries)
      && forall i :: 0 <= i < |Kinds| ==> Linked(i)
    }

    /** The MappedLists of subset `i` holds what `Filed` says of the entries. */
    ghost predicate Linked(i: nat)
      requires i < |Kinds| == |subsets|
      reads this, subsets[i].lists
    {
      subsets[i].lists.Valid() && subsets[i].lists.history == Filed(entries, i)
    }

    /** `new SelectorSet()`: four empty subsets. */
    constructor ()
      ensures Valid() && entries == [] && fresh(Repr)
    {
      var s := MakeSubsets<Entry<D>>();
      subsets := s;
      Repr := set i | 0 <= i < |s| :: s[i].lists as object;
      entries := [];
    }

    /** `_add(piece, data)`: files the trimmed piece and its data in the first
        subset that accepts the piece's significant part, if any. */
    method AddPiece(piece: string, data: D) returns (ghost e: Entry<D>)
      requires Valid()
      modifies this, Repr
      ensures Valid() && entries == old(entries) + [e]
      ensures fresh(e) && e.selector == Trim(piece) && e.data == data
      ensures e.key == Significant(Trim(piece))
    {
      var selector := Trim(piece);
      e := Insert(selector, data);
    }

    /** The rest of `_add`, on the trimmed piece: creates its entry and files
        it under the significant part. */
    method Insert(selector: string, data: D) returns (ghost e: Entry<D>)
      requires Valid()
      modifies this, Repr
      ensures Valid() && entries == old(entries) + [e]
      ensures fresh(e) && e.selector == selector && e.data == data
      ensures e.key == Significant(selector)
    {
      var key := Classify(selector);
      var entry := new Entry(selector, data);
      File(entry, key);
      e := entry;
    }

    /** The loop of `_add`: appends `e` to the entries and adds it under
        `key` to the first subset whose type test accepts `key`. */
    method File(e: Entry<D>, key: string)
      requires Valid() && e.key == key && e !in entries
      modifies this, Repr
      ensures Valid() && entries == old(entries) + [e]
    {
      ghost var before := entries;
      entries := entries + [e];
      NoDuplicatesAppend(before, e);
      var i := 0;
      while i < |subsets|
        invariant 0 <= i <= |Kinds|
        invariant forall j :: 0 <= j < i ==> !IsOfType(Kinds[j], key)
        invariant unchanged(Repr)
      {
        if subsets[i].IsOfTypeOf(key) {
          assert Home(e) == Some(i);
          assert old(Linked(i));
          var _ := subsets[i].Add(key, e);
          forall j | 0 <= j < |Kinds|
            ensures Linked(j)
          {
            assert old(Linked(j));
            FiledAppend(before, e, j);
          }
          return;
        }
        i := i + 1;
      }
      assert Home(e).None?;
      forall j | 0 <= j < |Kinds|
        ensures Linked(j)
      {
        assert old(Linked(j));
        FiledAppend(before, e, j);
      }
    }

    /** `add(selector, data)`: files every piece of the selector list, in
        order, and returns the receiver. */
    method Add(selector: string, data: D) returns (self: SelectorSet<D>)
      requires Valid()
      modifies this, Repr
      ensures Valid() && self == this
      ensures Extends(old(entries), entries, Pieces(selector), data)
      ensures forall k :: |old(entries)| <= k < |entries| ==> fresh(entries[k])
      ensures NoDuplicates(entries)
    {
      var from, len, tot := 0, 0, |selector|;
      var flag: Option<char> := None;
      ghost var done: seq<string> := [];
      ghost var rest := selector;
      ghost var todo := Pieces(selector);
      assert entries[..|entries|] == entries;
      while from + len < tot
        invariant len == 0 && from <= tot + 1
        invariant Valid()
        invariant Pieces(selector) == done + todo
        invariant from <= tot ==> flag.None? && SuffixAt(selector, from, rest) && todo == Pieces(rest)
        invariant from == tot + 1 ==> todo == []
        invariant Extends(old(entries), entries, done, data)
        invariant forall k :: |old(entries)| <= k < |entries| ==> fresh(entries[k])
        decreases tot + 1 - from
      {
        len, flag := ScanPiece(selector, from, flag, rest);
        var piece := selector[from..from + len];
        PieceStep(selector, from, rest, len);
        ghost var next := if len < |rest| then Pieces(rest[len + 1..]) else [];
        Shift(done, todo, piece, next);
        ghost var mid := entries;
        ghost var e := AddPiece(piece, data);
        ExtendsStep(old(entries), mid, done, data, e, piece);
        done, todo := done + [piece], next;
        if len < |rest| {
          rest := rest[len + 1..];
        }
        from := from + len + 1;
        len := 0;
      }
      if from == tot {
        assert rest == [];
      }
      return this;
    }

    /** The inner loop of `add`: reads on from `from` up to the first comma
        outside quotes, or the end, keeping the quote flag; `rest` is what
        is left of the selector list from `from` on. */
    static method ScanPiece(selector: string, from: nat, flag0: Option<char>, ghost rest: string)
        returns (len: nat, flag: Option<char>)
      requires SuffixAt(selector, from, rest) && 0 < |rest| && flag0.None?
      ensures len <= |rest|
      ensures forall k :: 0 <= k < len ==> !IsCut(rest, k)
      ensures len == |rest| || IsCut(rest, len)
      ensures len < |rest| ==> flag.None?
    {
      len, flag := 0, flag0;
      while from + len < |selector| && (flag.Some? || selector[from + len] != Delimiter)
        invariant len <= |rest|
        invariant flag == FlagAfter(rest[..len])
        invariant forall k :: 0 <= k < len ==> !IsCut(rest, k)
        decreases |selector| - from - len
      {
        var c := selector[from + len];
        ScanStep(rest, len, flag);
        if flag == Some(c) {
          flag := None;
        } else if flag.None? && IsQuote(c) {
          flag := Some(c);
        }
        len := len + 1;
      }
    }

    /** `matches(args...)`: the entries met while looking the flattened
        elements up, in order, that match their element and are not
        returned already. */
    method Matches(args: seq<Arg>, ms: (Element, string) -> bool) returns (res: seq<Entry<D>>)
      requires Valid()
      ensures res == Result(entries, args, ms)
    {
      res := [];
      var els := Flatten(args);
      var t := 0;
      while t < |els|
        invariant t <= |els|
        invariant res == Collect([], Visits(entries, els[..t]), ms)
      {
        var el := els[t];
        ghost var r := res;
        res := MatchElement(el, res, ms);
        VisitsStep(entries, els, t, r, res, ms);
        t := t + 1;
      }
      VisitsAll(entries, args, t, res, ms);
    }

    /** One turn of the loop over the elements in `matches`: the four
        subsets, in order, and the keys each extracts from `el`. */
    method MatchElement(el: Element, res0: seq<Entry<D>>, ms: (Element, string) -> bool) returns (res: seq<Entry<D>>)
      requires Valid()
      ensures res == Collect(res0, CandidatesOf(entries, el), ms)
    {
      res := res0;
      var i := 0;
      while i < |subsets|
        invariant i <= |Kinds|
        invariant res == Collect(res0, ConcatMap(SubsetLookup(entries, el), Indices[..i]), ms)
      {
        var subset := subsets[i];
        var elKeys := subset.ExtractElementKeys(el);
        res := MatchKeys(i, el, elKeys, res, ms);
        SubsetLookupAt(entries, el, i);
        CollectConcatMapStep(res0, SubsetLookup(entries, el), Indices, i, ms);
        i := i + 1;
      }
      SubsetLookupAll(entries, el, i);
    }

    /** The loop over the element keys of subset `i`. */
    method MatchKeys(i: nat, el: Element, elKeys: seq<string>, res0: seq<Entry<D>>, ms: (Element, string) -> bool)
        returns (res: seq<Entry<D>>)
      requires Valid() && i < |Kinds|
      ensures res == Collect(res0, KeyVisits(entries, el, i, elKeys), ms)
    {
      res := res0;
      var subset := subsets[i];
      assert Linked(i);
      assert subset.ci == (Kinds[i] == TagKind);
      var j := 0;
      while j < |elKeys|
        invariant j <= |elKeys|
        invariant res == Collect(res0, ConcatMap(KeyLookup(entries, el, i), elKeys[..j]), ms)
      {
        var candidates := subset.Get(elKeys[j]);
        KeyLookupAt(entries, el, i, elKeys[j], candidates);
        res := MatchCandidates(el, candidates, res, ms);
        CollectConcatMapStep(res0, KeyLookup(entries, el, i), elKeys, j, ms);
        j := j + 1;
      }
      KeyVisitsAll(entries, el, i, elKeys, j);
    }

    /** The loop over the candidates of one key: each is pushed when it is
        not in `res` yet and matches `el`. */
    static method MatchCandidates(el: Element, candidates: seq<Entry<D>>, res0: seq<Entry<D>>, ms: (Element, string) -> bool)
        returns (res: seq<Entry<D>>)
      ensures res == Collect(res0, Pair(el, candidates), ms)
    {
      res := res0;
      var k := 0;
      while k < |candidates|
        invariant k <= |candidates|
        invariant res == Collect(res0, Pair(el, candidates[..k]), ms)
      {
        var candidate := candidates[k];
        CollectStep(res0, Pair(el, candidates[..k]), (el, candidate), ms);
        PairStep(el, candidates, k);
        if candidate !in res && ms(el, candidate.selector) {
          res := res + [candidate];
        }
        k := k + 1;
      }
      assert candidates[..|candidates|] == candidates;
    }
  }
}
