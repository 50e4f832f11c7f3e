/**
 * src/Subsets.js: the four partitions of the index.  Each subset has a type
 * test on significant parts (a regular expression), an extractor of the keys
 * an element can be looked up under, and a MappedLists holding the entries;
 * the tag subset lower-cases its keys.
 */
module Subsets {
  import opened JsStrings
  import opened Options
  import opened Buckets
  import opened MappedLists

  datatype Kind = IdKind | ClassKind | TagKind | UniversalKind

  /** The order in which the factory builds the subsets, and in which both
      adding and matching visit them. */
  const Kinds: seq<Kind> := [IdKind, ClassKind, TagKind, UniversalKind]

  // ---------------------------------------------------------------------------
  // The type tests
  // ---------------------------------------------------------------------------

  /** `/^#.+$/` */
  predicate IsIdSelector(k: string) {
    |k| >= 2 && k[0] == '#' && NoLineTerminator(k[1..])
  }

  /** `/^\..+$/` */
  predicate IsClassSelector(k: string) {
    |k| >= 2 && k[0] == '.' && NoLineTerminator(k[1..])
  }

  /** `/^[^\*\.#].*$/`: the first character may be anything but the three
      listed, a line terminator included; the rest may not hold one. */
  predicate IsTagSelector(k: string) {
    |k| >= 1 && k[0] != '*' && k[0] != '.' && k[0] != '#' && NoLineTerminator(k[1..])
  }

  /** `/^\*$/` */
  predicate IsUniversalSelector(k: string) {
    k == "*"
  }

  /** `isOfType(selector)` of the subset of the given kind. */
  predicate IsOfType(kind: Kind, k: string) {
    match kind
    case IdKind => IsIdSelector(k)
    case ClassKind => IsClassSelector(k)
    case TagKind => IsTagSelector(k)
    case UniversalKind => IsUniversalSelector(k)
  }

  /** The index of the first subset whose type test accepts `k`: where `_add`
      stores an entry with this key, if anywhere. */
  function Route(k: string): (r: Option<nat>)
    ensures r.Some? ==> r.value < 4 && IsOfType(Kinds[r.value], k)
                        && forall j :: 0 <= j < r.value ==> !IsOfType(Kinds[j], k)
    ensures r.None? ==> forall j :: 0 <= j < 4 ==> !IsOfType(Kinds[j], k)
  {
    if IsIdSelector(k) then Some(0)
    else if IsClassSelector(k) then Some(1)
    else if IsTagSelector(k) then Some(2)
    else if IsUniversalSelector(k) then Some(3)
    else None
  }

  /** No key passes two type tests, so the first subset to accept a key is
      the only one. */
  lemma TypeTestsDisjoint(k: string, i: nat, j: nat)
    requires i < 4 && j < 4 && i != j
    ensures !(IsOfType(Kinds[i], k) && IsOfType(Kinds[j], k))
  {
  }

  /** Which subset takes a key: by its first character, provided nothing
      after that character is a line terminator. */
  lemma RouteByFirstChar(k: string)
    requires |k| > 0 && NoLineTerminator(k[1..])
    ensures k == "*" ==> Route(k) == Some(3)
    ensures |k| >= 2 && k[0] == '#' ==> Route(k) == Some(0)
    ensures |k| >= 2 && k[0] == '.' ==> Route(k) == Some(1)
    ensures k[0] != '*' && k[0] != '.' && k[0] != '#' ==> Route(k) == Some(2)
    ensures Route(k).None? <==> (|k| == 1 && (k[0] == '#' || k[0] == '.')) || (|k| >= 2 && k[0] == '*')
  {
  }

  // ---------------------------------------------------------------------------
  // Elements and the key extractors
  // ---------------------------------------------------------------------------

  /** `el.className`: a string, an SVG animated string holding `baseVal`, or
      anything else (another object, `undefined`). */
  datatype ClassName = Plain(s: string) | Animated(baseVal: string) | Other

  /** What the extractors read of a DOM element; an `id` that is absent is
      the empty string. */
  datatype Element = Element(id: string, className: ClassName, nodeName: string)

  /** Index of the first white-space character of `s` at or after `i`, or `|s|`. */
  function SpaceFrom(s: string, i: nat): (r: nat)
    requires i <= |s|
    ensures i <= r <= |s| && (r < |s| ==> IsSpace(s[r]))
    ensures forall j :: i <= j < r ==> !IsSpace(s[j])
    decreases |s| - i
  {
    if i == |s| || IsSpace(s[i]) then i else SpaceFrom(s, i + 1)
  }

  /** Index of the first non-white-space character of `s` at or after `i`, or `|s|`. */
  function NonSpaceFrom(s: string, i: nat): (r: nat)
    requires i <= |s|
    ensures i <= r <= |s| && (r < |s| ==> !IsSpace(s[r]))
    ensures forall j :: i <= j < r ==> IsSpace(s[j])
    decreases |s| - i
  {
    if i == |s| || !IsSpace(s[i]) then i else NonSpaceFrom(s, i + 1)
  }

  /** `s.split(/\s+/)`: the pieces between maximal runs of white space.  A
      run at either end yields an empty first or last piece, and the empty
      string yields one empty piece. */
  function SplitWs(s: string): (r: seq<string>)
    ensures |r| > 0
    decreases |s|
  {
    var i := SpaceFrom(s, 0);
    if i == |s| then [s] else [s[..i]] + SplitWs(s[NonSpaceFrom(s, i)..])
  }

  predicate NoSpace(w: string) {
    forall i :: 0 <= i < |w| ==> !IsSpace(w[i])
  }

  /** `ws.join(" ")`. */
  function JoinSpace(ws: seq<string>): string
    requires |ws| > 0
  {
    if |ws| == 1 then ws[0] else ws[0] + (" " + JoinSpace(ws[1..]))
  }

  /** No piece of a split holds white space. */
  lemma {:induction false} SplitWsNoSpace(s: string)
    ensures forall k :: 0 <= k < |SplitWs(s)| ==> NoSpace(SplitWs(s)[k])
    decreases |s|
  {
    var i := SpaceFrom(s, 0);
    if i < |s| {
      var rest := s[NonSpaceFrom(s, i)..];
      SplitWsNoSpace(rest);
      assert SplitWs(s) == [s[..i]] + SplitWs(rest);
    }
  }

  /** Splitting undoes joining non-empty words with single spaces. */
  lemma {:induction false} SplitJoin(ws: seq<string>)
    requires |ws| > 0 && forall k :: 0 <= k < |ws| ==> |ws[k]| > 0 && NoSpace(ws[k])
    ensures SplitWs(JoinSpace(ws)) == ws
    decreases |ws|
  {
    var w := ws[0];
    if |ws| == 1 {
      assert SpaceFrom(w, 0) == |w|;
    } else {
      SplitJoinHead(ws[1..]);
      SplitWord(w, JoinSpace(ws[1..]));
      SplitJoin(ws[1..]);
    }
  }

  /** A space-free word, one space, then a non-space: the first cut is at the space. */
  lemma SplitWord(w: string, rest: string)
    requires |w| > 0 && NoSpace(w) && |rest| > 0 && !IsSpace(rest[0])
    ensures SplitWs(w + (" " + rest)) == [w] + SplitWs(rest)
  {
    var s := w + (" " + rest);
    assert s[|w|] == ' ';
    forall j | 0 <= j < |w|
      ensures !IsSpace(s[j])
    {
      assert s[j] == w[j];
    }
    SpaceFromIs(s, 0, |w|);
    assert s[|w| + 1] == rest[0];
    assert NonSpaceFrom(s, |w|) == |w| + 1;
    assert s[..|w|] == w && s[|w| + 1..] == rest;
  }

  lemma {:induction false} SpaceFromIs(s: string, i: nat, r: nat)
    requires i <= r < |s| && IsSpace(s[r])
    requires forall j :: i <= j < r ==> !IsSpace(s[j])
    ensures SpaceFrom(s, i) == r
    decreases r - i
  {
    if i < r {
      SpaceFromIs(s, i + 1, r);
    }
  }

  /** A join of non-empty space-free words starts with a non-space. */
  lemma SplitJoinHead(ws: seq<string>)
    requires |ws| > 0 && forall k :: 0 <= k < |ws| ==> |ws[k]| > 0 && NoSpace(ws[k])
    ensures |JoinSpace(ws)| > 0 && JoinSpace(ws)[0] == ws[0][0]
  {
  }

  /** `"." + r` for each piece `r`. */
  function Dotted(ws: seq<string>): (r: seq<string>)
    ensures |r| == |ws| && forall k :: 0 <= k < |ws| ==> r[k] == "." + ws[k]
  {
    seq(|ws|, k requires 0 <= k < |ws| => "." + ws[k])
  }

  /** `extractElementKeys(el)` of the subset of the given kind. */
  function ElementKeys(kind: Kind, el: Element): seq<string> {
    match kind
    case IdKind => if el.id != "" then ["#" + el.id] else []
    case ClassKind =>
      (match el.className
       case Plain(s) => Dotted(SplitWs(s))
       case Animated(b) => Dotted(SplitWs(b))
       case Other => [])
    case TagKind => [el.nodeName]
    case UniversalKind => ["*"]
  }

  /** The class names `class="a b"` lists are the keys the element is looked
      up under in the class subset. */
  lemma ClassKeysOfWords(el: Element, ws: seq<string>)
    requires |ws| > 0 && forall k :: 0 <= k < |ws| ==> |ws[k]| > 0 && NoSpace(ws[k])
    requires el.className == Plain(JoinSpace(ws)) || el.className == Animated(JoinSpace(ws))
    ensures ElementKeys(ClassKind, el) == Dotted(ws)
  {
    SplitJoin(ws);
  }

  // ---------------------------------------------------------------------------
  // One subset
  // ---------------------------------------------------------------------------

  /** The key a subset stores and looks up: lower-cased in a case-insensitive one. */
  function Norm(ci: bool, key: string): string {
    if ci then Lower(key) else key
  }

  /** A case-insensitive subset files keys that differ in case together, and
      normalising a normalised key changes nothing. */
  lemma NormCaseInsensitive(key: string, key': string)
    requires |key| == |key'| && forall i :: 0 <= i < |key| ==> LowerChar(key[i]) == LowerChar(key'[i])
    ensures Norm(true, key) == Norm(true, key')
    ensures Norm(true, Norm(true, key)) == Norm(true, key)
  {
    LowerIdempotent(key);
  }

  class Subset<T> {
    const kind: Kind
    const ci: bool
    const lists: MappedLists<T>

    ghost predicate Valid()
      reads lists
    {
      lists.Valid()
    }

    /** `new Subset(re, extractor, ci)` with an empty MappedLists. */
    constructor (kind: Kind, ci: bool)
      ensures this.kind == kind && this.ci == ci
      ensures Valid() && lists.history == [] && fresh(lists)
    {
      this.kind := kind;
      this.ci := ci;
      lists := new MappedLists();
    }

    /** `isOfType(selector)`. */
    predicate IsOfTypeOf(k: string) {
      IsOfType(kind, k)
    }

    /** `extractElementKeys(el)`. */
    function ExtractElementKeys(el: Element): seq<string> {
      ElementKeys(kind, el)
    }

    /** `add(key, data)`: files `data` under the normalised key and returns the receiver. */
    method Add(key: string, data: T) returns (self: Subset<T>)
      requires Valid()
      modifies lists
      ensures Valid() && lists.history == old(lists.history) + [(Norm(ci, key), data)]
      ensures self == this
    {
      var _ := lists.Add(if ci then Lower(key) else key, data);
      return this;
    }

    /** `get(key)`: the data filed under the normalised key, oldest first. */
    function Get(key: string): (r: seq<T>)
      reads lists
      requires Valid()
      ensures r == Bucket(lists.history, Norm(ci, key))
    {
      lists.Get(if ci then Lower(key) else key)
    }
  }

  /** The subsets are the four of `Kinds`, in that order, each with its own
      MappedLists; only the tag subset is case-insensitive. */
  ghost predicate WellFormed<T>(subsets: seq<Subset<T>>) {
    |subsets| == 4
    && (forall i :: 0 <= i < 4 ==> subsets[i].kind == Kinds[i] && subsets[i].ci == (Kinds[i] == TagKind))
    && (forall i, j :: 0 <= i < j < 4 ==> subsets[i].lists != subsets[j].lists)
  }

  /** The factory exported by src/Subsets.js: id, class, tag and universal
      subsets, all empty. */
  method MakeSubsets<T>() returns (subsets: seq<Subset<T>>)
    ensures WellFormed(subsets)
    ensures forall i :: 0 <= i < 4 ==> subsets[i].Valid() && subsets[i].lists.history == [] && fresh(subsets[i].lists)
  {
    var id := new Subset(IdKind, false);
    var cls := new Subset(ClassKind, false);
    var tag := new Subset(TagKind, true);
    var other := new Subset(UniversalKind, false);
    subsets := [id, cls, tag, other];
  }
}
