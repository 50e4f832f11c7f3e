/**
 * What a SelectorSet of src/SelectorSet.js holds and what `matches` returns,
 * stated over the entries added so far.
 *
 * Each selector `add` files is an entry: a fresh array holding the trimmed
 * selector and the data, compared by reference (`res.indexOf(candidate)`).
 * An entry goes to the first subset whose type test accepts its significant
 * part, under that part (lower-cased in the tag subset), or nowhere if no
 * subset accepts it.  `matches` walks elements, subsets, element keys and
 * the entries filed under each key, in that order, and keeps each entry the
 * first time it is seen with an element it matches.
 */
module IndexSpec {
  import opened JsStrings
  import opened Options
  import opened Classifier
  import opened Buckets
  import opened Subsets
  import ClassifierFacts

  /** `[selector, datum1, datum2, ...]`, with the data as one value.  The
      significant part of the selector, which `_add` computes and does not
      keep, is kept here for the proofs. */
  class Entry<D> {
    const selector: string
    const data: D
    ghost const key: string

    constructor (selector: string, data: D)
      ensures this.selector == selector && this.data == data
      ensures key == Significant(selector)
    {
      this.selector := selector;
      this.data := data;
      key := Significant(selector);
    }
  }

  /** Index of the subset `_add` files the entry in. */
  ghost function Home<D>(e: Entry<D>): Option<nat> {
    Route(e.key)
  }

  /** The key the subset at index `i` files the entry under. */
  ghost function StoredKey<D>(i: nat, e: Entry<D>): string
    requires i < 4
  {
    Norm(Kinds[i] == TagKind, e.key)
  }

  /** The `add` calls the MappedLists of subset `i` has seen after `entries`
      were filed, oldest first. */
  ghost function Filed<D>(entries: seq<Entry<D>>, i: nat): seq<(string, Entry<D>)>
    requires i < 4
  {
    if entries == [] then []
    else
      var e := entries[|entries| - 1];
      Filed(entries[..|entries| - 1], i) + (if Home(e) == Some(i) then [(StoredKey(i, e), e)] else [])
  }

  /** An element and a candidate entry `matches` looks at. */
  type Visit<D> = (Element, Entry<D>)

  function Pair<D>(el: Element, cs: seq<Entry<D>>): (r: seq<Visit<D>>)
    ensures |r| == |cs| && forall k :: 0 <= k < |cs| ==> r[k] == (el, cs[k])
  {
    seq(|cs|, k requires 0 <= k < |cs| => (el, cs[k]))
  }

  /** `f(x)` for each `x` of `xs`, concatenated in order. */
  function ConcatMap<X, Y>(f: X -> seq<Y>, xs: seq<X>): seq<Y> {
    if xs == [] then [] else ConcatMap(f, xs[..|xs| - 1]) + f(xs[|xs| - 1])
  }

  /** What subset `i` holds under `key` after `entries` were added:
      `subset.get(key)`. */
  ghost function Stored<D>(entries: seq<Entry<D>>, i: nat, key: string): seq<Entry<D>>
    requires i < |Kinds|
  {
    Bucket(Filed(entries, i), Norm(Kinds[i] == TagKind, key))
  }

  /** `subset.get(elKey)` for subset `i`, paired with the element. */
  ghost function KeyLookup<D>(entries: seq<Entry<D>>, el: Element, i: nat): string -> seq<Visit<D>>
    requires i < |Kinds|
  {
    key => Pair(el, Stored(entries, i, key))
  }

  /** The candidates got from subset `i` under the element keys `keys`. */
  ghost function KeyVisits<D>(entries: seq<Entry<D>>, el: Element, i: nat, keys: seq<string>): seq<Visit<D>>
    requires i < |Kinds|
  {
    ConcatMap(KeyLookup(entries, el, i), keys)
  }

  /** The subset indices, in the order `matches` visits the subsets. */
  const Indices: seq<nat> := [0, 1, 2, 3]

  /** The candidates got for `el` from subset `i`. */
  ghost function SubsetLookup<D>(entries: seq<Entry<D>>, el: Element): nat -> seq<Visit<D>> {
    (i: nat) => if i < |Kinds| then KeyVisits(entries, el, i, ElementKeys(Kinds[i], el)) else []
  }

  /** The candidates got for one element from all four subsets. */
  ghost function CandidatesOf<D>(entries: seq<Entry<D>>, el: Element): seq<Visit<D>> {
    ConcatMap(SubsetLookup(entries, el), Indices)
  }

  ghost function ElementVisits<D>(entries: seq<Entry<D>>): Element -> seq<Visit<D>> {
    el => CandidatesOf(entries, el)
  }

  /** Every candidate `matches` looks at for the elements `els`, in order. */
  ghost function Visits<D>(entries: seq<Entry<D>>, els: seq<Element>): seq<Visit<D>> {
    ConcatMap(ElementVisits(entries), els)
  }

  /** `res` after the visits `vs`, starting from `r0`: a candidate is pushed
      when it is not in `res` yet and matches its element. */
  function Collect<D>(r0: seq<Entry<D>>, vs: seq<Visit<D>>, ms: (Element, string) -> bool): seq<Entry<D>> {
    if vs == [] then r0
    else
      var r := Collect(r0, vs[..|vs| - 1], ms);
      var v := vs[|vs| - 1];
      if v.1 !in r && ms(v.0, v.1.selector) then r + [v.1] else r
  }

  /** The arguments of `matches`: elements, or arrays of them, which
      `Array.prototype.concat` flattens one level. */
  datatype Arg = Single(el: Element) | Many(els: seq<Element>)

  function Flatten(args: seq<Arg>): seq<Element> {
    if args == [] then []
    else
      Flatten(args[..|args| - 1])
      + (match args[|args| - 1] case Single(el) => [el] case Many(els) => els)
  }

  /** What `matches(args...)` returns. */
  ghost function Result<D>(entries: seq<Entry<D>>, args: seq<Arg>, ms: (Element, string) -> bool): seq<Entry<D>> {
    Collect([], Visits(entries, Flatten(args)), ms)
  }

  /** `e` matches one of `els` and is filed under one of that element's keys
      in the subset it went to. */
  ghost predicate Found<D>(entries: seq<Entry<D>>, els: seq<Element>, ms: (Element, string) -> bool, e: Entry<D>) {
    e in entries && Home(e).Some? && exists t :: 0 <= t < |els| && ms(els[t], e.selector) && Keyed(e, els[t])
  }

  /** `e` is filed under one of the keys `el` is looked up under. */
  ghost predicate Keyed<D>(e: Entry<D>, el: Element) {
    Home(e).Some? && KeyedIn(Home(e).value, e, ElementKeys(Kinds[Home(e).value], el))
  }

  /** Subset `i` files `e` under the normal form of one of `keys`. */
  ghost predicate KeyedIn<D>(i: nat, e: Entry<D>, keys: seq<string>)
    requires i < |Kinds|
  {
    exists j :: 0 <= j < |keys| && StoredKey(i, e) == Norm(Kinds[i] == TagKind, keys[j])
  }

  predicate NoDuplicates<T(==)>(s: seq<T>) {
    forall a, b :: 0 <= a < b < |s| ==> s[a] != s[b]
  }

  /** A value not in a list without duplicates can be appended to it. */
  lemma NoDuplicatesAppend<T>(s: seq<T>, x: T)
    requires NoDuplicates(s) && x !in s
    ensures NoDuplicates(s + [x])
  {
    var s' := s + [x];
    forall a, b | 0 <= a < b < |s'|
      ensures s'[a] != s'[b]
    {
      if b < |s| {
        assert s'[a] == s[a] && s'[b] == s[b];
      } else {
        assert s'[a] == s[a] && s'[b] == x;
      }
    }
  }

  // ---------------------------------------------------------------------------
  // Filing
  // ---------------------------------------------------------------------------

  /** `*` and every token go to some subset, line terminators aside. */
  lemma TokenRouted(k: string)
    requires k == "*" || IsToken(k)
    requires |k| > 0 ==> NoLineTerminator(k[1..])
    ensures Route(k).Some?
  {
    if k != "*" {
      if IsUnits(k) {
        assert UnitLength(k) > 0;
      } else {
        assert UnitLength(k[1..]) > 0;
      }
    }
  }

  /** The significant part of a selector that holds no line terminator after
      its first character passes exactly one type test: `_add` always finds
      a subset for it. */
  lemma SignificantRouted(selector: string)
    requires |Significant(selector)| > 0 ==> NoLineTerminator(Significant(selector)[1..])
    ensures Route(Significant(selector)).Some?
    ensures forall j :: 0 <= j < 4 ==>
              (IsOfType(Kinds[j], Significant(selector)) <==> Route(Significant(selector)) == Some(j))
  {
    var k := Significant(selector);
    ClassifierFacts.SignificantShape(selector);
    TokenRouted(k);
    forall j | 0 <= j < 4
      ensures IsOfType(Kinds[j], k) <==> Route(k) == Some(j)
    {
      if Route(k) != Some(j) {
        TypeTestsDisjoint(k, j, Route(k).value);
      }
    }
  }

  lemma FiledAppend<D>(entries: seq<Entry<D>>, e: Entry<D>, i: nat)
    requires i < 4
    ensures Filed(entries + [e], i) == Filed(entries, i) + (if Home(e) == Some(i) then [(StoredKey(i, e), e)] else [])
  {
    assert (entries + [e])[..|entries|] == entries;
  }

  /** Subset `i` holds exactly the entries whose home it is, each under its
      stored key. */
  lemma {:induction false} FiledMembers<D>(entries: seq<Entry<D>>, i: nat, k: string, e: Entry<D>)
    requires i < 4
    ensures (k, e) in Filed(entries, i) <==> e in entries && Home(e) == Some(i) && k == StoredKey(i, e)
    decreases |entries|
  {
    if entries != [] {
      var init := entries[..|entries| - 1];
      var last := entries[|entries| - 1];
      FiledMembers(init, i, k, e);
      var tail := if Home(last) == Some(i) then [(StoredKey(i, last), last)] else [];
      assert Filed(entries, i) == Filed(init, i) + tail;
      assert (k, e) in Filed(entries, i) <==> (k, e) in Filed(init, i) || (k, e) in tail;
      assert entries == init + [last];
      assert e in entries <==> e in init || e == last;
    }
  }

  /** An entry is filed in one subset under one key, never in two. */
  lemma FiledOnce<D>(entries: seq<Entry<D>>, i: nat, j: nat, k: string, k': string, e: Entry<D>)
    requires i < 4 && j < 4
    requires (k, e) in Filed(entries, i) && (k', e) in Filed(entries, j)
    ensures i == j && k == k'
  {
    FiledMembers(entries, i, k, e);
    FiledMembers(entries, j, k', e);
  }

  /** The lookup of a key in subset `i` finds the entries filed there under it. */
  lemma BucketOfFiled<D>(entries: seq<Entry<D>>, i: nat, key: string, e: Entry<D>)
    requires i < 4
    ensures e in Bucket(Filed(entries, i), key) <==> e in entries && Home(e) == Some(i) && key == StoredKey(i, e)
  {
    BucketMembers(Filed(entries, i), key, e);
    FiledMembers(entries, i, key, e);
  }

  // ---------------------------------------------------------------------------
  // Visits
  // ---------------------------------------------------------------------------

  lemma {:induction false} ConcatMapMembers<X, Y>(f: X -> seq<Y>, xs: seq<X>, y: Y)
    ensures y in ConcatMap(f, xs) <==> exists t :: 0 <= t < |xs| && y in f(xs[t])
    decreases |xs|
  {
    if xs != [] {
      var init := xs[..|xs| - 1];
      ConcatMapMembers(f, init, y);
      if exists t :: 0 <= t < |init| && y in f(init[t]) {
        var t :| 0 <= t < |init| && y in f(init[t]);
        assert xs[t] == init[t];
      }
      if exists t :: 0 <= t < |xs| && y in f(xs[t]) {
        var t :| 0 <= t < |xs| && y in f(xs[t]);
        if t < |init| {
          assert init[t] == xs[t];
        }
      }
    }
  }

  lemma {:induction false} ConcatMapAppend<X, Y>(f: X -> seq<Y>, xs: seq<X>, xs': seq<X>)
    ensures ConcatMap(f, xs + xs') == ConcatMap(f, xs) + ConcatMap(f, xs')
    decreases |xs'|
  {
    if xs' == [] {
      assert xs + xs' == xs;
    } else {
      var init := xs'[..|xs'| - 1];
      assert (xs + xs')[..|xs + xs'| - 1] == xs + init;
      ConcatMapAppend(f, xs, init);
    }
  }

  lemma PairMembers<D>(el: Element, cs: seq<Entry<D>>, v: Visit<D>)
    ensures v in Pair(el, cs) <==> v.0 == el && v.1 in cs
  {
    var r := Pair(el, cs);
    if v in r {
      var k :| 0 <= k < |r| && r[k] == v;
    }
    if v.0 == el && v.1 in cs {
      var k :| 0 <= k < |cs| && cs[k] == v.1;
      assert r[k] == v;
    }
  }

  lemma KeyLookupMembers<D>(entries: seq<Entry<D>>, el: Element, i: nat, key: string, v: Visit<D>)
    requires i < |Kinds|
    ensures v in KeyLookup(entries, el, i)(key) <==> v.0 == el && v.1 in Stored(entries, i, key)
  {
    PairMembers(el, Stored(entries, i, key), v);
  }

  /** The lookup of a key in subset `i` finds the entries filed there under
      its normal form. */
  lemma StoredMembers<D>(entries: seq<Entry<D>>, i: nat, key: string, e: Entry<D>)
    requires i < |Kinds|
    ensures e in Stored(entries, i, key) <==>
              e in entries && Home(e) == Some(i) && StoredKey(i, e) == Norm(Kinds[i] == TagKind, key)
  {
    BucketOfFiled(entries, i, Norm(Kinds[i] == TagKind, key), e);
  }

  lemma KeyVisitsMembers<D>(entries: seq<Entry<D>>, el: Element, i: nat, keys: seq<string>, v: Visit<D>)
    requires i < |Kinds|
    ensures v in KeyVisits(entries, el, i, keys) <==>
              v.0 == el && exists j :: 0 <= j < |keys| && v.1 in Stored(entries, i, keys[j])
  {
    var f := KeyLookup(entries, el, i);
    ConcatMapMembers(f, keys, v);
    forall j | 0 <= j < |keys|
      ensures v in f(keys[j]) <==> v.0 == el && v.1 in Stored(entries, i, keys[j])
    {
      KeyLookupMembers(entries, el, i, keys[j], v);
    }
  }

  /** The candidates met for one element from subset `i` are the entries
      filed there under one of the element's keys. */
  lemma KeyVisitsFound<D>(entries: seq<Entry<D>>, el: Element, i: nat, keys: seq<string>, v: Visit<D>)
    requires i < |Kinds|
    ensures v in KeyVisits(entries, el, i, keys) <==>
              v.0 == el && v.1 in entries && Home(v.1) == Some(i) && KeyedIn(i, v.1, keys)
  {
    KeyVisitsMembers(entries, el, i, keys, v);
    if v.0 == el && exists j :: 0 <= j < |keys| && v.1 in Stored(entries, i, keys[j]) {
      var j :| 0 <= j < |keys| && v.1 in Stored(entries, i, keys[j]);
      StoredMembers(entries, i, keys[j], v.1);
    }
    if v.0 == el && v.1 in entries && Home(v.1) == Some(i) && KeyedIn(i, v.1, keys) {
      var j :| 0 <= j < |keys| && StoredKey(i, v.1) == Norm(Kinds[i] == TagKind, keys[j]);
      StoredMembers(entries, i, keys[j], v.1);
    }
  }

  /** The candidates met for one element are the entries filed under one
      of its keys, in whichever subset each went to. */
  lemma ElementVisitsFound<D>(entries: seq<Entry<D>>, el: Element, v: Visit<D>)
    ensures v in CandidatesOf(entries, el) <==>
              v.0 == el && v.1 in entries && Home(v.1).Some? && Keyed(v.1, el)
  {
    SubsetsFound(entries, el, Indices, v);
  }

  /** The same, over any list of the subset indices in order. */
  lemma SubsetsFound<D>(entries: seq<Entry<D>>, el: Element, idx: seq<nat>, v: Visit<D>)
    requires |idx| == |Kinds| && forall t :: 0 <= t < |idx| ==> idx[t] == t
    ensures v in ConcatMap(SubsetLookup(entries, el), idx) <==>
              v.0 == el && v.1 in entries && Home(v.1).Some? && Keyed(v.1, el)
  {
    var f := SubsetLookup(entries, el);
    ConcatMapMembers(f, idx, v);
    forall t | 0 <= t < |idx|
      ensures v in f(idx[t]) <==> v.0 == el && v.1 in entries && Home(v.1) == Some(t) && Keyed(v.1, el)
    {
      SubsetLookupFound(entries, el, t, v);
    }
    if v.0 == el && v.1 in entries && Home(v.1).Some? && Keyed(v.1, el) {
      var t := Home(v.1).value;
      assert v in f(idx[t]);
    }
  }

  lemma SubsetLookupFound<D>(entries: seq<Entry<D>>, el: Element, t: nat, v: Visit<D>)
    requires t < |Kinds|
    ensures v in SubsetLookup(entries, el)(t) <==>
              v.0 == el && v.1 in entries && Home(v.1) == Some(t) && Keyed(v.1, el)
  {
    KeyVisitsFound(entries, el, t, ElementKeys(Kinds[t], el), v);
    if v.1 in entries && Home(v.1) == Some(t) {
      KeyedAt(v.1, el, t);
    }
  }

  lemma KeyedAt<D>(e: Entry<D>, el: Element, i: nat)
    requires i < |Kinds| && Home(e) == Some(i)
    ensures Keyed(e, el) <==> KeyedIn(i, e, ElementKeys(Kinds[i], el))
  {
  }

  /** The candidates `matches` meets are the pairs of a given element with an
      entry filed under one of its keys. */
  lemma VisitsFound<D>(entries: seq<Entry<D>>, els: seq<Element>, v: Visit<D>)
    ensures v in Visits(entries, els) <==>
              v.0 in els && v.1 in entries && Home(v.1).Some? && Keyed(v.1, v.0)
  {
    var f := ElementVisits(entries);
    ConcatMapMembers(f, els, v);
    forall t | 0 <= t < |els|
      ensures v in f(els[t]) <==> v.0 == els[t] && v.1 in entries && Home(v.1).Some? && Keyed(v.1, v.0)
    {
      assert f(els[t]) == CandidatesOf(entries, els[t]);
      ElementVisitsFound(entries, els[t], v);
    }
  }

  lemma VisitsAppend<D>(entries: seq<Entry<D>>, els: seq<Element>, els': seq<Element>)
    ensures Visits(entries, els + els') == Visits(entries, els) + Visits(entries, els')
  {
    ConcatMapAppend(ElementVisits(entries), els, els');
  }

  /** One more argument of a concatenation. */
  lemma ConcatMapStep<X, Y>(f: X -> seq<Y>, xs: seq<X>, n: nat)
    requires n < |xs|
    ensures ConcatMap(f, xs[..n + 1]) == ConcatMap(f, xs[..n]) + f(xs[n])
  {
    assert xs[..n + 1][..n] == xs[..n];
  }

  /** One more candidate of a lookup. */
  lemma PairStep<D>(el: Element, cs: seq<Entry<D>>, k: nat)
    requires k < |cs|
    ensures Pair(el, cs[..k + 1]) == Pair(el, cs[..k]) + [(el, cs[k])]
  {
  }

  /** What `subset.get(key)` returns, paired with the element, is the
      lookup of `key`. */
  lemma KeyLookupAt<D>(entries: seq<Entry<D>>, el: Element, i: nat, key: string, cands: seq<Entry<D>>)
    requires i < |Kinds| && cands == Bucket(Filed(entries, i), Norm(Kinds[i] == TagKind, key))
    ensures KeyLookup(entries, el, i)(key) == Pair(el, cands)
  {
  }

  /** After the last key, the lookups are all of `KeyVisits`. */
  lemma KeyVisitsAll<D>(entries: seq<Entry<D>>, el: Element, i: nat, keys: seq<string>, j: nat)
    requires i < |Kinds| && j == |keys|
    ensures ConcatMap(KeyLookup(entries, el, i), keys[..j]) == KeyVisits(entries, el, i, keys)
  {
    assert keys[..j] == keys;
  }

  /** The lookups of subset `i`, at its place in the order of the subsets. */
  lemma SubsetLookupAt<D>(entries: seq<Entry<D>>, el: Element, i: nat)
    requires i < |Indices|
    ensures SubsetLookup(entries, el)(Indices[i]) == KeyVisits(entries, el, i, ElementKeys(Kinds[i], el))
  {
    assert Indices[i] == i;
  }

  /** The lookups of one element, as `Visits` sees them. */
  lemma ElementVisitsAt<D>(entries: seq<Entry<D>>, el: Element)
    ensures ElementVisits(entries)(el) == CandidatesOf(entries, el)
  {
  }

  /** One turn of the loop over the elements in `matches`. */
  lemma VisitsStep<D>(entries: seq<Entry<D>>, els: seq<Element>, t: nat, r: seq<Entry<D>>, r': seq<Entry<D>>, ms: (Element, string) -> bool)
    requires t < |els|
    requires r == Collect([], Visits(entries, els[..t]), ms)
    requires r' == Collect(r, CandidatesOf(entries, els[t]), ms)
    ensures r' == Collect([], Visits(entries, els[..t + 1]), ms)
  {
    ElementVisitsAt(entries, els[t]);
    CollectConcatMapStep([], ElementVisits(entries), els, t, ms);
  }

  /** After the last element, the visits are all those of `Result`. */
  lemma VisitsAll<D>(entries: seq<Entry<D>>, args: seq<Arg>, t: nat, r: seq<Entry<D>>, ms: (Element, string) -> bool)
    requires t == |Flatten(args)|
    requires r == Collect([], Visits(entries, Flatten(args)[..t]), ms)
    ensures r == Result(entries, args, ms)
  {
    assert Flatten(args)[..t] == Flatten(args);
  }

  /** After the last subset, the lookups are all of `CandidatesOf`. */
  lemma SubsetLookupAll<D>(entries: seq<Entry<D>>, el: Element, i: nat)
    requires i == |Indices|
    ensures ConcatMap(SubsetLookup(entries, el), Indices[..i]) == CandidatesOf(entries, el)
  {
    assert Indices[..i] == Indices;
  }

  // ---------------------------------------------------------------------------
  // Collecting
  // ---------------------------------------------------------------------------

  /** `res` never holds an entry twice. */
  lemma {:induction false} CollectNoDuplicates<D>(r0: seq<Entry<D>>, vs: seq<Visit<D>>, ms: (Element, string) -> bool)
    requires NoDuplicates(r0)
    ensures NoDuplicates(Collect(r0, vs, ms))
    decreases |vs|
  {
    if vs != [] {
      CollectNoDuplicates(r0, vs[..|vs| - 1], ms);
    }
  }

  /** An entry ends up in `res` exactly when it was there at the start or was
      met with an element it matches. */
  lemma {:induction false} CollectMembers<D>(r0: seq<Entry<D>>, vs: seq<Visit<D>>, ms: (Element, string) -> bool, e: Entry<D>)
    ensures e in Collect(r0, vs, ms) <==> e in r0 || exists k :: 0 <= k < |vs| && vs[k].1 == e && ms(vs[k].0, e.selector)
    decreases |vs|
  {
    if vs != [] {
      var init := vs[..|vs| - 1];
      CollectMembers(r0, init, ms, e);
      if exists k :: 0 <= k < |init| && init[k].1 == e && ms(init[k].0, e.selector) {
        var k :| 0 <= k < |init| && init[k].1 == e && ms(init[k].0, e.selector);
        assert vs[k] == init[k];
      }
      if exists k :: 0 <= k < |vs| && vs[k].1 == e && ms(vs[k].0, e.selector) {
        var k :| 0 <= k < |vs| && vs[k].1 == e && ms(vs[k].0, e.selector);
        if k < |init| {
          assert init[k] == vs[k];
        }
      }
    }
  }

  /** One more visit: the candidate is pushed when it is new and matches. */
  lemma CollectStep<D>(r0: seq<Entry<D>>, vs: seq<Visit<D>>, v: Visit<D>, ms: (Element, string) -> bool)
    ensures Collect(r0, vs + [v], ms)
            == (var r := Collect(r0, vs, ms); if v.1 !in r && ms(v.0, v.1.selector) then r + [v.1] else r)
  {
    assert (vs + [v])[..|vs|] == vs;
  }

  /** Visiting in two batches is visiting once: what `res` holds
      after the first batch is where the second one starts. */
  lemma {:induction false} CollectAppend<D>(r0: seq<Entry<D>>, vs: seq<Visit<D>>, vs': seq<Visit<D>>, ms: (Element, string) -> bool)
    ensures Collect(r0, vs + vs', ms) == Collect(Collect(r0, vs, ms), vs', ms)
    decreases |vs'|
  {
    if vs' == [] {
      assert vs + vs' == vs;
    } else {
      var init := vs'[..|vs'| - 1];
      assert (vs + vs')[..|vs + vs'| - 1] == vs + init;
      CollectAppend(r0, vs, init, ms);
    }
  }

  /** Collecting over one more part of a concatenation. */
  lemma CollectConcatMapStep<X, D>(r0: seq<Entry<D>>, f: X -> seq<Visit<D>>, xs: seq<X>, n: nat, ms: (Element, string) -> bool)
    requires n < |xs|
    ensures Collect(Collect(r0, ConcatMap(f, xs[..n]), ms), f(xs[n]), ms) == Collect(r0, ConcatMap(f, xs[..n + 1]), ms)
  {
    ConcatMapStep(f, xs, n);
    CollectAppend(r0, ConcatMap(f, xs[..n]), f(xs[n]), ms);
  }

  /** `res` only grows at the end: what was found after the first `m` visits
      stays in front of everything found later. */
  lemma {:induction false} CollectPrefix<D>(r0: seq<Entry<D>>, vs: seq<Visit<D>>, m: nat, ms: (Element, string) -> bool)
    requires m <= |vs|
    ensures Collect(r0, vs[..m], ms) <= Collect(r0, vs, ms)
    decreases |vs| - m
  {
    if m < |vs| {
      CollectPrefix(r0, vs, m + 1, ms);
      assert vs[..m + 1][..m] == vs[..m];
    } else {
      assert vs[..m] == vs;
    }
  }

  // ---------------------------------------------------------------------------
  // What `matches` returns
  // ---------------------------------------------------------------------------

  /** No entry is returned twice. */
  lemma ResultNoDuplicates<D>(entries: seq<Entry<D>>, args: seq<Arg>, ms: (Element, string) -> bool)
    ensures NoDuplicates(Result(entries, args, ms))
  {
    CollectNoDuplicates([], Visits(entries, Flatten(args)), ms);
  }

  /** Soundness and completeness: an entry is returned exactly when it was
      added, went to a subset, and matches one of the elements that is looked
      up under its key there. */
  lemma ResultMembers<D>(entries: seq<Entry<D>>, args: seq<Arg>, ms: (Element, string) -> bool, e: Entry<D>)
    ensures e in Result(entries, args, ms) <==> Found(entries, Flatten(args), ms, e)
  {
    var els := Flatten(args);
    var vs := Visits(entries, els);
    forall v: Visit<D>
      ensures v in vs <==> v.0 in els && v.1 in entries && Home(v.1).Some? && Keyed(v.1, v.0)
    {
      VisitsFound(entries, els, v);
    }
    CollectFound(entries, els, vs, ms, e);
  }

  /** Collecting over the visits of `els` returns what is found for them. */
  lemma CollectFound<D>(entries: seq<Entry<D>>, els: seq<Element>, vs: seq<Visit<D>>, ms: (Element, string) -> bool, e: Entry<D>)
    requires forall v: Visit<D> :: v in vs <==> v.0 in els && v.1 in entries && Home(v.1).Some? && Keyed(v.1, v.0)
    ensures e in Collect([], vs, ms) <==> Found(entries, els, ms, e)
  {
    CollectMembers([], vs, ms, e);
    if e in Collect([], vs, ms) {
      var k :| 0 <= k < |vs| && vs[k].1 == e && ms(vs[k].0, e.selector);
      assert vs[k] in vs;
      var t :| 0 <= t < |els| && els[t] == vs[k].0;
    }
    if Found(entries, els, ms, e) {
      var t :| 0 <= t < |els| && ms(els[t], e.selector) && Keyed(e, els[t]);
      assert (els[t], e) in vs;
      var k :| 0 <= k < |vs| && vs[k] == (els[t], e);
    }
  }

  /** An entry filed in no subset is never returned. */
  lemma UnfiledNeverReturned<D>(entries: seq<Entry<D>>, args: seq<Arg>, ms: (Element, string) -> bool, e: Entry<D>)
    requires Home(e).None?
    ensures e !in Result(entries, args, ms)
  {
    ResultMembers(entries, args, ms, e);
  }

  /** `matches()` with no element returns the empty list. */
  lemma NoElementsNoResult<D>(entries: seq<Entry<D>>, ms: (Element, string) -> bool)
    ensures Result(entries, [], ms) == []
  {
  }

  /** Elements passed one by one, as one array or as arrays of one are
      matched alike. */
  lemma FlattenForms<D>(entries: seq<Entry<D>>, a: Element, b: Element, ms: (Element, string) -> bool)
    ensures Result(entries, [Single(a), Single(b)], ms) == Result(entries, [Many([a, b])], ms)
    ensures Result(entries, [Many([a]), Many([b])], ms) == Result(entries, [Many([a, b])], ms)
  {
    FlattenPairs(a, b);
    SameElements(entries, [Single(a), Single(b)], [Many([a, b])], ms);
    SameElements(entries, [Many([a]), Many([b])], [Many([a, b])], ms);
  }

  /** `matches` depends on its arguments only through their flattening. */
  lemma SameElements<D>(entries: seq<Entry<D>>, args: seq<Arg>, args': seq<Arg>, ms: (Element, string) -> bool)
    requires Flatten(args) == Flatten(args')
    ensures Result(entries, args, ms) == Result(entries, args', ms)
  {
  }

  lemma FlattenPairs(a: Element, b: Element)
    ensures Flatten([Single(a), Single(b)]) == [a, b]
    ensures Flatten([Many([a]), Many([b])]) == [a, b]
    ensures Flatten([Many([a, b])]) == [a, b]
  {
    FlattenTwo(Single(a), Single(b));
    FlattenTwo(Many([a]), Many([b]));
    FlattenOne(Single(a));
    FlattenOne(Single(b));
    FlattenOne(Many([a]));
    FlattenOne(Many([b]));
    FlattenOne(Many([a, b]));
  }

  lemma FlattenTwo(x: Arg, y: Arg)
    ensures Flatten([x, y]) == Flatten([x]) + Flatten([y])
  {
    assert [x, y] == [x] + [y];
    FlattenAppend([x], [y]);
  }

  /** Matching a list of arguments is matching its first part and carrying
      on with the rest: entries found for earlier elements come first. */
  lemma ResultAppend<D>(entries: seq<Entry<D>>, args: seq<Arg>, args': seq<Arg>, ms: (Element, string) -> bool)
    ensures Result(entries, args + args', ms)
            == Collect(Result(entries, args, ms), Visits(entries, Flatten(args')), ms)
    ensures Result(entries, args, ms) <= Result(entries, args + args', ms)
  {
    FlattenAppend(args, args');
    VisitsAppend(entries, Flatten(args), Flatten(args'));
    CollectAppend([], Visits(entries, Flatten(args)), Visits(entries, Flatten(args')), ms);
    var vs := Visits(entries, Flatten(args));
    var all := vs + Visits(entries, Flatten(args'));
    assert all[..|vs|] == vs;
    CollectPrefix([], all, |vs|, ms);
  }

  lemma FlattenOne(x: Arg)
    ensures Flatten([x]) == (match x case Single(el) => [el] case Many(els) => els)
  {
    assert [x][..0] == [];
  }

  lemma {:induction false} FlattenAppend(args: seq<Arg>, args': seq<Arg>)
    ensures Flatten(args + args') == Flatten(args) + Flatten(args')
    decreases |args'|
  {
    if args' == [] {
      assert args + args' == args;
    } else {
      var init := args'[..|args'| - 1];
      assert (args + args')[..|args + args'| - 1] == args + init;
      FlattenAppend(args, init);
    }
  }
}
