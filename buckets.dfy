/**
 * What the key-to-list maps of src/MappedLists.js and src/IndexedSet.js
 * hold, stated over the sequence of `add(key, data)` calls they have seen.
 *
 * `Bucket` is the abstract view: the data added under one key, in the order
 * of the calls.  `Index` is the concrete one: a JavaScript object whose
 * property `key + " "` holds that list (the appended space keeps every key
 * clear of the names `Object.prototype` already owns).
 */
module Buckets {

  /** The data added under `key`, oldest first. */
  function Bucket<T>(history: seq<(string, T)>, key: string): (r: seq<T>)
    ensures |r| <= |history|
  {
    if history == [] then []
    else
      var last := history[|history| - 1];
      Bucket(history[..|history| - 1], key) + (if last.0 == key then [last.1] else [])
  }

  /** `m[k] || []`: a missing property reads as the empty list. */
  function Lookup<T>(m: map<string, seq<T>>, k: string): seq<T> {
    if k in m then m[k] else []
  }

  /** The object after the calls of `history`, starting from `{}`. */
  function Index<T>(history: seq<(string, T)>): map<string, seq<T>> {
    if history == [] then map[]
    else
      var m := Index(history[..|history| - 1]);
      var last := history[|history| - 1];
      var k := last.0 + " ";
      m[k := Lookup(m, k) + [last.1]]
  }

  /** Appending the space loses nothing: distinct keys stay distinct. */
  lemma SpacedKeyInjective(a: string, b: string)
    requires a + " " == b + " "
    ensures a == b
  {
    assert a == (a + " ")[..|a|];
    assert b == (b + " ")[..|b|];
  }

  /** The object answers every lookup with the bucket of the key. */
  lemma {:induction false} IndexLookup<T>(history: seq<(string, T)>, key: string)
    ensures Lookup(Index(history), key + " ") == Bucket(history, key)
    decreases |history|
  {
    if history != [] {
      var last := history[|history| - 1];
      IndexLookup(history[..|history| - 1], key);
      if last.0 != key {
        if last.0 + " " == key + " " {
          SpacedKeyInjective(last.0, key);
        }
      }
    }
  }

  /** An `add` appends to its own key's bucket and leaves every other bucket alone. */
  lemma BucketAdd<T>(history: seq<(string, T)>, key: string, data: T, other: string)
    ensures Bucket(history + [(key, data)], key) == Bucket(history, key) + [data]
    ensures other != key ==> Bucket(history + [(key, data)], other) == Bucket(history, other)
  {
    assert (history + [(key, data)])[..|history|] == history;
  }

  /** The buckets of a longer history extend those of a shorter one. */
  lemma {:induction false} BucketAppend<T>(h: seq<(string, T)>, h': seq<(string, T)>, key: string)
    ensures Bucket(h + h', key) == Bucket(h, key) + Bucket(h', key)
    decreases |h'|
  {
    if h' == [] {
      assert h + h' == h;
    } else {
      var init := h'[..|h'| - 1];
      assert (h + h')[..|h + h'| - 1] == h + init;
      BucketAppend(h, init, key);
    }
  }

  /** A datum is in a bucket exactly when it was added under that key. */
  lemma {:induction false} BucketMembers<T>(history: seq<(string, T)>, key: string, d: T)
    ensures d in Bucket(history, key) <==> (key, d) in history
    decreases |history|
  {
    if history != [] {
      var init := history[..|history| - 1];
      BucketMembers(init, key, d);
      assert history == init + [history[|history| - 1]];
    }
  }

  /** A key nothing was added under reads as the empty list. */
  lemma {:induction false} BucketAbsent<T>(history: seq<(string, T)>, key: string)
    requires forall i :: 0 <= i < |history| ==> history[i].0 != key
    ensures Bucket(history, key) == []
    decreases |history|
  {
    if history != [] {
      BucketAbsent(history[..|history| - 1], key);
    }
  }
}
