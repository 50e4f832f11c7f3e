/**
 * src/IndexedSet.js: the same key-to-list map as src/MappedLists.js under
 * another name, with its object held in the field `sets`.  Despite the name
 * it keeps duplicates: a datum added twice under a key appears twice.
 */
module IndexedSet {
  import opened Buckets

  class IndexedSet<T> {
    var sets: map<string, seq<T>>
    /** The `add` calls so far, oldest first. */
    ghost var history: seq<(string, T)>

    ghost predicate Valid()
      reads this
    {
      sets == Index(history)
    }

    /** `new IndexedSet()`: an empty object. */
    constructor ()
      ensures Valid() && history == []
    {
      sets := map[];
      history := [];
    }

    /** `add(key, data)`: appends `data` to the list of `key` and returns the receiver. */
    method Add(key: string, data: T) returns (self: IndexedSet<T>)
      requires Valid()
      modifies this
      ensures Valid() && history == old(history) + [(key, data)]
      ensures self == this
    {
      var k := key + " ";
      var l := if k in sets then sets[k] else [];
      sets := sets[k := l + [data]];
      history := history + [(key, data)];
      assert history[..|history| - 1] == old(history);
      return this;
    }

    /** `get(key)`: the data added under `key`, oldest first, or the empty list. */
    function Get(key: string): (r: seq<T>)
      reads this
      requires Valid()
      ensures r == Bucket(history, key)
    {
      IndexLookup(history, key);
      var k := key + " ";
      if k in sets then sets[k] else []
    }
  }

  /** Adding the same datum twice under one key keeps both copies. */
  lemma KeepsDuplicates<T>(history: seq<(string, T)>, key: string, d: T)
    ensures Bucket(history + [(key, d)] + [(key, d)], key) == Bucket(history, key) + [d, d]
  {
    BucketAdd(history, key, d, key);
    BucketAdd(history + [(key, d)], key, d, key);
  }
}
