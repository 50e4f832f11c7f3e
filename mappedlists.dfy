/**
 * src/MappedLists.js: a map from string keys to the lists of data added
 * under them.  The object `lists` is a Dafny map whose keys carry the
 * appended space, as the JavaScript property names do.
 */
module MappedLists {
  import opened Buckets

  class MappedLists<T> {
    var lists: map<string, seq<T>>
    /** The `add` calls so far, oldest first. */
    ghost var history: seq<(string, T)>

    ghost predicate Valid()
      reads this
    {
      lists == Index(history)
    }

    /** `new MappedLists()`: an empty object. */
    constructor ()
      ensures Valid() && history == []
    {
      lists := map[];
      history := [];
    }

    /** `add(key, data)`: appends `data` to the list of `key`, creating the
        list on first use, and returns the receiver. */
    method Add(key: string, data: T) returns (self: MappedLists<T>)
      requires Valid()
      modifies this
      ensures Valid() && history == old(history) + [(key, data)]
      ensures self == this
    {
      var k := key + " ";
      var l := if k in lists then lists[k] else [];
      lists := lists[k := l + [data]];
      history := history + [(key, data)];
      assert history[..|history| - 1] == old(history);
      return this;
    }

    /** `get(key)`: the data added under `key`, oldest first; the empty list
        for a key never added. */
    function Get(key: string): (r: seq<T>)
      reads this
      requires Valid()
      ensures r == Bucket(history, key)
    {
      IndexLookup(history, key);
      var k := key + " ";
      if k in lists then lists[k] else []
    }
  }
}
