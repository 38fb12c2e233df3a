/** The one object store the chat page opens: keyPath "id" with autoIncrement.
    Records are kept by numeric key; `next` is the store's key generator, the
    key the next `add` without an explicit key receives. */
module IndexedDb {
  import opened Wrappers

  /** True when `s` is strictly increasing. */
  predicate Ascending(s: seq<int>) {
    forall i, j :: 0 <= i < j < |s| ==> s[i] < s[j]
  }

  /** Proof helper: set extensionality, which the lemmas below need stated
      outright before they can pick an element of a non-empty set. */
  lemma EmptyWithoutMembers(keys: set<int>)
    requires forall k :: k !in keys
    ensures keys == {}
  {
    var empty: set<int> := {};
    assert forall k :: k in keys <==> k in empty;
  }

  lemma {:induction false} MinExists(keys: set<int>)
    requires keys != {}
    ensures exists m :: m in keys && forall k :: k in keys ==> m <= k
  {
    if forall k :: k !in keys {
      EmptyWithoutMembers(keys);
      assert false;
    }
    var x :| x in keys;
    if !(forall k :: k in keys ==> x <= k) {
      var y :| y in keys && y < x;
      var rest := keys - {x};
      assert y in rest;
      MinExists(rest);
      var m :| m in rest && forall k :: k in rest ==> m <= k;
      forall k | k in keys ensures m <= k {
        if k != x { assert k in rest; }
      }
      assert m in keys;
    }
  }

  /** The smallest key of a non-empty set. */
  function MinKey(keys: set<int>): (m: int)
    requires keys != {}
    ensures m in keys && forall k :: k in keys ==> m <= k
  {
    MinExists(keys);
    var m :| m in keys && forall k :: k in keys ==> m <= k;
    m
  }

  /** The keys of a set in ascending order, the order in which `getAll` returns
      the records of a store. */
  function AscendingKeys(keys: set<int>): (r: seq<int>)
    ensures forall k :: k in r <==> k in keys
    ensures Ascending(r)
    ensures |r| == |keys|
    decreases keys
  {
    if keys == {} then []
    else
      var m := MinKey(keys);
      var rest := AscendingKeys(keys - {m});
      assert forall i :: 0 <= i < |rest| ==> m < rest[i];
      [m] + rest
  }

  datatype Store<R> = Store(records: map<int, R>, next: int)
  {
    /** The key generator starts at 1 and stays above every key in the store. */
    predicate Valid() {
      next >= 1 && forall k :: k in records ==> k < next
    }

    /** `add(value)` without a key: the record goes under the generator's
        current number, a key that was not in the store, and the generator
        moves past it. */
    function Add(value: R): (r: (Store<R>, int))
      requires Valid()
      ensures r.0.Valid()
      ensures r.1 == next && r.1 !in records
      ensures r.0.records == records[r.1 := value]
      ensures r.0.next > next
    {
      (Store(records[next := value], next + 1), next)
    }

    /** `put(value)` with an explicit numeric key: the record under `key` is
        replaced or created, no other record changes, and a key at or above the
        generator moves the generator past it. */
    function Put(key: int, value: R): (r: Store<R>)
      requires Valid()
      ensures r.Valid()
      ensures key in r.records && r.records[key] == value
      ensures r.records.Keys == records.Keys + {key}
      ensures forall k :: k in records && k != key ==> k in r.records && r.records[k] == records[k]
      ensures r.next >= next
    {
      Store(records[key := value], if key >= next then key + 1 else next)
    }

    /** `delete(key)`: the record under `key`, if any, is gone and every other
        one is kept; the generator never goes back. */
    function Delete(key: int): (r: Store<R>)
      requires Valid()
      ensures r.Valid()
      ensures r.records.Keys == records.Keys - {key}
      ensures forall k :: k in r.records ==> r.records[k] == records[k]
      ensures r.next == next
    {
      Store(records - {key}, next)
    }

    /** `get(key)`: the record under `key`, or `undefined`. */
    function Get(key: int): (r: Option<R>)
      ensures r.Some? <==> key in records
      ensures r.Some? ==> r.value == records[key]
    {
      if key in records then Some(records[key]) else None
    }

    /** The keys that `getAll` visits, in its order: every key, once, ascending. */
    function AllKeys(): (r: seq<int>)
      ensures forall k :: k in r <==> k in records
      ensures Ascending(r)
      ensures |r| == |records|
    {
      AscendingKeys(records.Keys)
    }
  }
}
