// The grid's storage: a NativeMultiHashMap<int, int> from composite
// (cell, team) keys to boid indices. A key may hold the same value more
// than once; each key's values are kept in iteration order, newest first,
// as the hash map's bucket chains link a new entry in front of the old ones.
module MultiMap {

  type MultiMap = map<int, seq<int>>

  /** The values stored under key k, in iteration order (none when k was never added). */
  function Values(m: MultiMap, k: int): seq<int>
  {
    if k in m then m[k] else []
  }

  /** s with every occurrence of v dropped, the others kept in order. */
  function Without(s: seq<int>, v: int): (r: seq<int>)
    ensures forall x :: x in r <==> x in s && x != v
    ensures |r| <= |s|
  {
    if s == [] then []
    else if s[0] == v then Without(s[1..], v)
    else [s[0]] + Without(s[1..], v)
  }

  /** NativeMultiHashMap.Add(key, value). */
  function AddPair(m: MultiMap, k: int, v: int): MultiMap
  {
    m[k := [v] + Values(m, k)]
  }

  /** NativeMultiHashMap.Remove(key, value): every (key, value) pair goes; an absent pair is a no-op. */
  function RemovePair(m: MultiMap, k: int, v: int): MultiMap
  {
    if k in m then m[k := Without(m[k], v)] else m
  }

  /**
   * A NativeMultiHashMap<int, int> instance. The simulator allocates one and
   * hands the same instance to its jobs, which change it in place.
   */
  class NativeMultiHashMap {
    var entries: MultiMap

    /** A new map holds no pairs. */
    constructor ()
      ensures entries == map[]
    {
      entries := map[];
    }

    /** Add(key, value): one more pair, in front of the key's older values. */
    method Add(key: int, value: int)
      modifies this
      ensures entries == AddPair(old(entries), key, value)
    {
      entries := AddPair(entries, key, value);
    }

    /** Remove(key, value): every pair (key, value) goes. */
    method Remove(key: int, value: int)
      modifies this
      ensures entries == RemovePair(old(entries), key, value)
    {
      entries := RemovePair(entries, key, value);
    }
  }

  /** No value occurs twice in s. */
  ghost predicate AtMostOnce(s: seq<int>)
  {
    forall x :: multiset(s)[x] <= 1
  }

  // ---------------------------------------------------------------------

  /** Removing v takes away all of its copies and leaves every other value's count alone. */
  lemma {:induction false} WithoutCounts(s: seq<int>, v: int)
    ensures multiset(Without(s, v)) == multiset(s)[v := 0]
  {
    if s != [] {
      var rest := s[1..];
      WithoutCounts(rest, v);
      assert s == [s[0]] + rest;
      assert multiset(s) == multiset{s[0]} + multiset(rest);
      if s[0] == v {
        assert Without(s, v) == Without(rest, v);
      } else {
        assert multiset(Without(s, v)) == multiset{s[0]} + multiset(Without(rest, v));
      }
    }
  }

  /** Remove(key, value) deletes exactly the pairs (key, value). */
  lemma RemovePairCounts(m: MultiMap, k: int, v: int, k': int)
    ensures multiset(Values(RemovePair(m, k, v), k')) ==
            if k' == k then multiset(Values(m, k))[v := 0] else multiset(Values(m, k'))
  {
    if k in m {
      WithoutCounts(m[k], v);
    }
  }

  /** Add(key, value) adds exactly one pair (key, value). */
  lemma AddPairCounts(m: MultiMap, k: int, v: int, k': int)
    ensures multiset(Values(AddPair(m, k, v), k')) ==
            if k' == k then multiset(Values(m, k)) + multiset{v} else multiset(Values(m, k'))
  {
  }

  /** Dropping a value keeps a duplicate-free bucket duplicate-free. */
  lemma WithoutAtMostOnce(s: seq<int>, v: int)
    requires AtMostOnce(s)
    ensures AtMostOnce(Without(s, v))
  {
    WithoutCounts(s, v);
  }
}
