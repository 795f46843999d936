/**
 ordering.go: map values and set keys in key order.

 Go enumerates a map in a random order, so the enumeration here is a loop that picks
 an arbitrary remaining key. What the two methods return is nevertheless a function
 of the map alone.
 */
module Ordering {

  ghost predicate TotalOrder<K(!new)>(leq: (K, K) -> bool) {
    && (forall a, b :: leq(a, b) || leq(b, a))
    && (forall a, b :: leq(a, b) && leq(b, a) ==> a == b)
    && (forall a, b, c :: leq(a, b) && leq(b, c) ==> leq(a, c))
  }

  ghost predicate StrictlyAscending<K>(leq: (K, K) -> bool, s: seq<K>) {
    forall i, j | 0 <= i < j < |s| :: leq(s[i], s[j]) && s[i] != s[j]
  }

  ghost function Elements<K>(s: seq<K>): set<K> {
    set k | k in s
  }

  lemma ElementsEmpty<K>(s: seq<K>)
    ensures Elements(s) == {} <==> s == []
  {
    if s != [] {
      assert s[0] in Elements(s);
    }
  }

  /** An ascending duplicate-free list is determined by its elements. */
  lemma {:induction false} AscendingUnique<K(!new)>(leq: (K, K) -> bool, a: seq<K>, b: seq<K>)
    requires TotalOrder(leq)
    requires StrictlyAscending(leq, a) && StrictlyAscending(leq, b)
    requires Elements(a) == Elements(b)
    ensures a == b
  {
    ElementsEmpty(a);
    ElementsEmpty(b);
    if a != [] {
      assert a[0] in Elements(b);
      var i :| 0 <= i < |b| && b[i] == a[0];
      assert b[0] in Elements(a);
      var j :| 0 <= j < |a| && a[j] == b[0];
      assert a[0] == b[0];
      forall k ensures k in a[1..] <==> k in b[1..] {
        assert k in a[1..] ==> k in Elements(a) && k != a[0];
        assert k in b[1..] ==> k in Elements(b) && k != b[0];
      }
      AscendingUnique(leq, a[1..], b[1..]);
      assert a == [a[0]] + a[1..] && b == [b[0]] + b[1..];
    }
  }

  function Insert<K(==)>(leq: (K, K) -> bool, s: seq<K>, x: K): seq<K> {
    if s == [] || leq(x, s[0]) then [x] + s else [s[0]] + Insert(leq, s[1..], x)
  }

  lemma {:induction false} InsertKeepsOrder<K(!new)>(leq: (K, K) -> bool, s: seq<K>, x: K)
    requires TotalOrder(leq) && StrictlyAscending(leq, s) && x !in s
    ensures StrictlyAscending(leq, Insert(leq, s, x))
    ensures Elements(Insert(leq, s, x)) == Elements(s) + {x}
    ensures |Insert(leq, s, x)| == |s| + 1
  {
    if s == [] {
    } else if leq(x, s[0]) {
      assert s[0] in s;
      assert Elements([x] + s) == Elements(s) + {x};
    } else {
      InsertKeepsOrder(leq, s[1..], x);
      var t := Insert(leq, s[1..], x);
      assert Elements(s) == {s[0]} + Elements(s[1..]);
      assert Elements([s[0]] + t) == {s[0]} + Elements(t);
      forall i | 0 <= i < |t| ensures leq(s[0], t[i]) && s[0] != t[i] {
        assert t[i] in Elements(s[1..]) + {x};
      }
    }
  }

  /** slices.Sort on a list of distinct keys. */
  function Sorted<K(==)>(leq: (K, K) -> bool, s: seq<K>): seq<K> {
    if s == [] then [] else Insert(leq, Sorted(leq, s[..|s| - 1]), s[|s| - 1])
  }

  lemma {:induction false} SortedIsAscending<K(!new)>(leq: (K, K) -> bool, s: seq<K>)
    requires TotalOrder(leq)
    requires forall i, j | 0 <= i < j < |s| :: s[i] != s[j]
    ensures StrictlyAscending(leq, Sorted(leq, s))
    ensures Elements(Sorted(leq, s)) == Elements(s)
    ensures |Sorted(leq, s)| == |s|
  {
    if s != [] {
      var front, last := s[..|s| - 1], s[|s| - 1];
      SortedIsAscending(leq, front);
      assert last !in Elements(front);
      InsertKeepsOrder(leq, Sorted(leq, front), last);
      assert Elements(s) == Elements(front) + {last};
    }
  }

  lemma EnumerationExists<K>(s: set<K>) returns (e: seq<K>)
    ensures Elements(e) == s && |e| == |s|
    ensures forall i, j | 0 <= i < j < |e| :: e[i] != e[j]
  {
    if s == {} {
      e := [];
    } else {
      var k :| k in s;
      e := EnumerationExists(s - {k});
      assert forall x | x in e :: x in Elements(e);
      assert Elements(e + [k]) == Elements(e) + {k};
      e := e + [k];
    }
  }

  lemma AscendingExists<K(!new)>(leq: (K, K) -> bool, s: set<K>)
    requires TotalOrder(leq)
    ensures exists a :: StrictlyAscending(leq, a) && Elements(a) == s
  {
    var e := EnumerationExists(s);
    SortedIsAscending(leq, e);
  }

  /** The elements of `s` in ascending order, whatever order they are enumerated in. */
  ghost function Ascending<K(!new)>(leq: (K, K) -> bool, s: set<K>): (a: seq<K>)
    requires TotalOrder(leq)
    ensures StrictlyAscending(leq, a) && Elements(a) == s
  {
    AscendingExists(leq, s);
    var a :| StrictlyAscending(leq, a) && Elements(a) == s;
    a
  }

  /** sortedSetKeys. */
  method SortedSetKeys<K(==, !new)>(leq: (K, K) -> bool, s: set<K>) returns (keys: seq<K>)
    requires TotalOrder(leq)
    ensures keys == Ascending(leq, s)
  {
    keys := [];
    var rest := s;
    while rest != {}
      invariant Elements(keys) == s - rest && rest <= s
      invariant forall i, j | 0 <= i < j < |keys| :: keys[i] != keys[j]
      decreases |rest|
    {
      var k :| k in rest;
      assert k !in Elements(keys);
      assert Elements(keys + [k]) == Elements(keys) + {k};
      keys, rest := keys + [k], rest - {k};
    }
    SortedIsAscending(leq, keys);
    AscendingUnique(leq, Sorted(leq, keys), Ascending(leq, s));
    keys := Sorted(leq, keys);
  }

  ghost function ValuesAt<K, V>(m: map<K, V>, keys: seq<K>): (out: seq<V>)
    requires forall k | k in keys :: k in m
    ensures |out| == |keys| && forall i | 0 <= i < |keys| :: out[i] == m[keys[i]]
  {
    seq(|keys|, i requires 0 <= i < |keys| => m[keys[i]])
  }

  /** The list sortedMapValues must return: one value per key, in ascending key order. */
  ghost function InKeyOrder<K(!new), V>(leq: (K, K) -> bool, m: map<K, V>): (out: seq<V>)
    requires TotalOrder(leq)
  {
    var keys := Ascending(leq, m.Keys);
    assert forall k | k in keys :: k in Elements(keys);
    ValuesAt(m, keys)
  }

  /** sortedMapValues. */
  method SortedMapValues<K(==, !new), V>(leq: (K, K) -> bool, m: map<K, V>) returns (out: seq<V>)
    requires TotalOrder(leq)
    ensures out == InKeyOrder(leq, m)
  {
    var keys := SortedSetKeys(leq, m.Keys);
    assert forall k | k in keys :: k in Elements(keys);
    out := [];
    for i := 0 to |keys|
      invariant |out| == i && forall j | 0 <= j < i :: out[j] == m[keys[j]]
    {
      out := out + [m[keys[i]]];
    }
  }

  /** A row is in the list exactly when it is some key's row, and distinct keys give distinct positions. */
  lemma InKeyOrderRows<K(!new), V(!new)>(leq: (K, K) -> bool, m: map<K, V>)
    requires TotalOrder(leq)
    ensures |InKeyOrder(leq, m)| == |Ascending(leq, m.Keys)| == |m|
    ensures forall v :: v in InKeyOrder(leq, m) <==> exists k :: k in m && m[k] == v
  {
    var keys, out := Ascending(leq, m.Keys), InKeyOrder(leq, m);
    assert forall k | k in keys :: k in Elements(keys);
    forall k | k in m ensures m[k] in out {
      assert k in Elements(keys);
      var i :| 0 <= i < |keys| && keys[i] == k;
      assert out[i] == m[k];
    }
    DistinctCardinality(keys);
    assert Elements(keys) == m.Keys;
  }

  lemma {:induction false} DistinctCardinality<K>(s: seq<K>)
    requires forall i, j | 0 <= i < j < |s| :: s[i] != s[j]
    ensures |Elements(s)| == |s|
  {
    if s != [] {
      DistinctCardinality(s[1..]);
      assert Elements(s) == {s[0]} + Elements(s[1..]);
    }
  }
}
