/**
 * The two library routines the core leans on: enumerating the values of a
 * map (Go's `for _, v := range m`, JavaScript's Object.values) and sorting
 * a slice by a key (Go's sort.Slice, JavaScript's Array.prototype.sort).
 */
module Collections {

  /** Every value of `m` sits under the key `keyOf` computes for it. */
  ghost predicate KeyedBy<K, V>(m: map<K, V>, keyOf: V -> K) {
    forall k :: k in m ==> keyOf(m[k]) == k
  }

  /** Removing a key from a map keyed by its values removes exactly that key's value. */
  lemma RemoveKeyValues<K, V>(m: map<K, V>, k: K, keyOf: V -> K)
    requires KeyedBy(m, keyOf) && k in m
    ensures m[k] !in (m - {k}).Values
    ensures m.Values == (m - {k}).Values + {m[k]}
    ensures |m - {k}| == |m| - 1
  {
    assert (m - {k}).Keys == m.Keys - {k};
    forall v | v in m.Values ensures v in (m - {k}).Values + {m[k]} {
      var k' :| k' in m && m[k'] == v;
      if k' != k {
        assert (m - {k})[k'] == v;
      }
    }
  }

  /** The values of `m`, one per key, in no particular order. */
  method MapValues<K, V(==)>(m: map<K, V>, keyOf: V -> K) returns (out: seq<V>)
    requires KeyedBy(m, keyOf)
    ensures |out| == |m|
    ensures multiset(out) == multiset(m.Values)
    ensures forall i :: 0 <= i < |out| ==> keyOf(out[i]) in m && m[keyOf(out[i])] == out[i]
  {
    out := [];
    var rest := m;
    while |rest| > 0
      invariant rest.Keys <= m.Keys
      invariant forall k :: k in rest ==> rest[k] == m[k]
      invariant |out| + |rest| == |m|
      invariant forall i :: 0 <= i < |out| ==> keyOf(out[i]) in m && m[keyOf(out[i])] == out[i]
      invariant multiset(out) + multiset(rest.Values) == multiset(m.Values)
      decreases |rest|
    {
      var k :| k in rest;
      RemoveKeyValues(rest, k, keyOf);
      out := out + [rest[k]];
      rest := rest - {k};
    }
    assert rest.Values == {};
  }

  ghost predicate SortedBy<T>(s: seq<T>, key: T -> int) {
    forall i, j :: 0 <= i < j < |s| ==> key(s[i]) <= key(s[j])
  }

  /** Exchanges two cells of `a`. */
  method Swap<T>(a: array<T>, i: int, j: int)
    requires 0 <= i < a.Length && 0 <= j < a.Length
    modifies a
    ensures a[..] == old(a[..])[i := old(a[j])][j := old(a[i])]
    ensures multiset(a[..]) == multiset(old(a[..]))
  {
    a[i], a[j] := a[j], a[i];
  }

  /** One pass of insertion sort: moves `a[i]` left into the sorted prefix `a[..i]`. */
  method InsertIntoPrefix<T>(a: array<T>, i: int, key: T -> int)
    requires 0 <= i < a.Length
    requires forall p, q :: 0 <= p < q < i ==> key(a[p]) <= key(a[q])
    modifies a
    ensures forall p, q :: 0 <= p < q <= i ==> key(a[p]) <= key(a[q])
    ensures multiset(a[..]) == multiset(old(a[..]))
  {
    var j := i;
    while j > 0 && key(a[j - 1]) > key(a[j])
      invariant 0 <= j <= i
      invariant forall p, q :: 0 <= p < q <= i && q != j ==> key(a[p]) <= key(a[q])
      invariant multiset(a[..]) == multiset(old(a[..]))
    {
      Swap(a, j - 1, j);
      j := j - 1;
    }
  }

  /** Sorts `a` in place so that `key` never decreases along it. */
  method SortBy<T>(a: array<T>, key: T -> int)
    modifies a
    ensures SortedBy(a[..], key)
    ensures multiset(a[..]) == multiset(old(a[..]))
  {
    var i := 0;
    while i < a.Length
      invariant 0 <= i <= a.Length
      invariant forall p, q :: 0 <= p < q < i ==> key(a[p]) <= key(a[q])
      invariant multiset(a[..]) == multiset(old(a[..]))
    {
      InsertIntoPrefix(a, i, key);
      i := i + 1;
    }
  }

  /** A sequence with the multiset of a set holds no element twice. */
  lemma {:induction false} NoDuplicatesFromSet<T>(s: seq<T>, S: set<T>, i: int, j: int)
    requires multiset(s) == multiset(S)
    requires 0 <= i < j < |s|
    ensures s[i] != s[j]
  {
    assert s == s[..i] + [s[i]] + s[i + 1..];
    assert multiset(s) == multiset(s[..i]) + multiset{s[i]} + multiset(s[i + 1..]);
    assert s[i + 1..][j - i - 1] == s[j];
    assert multiset(S)[s[i]] <= 1;
  }
}
