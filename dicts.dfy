/**
 A dictionary as the scripts use it: a finite map that also remembers the
 order in which its keys were first inserted, because iterating over a
 dictionary visits the keys in that order. Assigning to a key that is
 already present replaces its value and keeps its position.
 */
module Dicts {

  datatype Dict<K, V> = Dict(keys: seq<K>, entries: map<K, V>)

  /** No key is listed twice, and the listed keys are exactly the stored ones. */
  ghost predicate Valid<K, V>(d: Dict<K, V>)
  {
    && (forall i, j :: 0 <= i < j < |d.keys| ==> d.keys[i] != d.keys[j])
    && (forall k :: k in d.entries ==> k in d.keys)
    && (forall i :: 0 <= i < |d.keys| ==> d.keys[i] in d.entries)
  }

  /** `{}` */
  function Empty<K, V>(): (d: Dict<K, V>)
    ensures Valid(d) && d.keys == [] && d.entries.Keys == {}
  {
    Dict([], map[])
  }

  /** `d[k] = v` */
  function Set<K, V>(d: Dict<K, V>, k: K, v: V): (r: Dict<K, V>)
    requires Valid(d)
    ensures Valid(r)
    ensures r.entries.Keys == d.entries.Keys + {k}
    ensures k in r.entries && r.entries[k] == v
    ensures forall k' :: k' in d.entries && k' != k ==> r.entries[k'] == d.entries[k']
    ensures k in d.entries ==> r.keys == d.keys
    ensures k !in d.entries ==> r.keys == d.keys + [k]
  {
    if k in d.entries then Dict(d.keys, d.entries[k := v])
    else Dict(d.keys + [k], d.entries[k := v])
  }

  /**
   The keys of `s` in order of first occurrence: the key order of a
   dictionary into which the elements of `s` are inserted one by one.
   */
  function Distinct<K(==)>(s: seq<K>): (r: seq<K>)
    ensures forall i, j :: 0 <= i < j < |r| ==> r[i] != r[j]
    ensures forall k :: k in r ==> k in s
    ensures forall k :: k in s ==> k in r
    ensures |r| <= |s|
  {
    if s == [] then []
    else
      var prefix := Distinct(s[..|s| - 1]);
      if s[|s| - 1] in prefix then prefix else prefix + [s[|s| - 1]]
  }

  /** Appending one element extends the first-occurrence order by it, unless it already occurs. */
  lemma DistinctSnoc<K>(s: seq<K>, x: K)
    ensures Distinct(s + [x]) == if x in Distinct(s) then Distinct(s) else Distinct(s) + [x]
  {
  }

  /** The position of the first occurrence of `x` in `s`. */
  function FirstIndex<K(==)>(s: seq<K>, x: K): (n: nat)
    requires x in s
    ensures n < |s| && s[n] == x
    ensures forall m :: 0 <= m < n ==> s[m] != x
  {
    if s[0] == x then 0 else 1 + FirstIndex(s[1..], x)
  }

  /** Extending a sequence does not move the first occurrence of an element it already holds. */
  lemma FirstIndexPrefix<K>(s: seq<K>, x: K)
    requires s != [] && x in s[..|s| - 1]
    ensures FirstIndex(s, x) == FirstIndex(s[..|s| - 1], x)
  {
    var p := s[..|s| - 1];
    var a, b := FirstIndex(s, x), FirstIndex(p, x);
    assert s[b] == p[b];
    assert a <= b;
    assert p[a] == s[a];
  }

  /**
   `Distinct(s)` lists its elements in the order of their first occurrence
   in `s`. With its other ensures this determines `Distinct(s)` completely.
   */
  lemma {:induction false} DistinctOrder<K>(s: seq<K>)
    ensures forall i, j :: 0 <= i < j < |Distinct(s)| ==>
              FirstIndex(s, Distinct(s)[i]) < FirstIndex(s, Distinct(s)[j])
  {
    if s != [] {
      var p, x := s[..|s| - 1], s[|s| - 1];
      DistinctOrder(p);
      var r, q := Distinct(s), Distinct(p);
      forall k | k in q ensures FirstIndex(s, k) == FirstIndex(p, k) {
        FirstIndexPrefix(s, k);
      }
      if x !in q {
        assert x !in p;
        assert FirstIndex(s, x) == |s| - 1;
        forall i | 0 <= i < |q| ensures FirstIndex(s, r[i]) < FirstIndex(s, r[|r| - 1]) {
          assert r[i] == q[i];
        }
      }
    }
  }

  /** A sequence without repetitions has as many elements as its set of elements. */
  lemma {:induction false} DistinctCardinality<T>(s: seq<T>)
    requires forall i, j :: 0 <= i < j < |s| ==> s[i] != s[j]
    ensures |set x | x in s| == |s|
  {
    if s != [] {
      var p := s[..|s| - 1];
      DistinctCardinality(p);
      assert (set x | x in s) == (set x | x in p) + {s[|s| - 1]} by {
        assert s == p + [s[|s| - 1]];
      }
      assert s[|s| - 1] !in p;
    }
  }

  /** Python's `s[1:]`: everything but the first element, and `[]` for `[]`. */
  function Tail<T>(s: seq<T>): (r: seq<T>)
    ensures |s| > 0 ==> |r| == |s| - 1 && forall i :: 0 <= i < |r| ==> r[i] == s[i + 1]
    ensures |s| == 0 ==> r == []
  {
    if s == [] then [] else s[1..]
  }
}
