/** The in-memory tables of the mock repositories are Go maps, whose iteration order is
    unspecified. A listing of a table is therefore described by the keys it visited: each key
    once, every key, and the value stored under it. */
module Tables {

  predicate Distinct<T(==)>(s: seq<T>) {
    forall i, j :: 0 <= i < j < |s| ==> s[i] != s[j]
  }

  /** `keys` visits every key of `m` exactly once, in some order. */
  predicate Enumerates<V>(keys: seq<string>, m: map<string, V>) {
    Distinct(keys) &&
    (forall i :: 0 <= i < |keys| ==> keys[i] in m) &&
    (forall k :: k in m ==> k in keys)
  }

  /** The values stored under `keys`, in that order. */
  function Project<V>(keys: seq<string>, m: map<string, V>): (r: seq<V>)
    requires forall i :: 0 <= i < |keys| ==> keys[i] in m
    ensures |r| == |keys|
    ensures forall i :: 0 <= i < |keys| ==> r[i] == m[keys[i]]
  {
    seq(|keys|, i requires 0 <= i < |keys| => m[keys[i]])
  }

  function Elements<T(==)>(s: seq<T>): set<T> {
    set x | x in s
  }

  lemma {:induction false} DistinctCardinality<T>(s: seq<T>)
    requires Distinct(s)
    ensures |Elements(s)| == |s|
  {
    if s != [] {
      var t := s[1..];
      assert Distinct(t) by {
        forall i, j | 0 <= i < j < |t| ensures t[i] != t[j] {
          assert t[i] == s[i + 1] && t[j] == s[j + 1];
        }
      }
      DistinctCardinality(t);
      assert Elements(s) == {s[0]} + Elements(t);
      assert s[0] !in Elements(t) by {
        forall i | 0 <= i < |t| ensures t[i] != s[0] {
          assert t[i] == s[i + 1];
        }
      }
    }
  }

  /** An enumeration has exactly one entry per key of the table. */
  lemma EnumeratesLength<V>(keys: seq<string>, m: map<string, V>)
    requires Enumerates(keys, m)
    ensures |keys| == |m|
  {
    DistinctCardinality(keys);
    assert Elements(keys) == m.Keys;
  }
}
