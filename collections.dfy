/** Listing the values of a keyed store, as `findAll()` on a repository and
    `new ArrayList<>(map.values())` do: one element per key, in some order. */
module Collections {

  /** No element of `s` occurs twice. */
  ghost predicate Distinct<T>(s: seq<T>) {
    forall i, j :: 0 <= i < j < |s| ==> s[i] != s[j]
  }

  /** `ks` lists every key of `keys` exactly once. */
  ghost predicate Enumerates<K>(ks: seq<K>, keys: set<K>) {
    && Distinct(ks)
    && (forall k :: k in ks ==> k in keys)
    && (forall k :: k in keys ==> k in ks)
  }

  /** Copies the values of `m` into a list. The ghost `ks` is the order in which
      the keys were visited: the i-th value is the one stored under the i-th key. */
  method ListValues<K, V(==)>(m: map<K, V>) returns (vs: seq<V>, ghost ks: seq<K>)
    ensures Enumerates(ks, m.Keys)
    ensures |vs| == |ks| == |m|
    ensures forall i :: 0 <= i < |ks| ==> vs[i] == m[ks[i]]
    ensures forall v :: v in vs <==> v in m.Values
  {
    vs, ks := [], [];
    var rest := m.Keys;
    while rest != {}
      invariant rest <= m.Keys
      invariant Distinct(ks)
      invariant forall k :: k in ks <==> k in m.Keys && k !in rest
      invariant |vs| == |ks| && |ks| + |rest| == |m|
      invariant forall i :: 0 <= i < |ks| ==> vs[i] == m[ks[i]]
      decreases rest
    {
      var k :| k in rest;
      vs, ks := vs + [m[k]], ks + [k];
      rest := rest - {k};
    }
    forall v | v in m.Values
      ensures v in vs
    {
      var k :| k in m && m[k] == v;
      var i :| 0 <= i < |ks| && ks[i] == k;
      assert vs[i] == v;
    }
  }
}
