/** The multiset of values of a map, whatever order the map is walked in. */
module Bags {
  import opened Wrappers

  ghost function Pick<K, V>(m: map<K, V>): (k: K)
    requires m != map[]
    ensures k in m
  {
    var k :| k in m; k
  }

  ghost function BagOf<K, V>(m: map<K, V>): multiset<V>
    decreases |m|
  {
    if m == map[] then multiset{}
    else
      assert |m - {Pick(m)}| < |m|;
      multiset{m[Pick(m)]} + BagOf(m - {Pick(m)})
  }

  lemma EitherOrder<K(!new), V(!new)>(m: map<K, V>, j: K, k: K)
    ensures m - {j} - {k} == m - {k} - {j}
  {
  }

  /** Any key may be taken out first. */
  lemma {:induction false} BagWithout<K(!new), V(!new)>(m: map<K, V>, k: K)
    requires k in m
    ensures BagOf(m) == multiset{m[k]} + BagOf(m - {k})
    decreases |m|
  {
    var first := Pick(m);
    if first != k {
      var a, b := m - {first}, m - {k};
      BagWithout(a, k);
      BagWithout(b, first);
      EitherOrder(m, first, k);
    }
  }

  lemma BagWith<K(!new), V(!new)>(m: map<K, V>, k: K, v: V)
    requires k !in m
    ensures BagOf(m[k := v]) == BagOf(m) + multiset{v}
  {
    PutThenTake(m, k, v);
    BagWithout(m[k := v], k);
  }

  lemma PutThenTake<K(!new), V(!new)>(m: map<K, V>, k: K, v: V)
    requires k !in m
    ensures m[k := v] - {k} == m
  {
  }
}
