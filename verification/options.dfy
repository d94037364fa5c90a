/** The optional value the store hands back for an absent key or scope. */
module Options {

  datatype Option<+T> = None | Some(value: T)

  /** The entry of `m` at `k`, or `None` when `m` has no such key. */
  function Get<K, V>(m: map<K, V>, k: K): (r: Option<V>)
    ensures r.Some? <==> k in m
    ensures r.Some? ==> m[k] == r.value
  {
    if k in m then Some(m[k]) else None
  }

  /** Two maps whose entries read the same through `Get` at every key are equal. */
  lemma MapsAgreeingEverywhereAreEqual<K, V>(m1: map<K, V>, m2: map<K, V>)
    requires forall k :: Get(m1, k) == Get(m2, k)
    ensures m1 == m2
  {
    assert m1.Keys == m2.Keys by {
      assert forall k :: k in m1 <==> Get(m1, k).Some?;
    }
    forall k | k in m1
      ensures m1[k] == m2[k]
    {
      assert Get(m1, k) == Get(m2, k);
    }
  }
}
