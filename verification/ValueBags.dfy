/** The values of a map as a bag. */
module ValueBags {
  import opened Basics

  function One(v: Value): multiset<Value> {
    if v == NULL then multiset{} else multiset{v}
  }

  // The non-NULL values of a map, each as often as it is stored.
  ghost function Bag<K>(m: map<K, Value>): multiset<Value> {
    if m == map[] then multiset{}
    else
      var k :| k in m;
      One(m[k]) + Bag(m - {k})
  }

  lemma EitherOrder<X, Y>(m: map<X, Y>, x: X, y: X)
    ensures m - {x} - {y} == m - {y} - {x}
  {}

  lemma NothingOut<X, Y>(m: map<X, Y>, x: X)
    requires x !in m
    ensures m - {x} == m
  {}

  lemma Exchange(a: multiset<Value>, b: multiset<Value>, c: multiset<Value>)
    ensures a + (b + c) == b + (a + c)
  {}

  lemma {:induction false} BagSplit<K>(m: map<K, Value>, k: K)
    requires k in m
    ensures Bag(m) == One(m[k]) + Bag(m - {k})
    decreases |m|
  {
    var k0 :| k0 in m && Bag(m) == One(m[k0]) + Bag(m - {k0});
    if k != k0 {
      var m0, m1 := m - {k0}, m - {k};
      assert m0[k] == m[k] && m1[k0] == m[k0];
      BagSplit(m0, k);
      BagSplit(m1, k0);
      EitherOrder(m, k0, k);
      Exchange(One(m[k0]), One(m[k]), Bag(m0 - {k}));
    }
  }

  lemma BagUpdate<K>(m: map<K, Value>, k: K, v: Value)
    ensures Bag(m[k := v]) == One(v) + Bag(m - {k})
  {
    BagSplit(m[k := v], k);
    assert m[k := v] - {k} == m - {k};
  }
}
