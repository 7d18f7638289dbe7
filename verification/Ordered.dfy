/** Maps with numeric keys, taken in ascending key order as a `BTreeMap` iterates. */
module Ordered {

  ghost predicate IsMin<V>(m: map<nat, V>, k: nat) {
    k in m && forall j :: j in m ==> k <= j
  }

  lemma SmallerSet(a: set<nat>, b: set<nat>)
    requires a < b
    ensures |a| < |b|
  {
    assert |b - a| + |a| == |b| by { assert b == (b - a) + a; }
    var x :| x in b - a;
  }

  lemma SmallerMap<V>(a: map<nat, V>, b: map<nat, V>)
    requires a.Keys < b.Keys
    ensures |a| < |b|
  {
    SmallerSet(a.Keys, b.Keys);
    assert |a| == |a.Keys| && |b| == |b.Keys|;
  }

  lemma MinExists<V>(m: map<nat, V>)
    requires m != map[]
    ensures exists k :: IsMin(m, k)
    decreases |m|
  {
    var k :| k in m;
    if forall j :: j in m ==> k <= j {
      assert IsMin(m, k);
    } else {
      var below := map j | j in m && j < k :: m[j];
      assert below.Keys < m.Keys by { assert k !in below; }
      SmallerMap(below, m);
      assert below != map[] by { var j :| j in m && j < k; assert j in below; }
      MinExists(below);
      var l :| IsMin(below, l);
      forall j | j in m ensures l <= j { if j < k { assert j in below; } }
      assert IsMin(m, l);
    }
  }

  function FirstKey<V>(m: map<nat, V>): (k: nat)
    requires m != map[]
    ensures IsMin(m, k)
  {
    MinExists(m);
    var k :| k in m && forall j :: j in m ==> k <= j;
    k
  }

  function Without<V>(m: map<nat, V>, k: nat): (m': map<nat, V>)
    ensures m'.Keys == m.Keys - {k}
  {
    map j | j in m && j != k :: m[j]
  }

  lemma WithoutSmaller<V>(m: map<nat, V>, k: nat)
    requires k in m
    ensures |Without(m, k)| < |m|
  {
    SmallerMap(Without(m, k), m);
  }

  /** All keys, ascending. */
  function SortedKeys<V>(m: map<nat, V>): (ks: seq<nat>)
    decreases |m|
  {
    if m == map[] then []
    else
      WithoutSmaller(m, FirstKey(m));
      [FirstKey(m)] + SortedKeys(Without(m, FirstKey(m)))
  }
}
