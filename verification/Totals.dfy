/** Sums and counts over finite maps, used wherever the source keeps a running total of a dictionary. */
module Totals {

  /** The number of keys that a map sends to a given value. */
  ghost function Count<K, V>(m: map<K, V>, v: V): nat
  {
    |KeysOf(m, v)|
  }

  ghost function KeysOf<K, V>(m: map<K, V>, v: V): set<K>
  {
    set k | k in m && m[k] == v
  }

  lemma CountInsert<K, V>(m: map<K, V>, k: K, v: V)
    requires k !in m
    ensures Count(m[k := v], v) == Count(m, v) + 1
    ensures forall w :: w != v ==> Count(m[k := v], w) == Count(m, w)
  {
    assert KeysOf(m[k := v], v) == KeysOf(m, v) + {k};
    forall w | w != v ensures Count(m[k := v], w) == Count(m, w) {
      assert KeysOf(m[k := v], w) == KeysOf(m, w);
    }
  }

  lemma CountReplace<K, V>(m: map<K, V>, k: K, v: V)
    requires k in m && m[k] != v
    ensures Count(m[k := v], v) == Count(m, v) + 1
    ensures Count(m[k := v], m[k]) == Count(m, m[k]) - 1
    ensures forall w :: w != v && w != m[k] ==> Count(m[k := v], w) == Count(m, w)
  {
    assert KeysOf(m[k := v], v) == KeysOf(m, v) + {k};
    assert KeysOf(m[k := v], m[k]) == KeysOf(m, m[k]) - {k};
    forall w | w != v && w != m[k] ensures Count(m[k := v], w) == Count(m, w) {
      assert KeysOf(m[k := v], w) == KeysOf(m, w);
    }
  }

  /** The sum of a map's values. */
  ghost function Sum<K>(m: map<K, nat>): nat
    decreases |m|
  {
    if m == map[] then 0
    else
      var k := Pick(m);
      RemoveShrinks(m, k);
      m[k] + Sum(m - {k})
  }

  ghost function Pick<K, V>(m: map<K, V>): (k: K)
    requires m != map[]
    ensures k in m
  {
    var k :| k in m; k
  }

  lemma RemoveShrinks<K, V>(m: map<K, V>, k: K)
    requires k in m
    ensures |m - {k}| == |m| - 1
  {
    assert (m - {k}).Keys == m.Keys - {k};
    assert |m.Keys| == |m| && |(m - {k}).Keys| == |m - {k}|;
  }

  lemma {:induction false} SumRemove<K>(m: map<K, nat>, k: K)
    requires k in m
    ensures Sum(m) == m[k] + Sum(m - {k})
    decreases |m|
  {
    var j := Pick(m);
    RemoveShrinks(m, j);
    RemoveShrinks(m, k);
    if j != k {
      SumRemove(m - {j}, k);
      SumRemove(m - {k}, j);
      assert (m - {j}) - {k} == (m - {k}) - {j};
    }
  }

  lemma SumInsert<K>(m: map<K, nat>, k: K, n: nat)
    requires k !in m
    ensures Sum(m[k := n]) == Sum(m) + n
  {
    SumRemove(m[k := n], k);
    assert m[k := n] - {k} == m;
  }

  lemma {:induction false} NoLarger<T>(a: set<T>, b: set<T>)
    requires a <= b
    ensures |a| <= |b|
    decreases |a|
  {
    if a != {} {
      var x :| x in a;
      NoLarger(a - {x}, b - {x});
    }
  }
}
