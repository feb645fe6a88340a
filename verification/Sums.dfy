/** Sums over the values of a finite map: the shape of a termination measure over a store of records. */
module Sums {

  ghost function Total<K(!new)>(m: map<K, nat>): nat
    decreases |m|
  {
    if m == map[] then 0 else
      var k :| k in m;
      assert |m - {k}| < |m| by { SmallerWithout(m, k); }
      m[k] + Total(m - {k})
  }

  lemma SmallerWithout<K, V>(m: map<K, V>, k: K)
    requires k in m
    ensures |m - {k}| == |m| - 1
  {
    assert (m - {k}).Keys == m.Keys - {k};
    assert |m.Keys| == |m| && |(m - {k}).Keys| == |m - {k}|;
  }

  /** The order of summation does not matter. */
  lemma {:induction false} TotalWithout<K(!new)>(m: map<K, nat>, k: K)
    requires k in m
    ensures Total(m) == m[k] + Total(m - {k})
    decreases |m|
  {
    var first :| first in m && Total(m) == m[first] + Total(m - {first});
    if first != k {
      SmallerWithout(m, first);
      TotalWithout(m - {first}, k);
      SmallerWithout(m, k);
      TotalWithout(m - {k}, first);
      assert m - {first} - {k} == m - {k} - {first};
    }
  }

  /** Dropping keys and lowering values does not raise the total; lowering or dropping one positive value lowers it. */
  lemma {:induction false} TotalMonotone<K(!new)>(small: map<K, nat>, big: map<K, nat>)
    requires small.Keys <= big.Keys
    requires forall k :: k in small ==> small[k] <= big[k]
    ensures Total(small) <= Total(big)
    ensures (exists k :: k in big && big[k] > (if k in small then small[k] else 0)) ==> Total(small) < Total(big)
    decreases |big|
  {
    if big != map[] {
      var k :| k in big;
      if w :| w in big && big[w] > (if w in small then small[w] else 0) {
        k := w;
      }
      SmallerWithout(big, k);
      TotalWithout(big, k);
      TotalMonotone(small - {k}, big - {k});
      if k in small {
        TotalWithout(small, k);
      } else {
        assert small - {k} == small;
      }
    }
  }
}
