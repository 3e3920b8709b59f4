/** Sums over the entries of a finite map. */
module MapSums {
  import opened Orders

  ghost function SumOver<K(!new), V>(m: map<K, V>, w: (K, V) -> Decimal): Decimal
    decreases |m|
  {
    if exists k :: k in m then
      var k :| k in m;
      w(k, m[k]) + SumOver(m - {k}, w)
    else 0.0
  }

  /** Any entry may be taken out first. */
  lemma {:induction false} SumSplit<K(!new), V>(m: map<K, V>, w: (K, V) -> Decimal, k: K)
    requires k in m
    ensures SumOver(m, w) == w(k, m[k]) + SumOver(m - {k}, w)
    decreases |m|
  {
    var c :| c in m && SumOver(m, w) == w(c, m[c]) + SumOver(m - {c}, w);
    if c != k {
      SumSplit(m - {c}, w, k);
      SumSplit(m - {k}, w, c);
      assert m - {c} - {k} == m - {k} - {c};
    }
  }

  lemma SumUpdate<K(!new), V>(m: map<K, V>, w: (K, V) -> Decimal, k: K, v: V)
    ensures SumOver(m[k := v], w) == SumOver(m, w) + w(k, v) - if k in m then w(k, m[k]) else 0.0
  {
    SumSplit(m[k := v], w, k);
    assert m[k := v] - {k} == m - {k};
    if k in m {
      SumSplit(m, w, k);
    } else {
      assert m - {k} == m;
    }
  }

  lemma {:induction false} SumNonNegative<K(!new), V>(m: map<K, V>, w: (K, V) -> Decimal)
    requires forall k :: k in m ==> w(k, m[k]) >= 0.0
    ensures SumOver(m, w) >= 0.0
    decreases |m|
  {
    if exists k :: k in m {
      var k :| k in m && SumOver(m, w) == w(k, m[k]) + SumOver(m - {k}, w);
      SumNonNegative(m - {k}, w);
    }
  }

  /** No entry of a non-negative sum exceeds it. */
  lemma SumAtLeast<K(!new), V>(m: map<K, V>, w: (K, V) -> Decimal, k: K)
    requires k in m && forall i :: i in m ==> w(i, m[i]) >= 0.0
    ensures SumOver(m, w) >= w(k, m[k])
  {
    SumSplit(m, w, k);
    SumNonNegative(m - {k}, w);
  }
}
