/** Sizes of subsets, pairings and disjoint maps. */
module SetSizes {

  lemma SubsetSize<T>(a: set<T>, b: set<T>)
    requires a <= b
    ensures |b - a| + |a| == |b|
  {
    assert b == (b - a) + a;
  }

  ghost function Paired<S, T>(x: S, s: set<T>): set<(S, T)> {
    set y | y in s :: (x, y)
  }

  /** Pairing every element of a set with the same value keeps its size. */
  lemma {:induction false} PairedSize<S, T>(x: S, s: set<T>)
    ensures |Paired(x, s)| == |s|
    decreases |s|
  {
    if s != {} {
      var z :| z in s;
      PairedSize(x, s - {z});
      assert Paired(x, s) == Paired(x, s - {z}) + {(x, z)};
    }
  }

  lemma DisjointSum<K, V>(a: map<K, V>, b: map<K, V>)
    requires a.Keys !! b.Keys
    ensures |a + b| == |a| + |b|
  {
    assert (a + b).Keys == a.Keys + b.Keys;
    assert |a + b| == |(a + b).Keys| && |a| == |a.Keys| && |b| == |b.Keys|;
  }
}
