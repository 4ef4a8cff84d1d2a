/** Sizes of sets and maps, and subsequences. */
module Collections {
  lemma SubsetCount<T>(a: set<T>, b: set<T>)
    requires a <= b
    ensures |a| <= |b|
  {
    assert b == a + (b - a);
  }

  lemma FewerKeys<K, V>(m: map<K, V>, s: set<K>)
    ensures |m - s| <= |m|
  {
    SubsetCount((m - s).Keys, m.Keys);
  }

  /** `xs` is picked from `all` at strictly increasing positions. */
  ghost predicate Picks<T>(xs: seq<T>, all: seq<T>, positions: seq<nat>) {
    && |positions| == |xs|
    && (forall i | 0 <= i < |xs| :: positions[i] < |all| && xs[i] == all[positions[i]])
    && (forall i, j | 0 <= i < j < |xs| :: positions[i] < positions[j])
  }
}
