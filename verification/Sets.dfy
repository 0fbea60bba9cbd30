/** Sizes of subsets. */
module Sets {
  lemma SubsetSize<T>(a: set<T>, b: set<T>)
    requires a <= b
    ensures |a| <= |b|
    ensures |a| == |b| ==> a == b
  {
    assert b == a + (b - a);
  }

  lemma SubsetSmaller<T>(a: set<T>, b: set<T>, y: T)
    requires a <= b && y in b && y !in a
    ensures |a| < |b|
  {
    assert b == a + (b - a) && y in b - a;
  }
}
