/** Counting. */
module FiniteSets {
  /** The numbers 0, ..., k - 1. */
  function Below(k: nat): (ns: set<int>)
    ensures |ns| == k && forall m :: m in ns <==> 0 <= m < k
  {
    if k == 0 then {} else Below(k - 1) + {k - 1}
  }

  lemma SubsetCount(a: set<int>, b: set<int>)
    requires a <= b
    ensures |a| <= |b|
    ensures |a| == |b| ==> a == b
  {
    assert b == a + (b - a);
  }
}
