/** Counting facts about finite sets. */
module Sets {
  function Below(n: nat): (r: set<nat>)
    ensures forall i: nat :: i in r <==> i < n
    ensures |r| == n
  {
    if n == 0 then {} else Below(n - 1) + {n - 1}
  }

  lemma SubsetSize<T>(a: set<T>, b: set<T>)
    requires a <= b
    ensures |a| <= |b|
  {
    assert b == a + (b - a);
  }

  lemma ProperSubsetSize<T>(a: set<T>, b: set<T>)
    requires a < b
    ensures |a| < |b|
  {
    assert b == a + (b - a);
  }

  /** Sets that agree except perhaps on `x`. */
  lemma SizeExcept<T>(a: set<T>, b: set<T>, x: T)
    requires a - {x} == b - {x}
    ensures |b| + (if x in a then 1 else 0) == |a| + if x in b then 1 else 0
  {
    assert |a - {x}| == |a| - if x in a then 1 else 0;
    assert |b - {x}| == |b| - if x in b then 1 else 0;
  }
}
