/** Cardinality facts, and the least number outside a set. */
module FiniteSets {
  lemma SubsetSize<T>(a: set<T>, b: set<T>)
    requires a <= b
    ensures |a| <= |b|
  {
    assert b == a + (b - a);
  }

  lemma SupersetSize<T>(a: set<T>, x: T, b: set<T>)
    requires a + {x} <= b && x !in a
    ensures |a| + 1 <= |b|
  {
    SubsetSize(a + {x}, b);
  }

  // FindAndSet on a bitmap: the least clear bit, limit if there is none.
  function LeastFree(marked: set<int>, from: nat, limit: nat): (f: nat)
    requires from <= limit
    ensures from <= f <= limit
    ensures f < limit ==> f !in marked
    ensures forall j :: from <= j < f ==> j in marked
    decreases limit - from
  {
    if from == limit || from !in marked then from else LeastFree(marked, from + 1, limit)
  }
}
