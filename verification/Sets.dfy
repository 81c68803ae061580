/** Finite sets of numbers and their sizes. */
module Sets {

  /** The `n` numbers from `low`. */
  function Range(low: nat, n: nat): (r: set<nat>)
    ensures forall i: nat :: i in r <==> low <= i < low + n
    ensures |r| == n
  {
    if n == 0 then {} else Range(low, n - 1) + {low + n - 1}
  }

  lemma {:induction false} SubsetSize(a: set<nat>, b: set<nat>)
    requires a <= b
    ensures |a| <= |b|
    decreases a
  {
    if i :| i in a {
      SubsetSize(a - {i}, b - {i});
    }
  }

  lemma SubsetFull(a: set<nat>, b: set<nat>)
    requires a <= b && |a| >= |b|
    ensures a == b
  {
    if i :| i in b && i !in a {
      assert a <= b - {i};
      SubsetSize(a, b - {i});
      assert false;
    }
  }
}
