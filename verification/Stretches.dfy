/** Properties kept step by step along a run. */
module Stretches {

  /** A property that holds at the start, and is kept by step k exactly when Good(k), holds after n steps
      exactly when all of them are good. */
  lemma {:induction false} KeptAlong(holds: nat -> bool, good: nat -> bool, n: nat)
    requires holds(0) && forall k: nat :: k < n ==> (holds(k + 1) <==> holds(k) && good(k))
    ensures holds(n) <==> forall k: nat :: k < n ==> good(k)
  {
    if n > 0 {
      KeptAlong(holds, good, n - 1);
      assert holds(n - 1 + 1) <==> holds(n - 1) && good(n - 1);
    }
  }
}
