/** What holds throughout a run, step by step. */
module Chains {

  lemma {:induction false} ChainHolds<T>(trace: seq<T>, p: T -> bool, good: nat -> bool, k: nat)
    requires k < |trace| && p(trace[0])
    requires forall i: nat :: i + 1 < |trace| && p(trace[i]) ==> (p(trace[i + 1]) <==> good(i))
    requires forall i: nat :: i + 1 < |trace| ==> good(i)
    ensures p(trace[k])
  {
    if k > 0 {
      ChainHolds(trace, p, good, k - 1);
      assert good(k - 1);
    }
  }

  /** What each step keeps exactly when it is good holds throughout exactly when each step is good. */
  lemma ChainHoldsIff<T>(trace: seq<T>, p: T -> bool, good: nat -> bool)
    requires trace != [] && p(trace[0])
    requires forall i: nat :: i + 1 < |trace| && p(trace[i]) ==> (p(trace[i + 1]) <==> good(i))
    ensures (forall k :: 0 <= k < |trace| ==> p(trace[k])) <==> forall i: nat :: i + 1 < |trace| ==> good(i)
  {
    if forall i: nat :: i + 1 < |trace| ==> good(i) {
      forall k | 0 <= k < |trace| ensures p(trace[k]) {
        ChainHolds(trace, p, good, k);
      }
    } else {
      var i: nat :| i + 1 < |trace| && !good(i);
      assert p(trace[i]) ==> !p(trace[i + 1]);
    }
  }
}
