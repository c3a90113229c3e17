/** A fact that some steps of a run establish and others end, followed over the whole run. */
module Histories {

  /** holds[k] says whether the fact holds before step k; gives and drops what step k does to it. */
  ghost predicate Follows(holds: seq<bool>, gives: seq<bool>, drops: seq<bool>) {
    && |holds| == |gives| + 1 == |drops| + 1 && !holds[0]
    && forall k | 0 <= k < |gives| :: holds[k + 1] <==> gives[k] || (holds[k] && !drops[k])
  }

  /** Step i gave it, and no later step before n dropped it. */
  ghost predicate StandsSince(gives: seq<bool>, drops: seq<bool>, i: nat, n: nat) {
    i < n <= |gives| == |drops| && gives[i] && forall j | i < j < n :: !drops[j]
  }

  lemma {:induction false} HoldsIfStanding(holds: seq<bool>, gives: seq<bool>, drops: seq<bool>, n: nat)
    requires Follows(holds, gives, drops) && n <= |gives|
    ensures holds[n] <==> exists i: nat :: StandsSince(gives, drops, i, n)
  {
    if n > 0 {
      var m := n - 1;
      HoldsIfStanding(holds, gives, drops, m);
      if i: nat :| StandsSince(gives, drops, i, m) {
        assert !drops[m] ==> StandsSince(gives, drops, i, n);
      }
      if i: nat :| StandsSince(gives, drops, i, n) {
        assert i < m ==> StandsSince(gives, drops, i, m);
      }
      assert gives[m] ==> StandsSince(gives, drops, m, n);
    }
  }
}
