/** In-order selections from a sequence, by their positions. */
module Selections {
  ghost predicate Increasing(at: seq<nat>) {
    forall j, k :: 0 <= j < k < |at| ==> at[j] < at[k]
  }

  lemma AtLeast(at: seq<nat>, k: nat)
    requires Increasing(at) && k < |at|
    ensures at[k] >= k
  {
    if k > 0 { AtLeast(at, k - 1); }
  }
}
