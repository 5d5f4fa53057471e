/**
 * A throwing task group over `n` child tasks is modelled by the order in
 * which the children complete: `order` lists every child index once.
 */
module TaskGroups {

  /** `order` is a completion order of `n` child tasks: each index below `n` appears, and nothing else. */
  predicate IsCompletionOrder(order: seq<nat>, n: nat) {
    |order| == n &&
    (forall k :: 0 <= k < |order| ==> order[k] < n) &&
    (forall i :: 0 <= i < n ==> i in order)
  }
}
