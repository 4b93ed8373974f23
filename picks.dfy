/** The archive loops skip some items and write the rest in order; the
    written items are described by the ascending indices a test keeps. */
module Picking {
  /** The indices below `n` that `keep` accepts, ascending. */
  function Picks(n: nat, keep: nat -> bool): (p: seq<nat>)
    ensures |p| <= n
    ensures forall k :: 0 <= k < |p| ==> p[k] < n && keep(p[k])
    ensures forall k, l :: 0 <= k < l < |p| ==> p[k] < p[l]
  {
    if n == 0 then [] else Picks(n - 1, keep) + (if keep(n - 1) then [n - 1] else [])
  }

  /** Every accepted index is picked. */
  lemma {:induction false} PicksComplete(n: nat, keep: nat -> bool, i: nat)
    requires i < n && keep(i)
    ensures i in Picks(n, keep)
  {
    if i < n - 1 {
      PicksComplete(n - 1, keep, i);
    }
  }
}
