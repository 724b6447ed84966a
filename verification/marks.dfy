/** A row of toggled elements (slides, dots, filter buttons) in which the page marks a
    single one: the `active` class added to one element after it was removed from all. */
module Marks {

  /** Exactly the element at `i` is marked (none when `i` is out of range). */
  predicate OnlyAt(s: seq<bool>, i: int) {
    forall k :: 0 <= k < |s| ==> (s[k] <==> k == i)
  }

  function Mark(n: nat, i: int): (r: seq<bool>)
    ensures |r| == n && OnlyAt(r, i)
  {
    seq(n, k => k == i)
  }
}
