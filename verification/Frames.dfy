/** The physical frame bitmap: how many frames are free, and how one update moves
    that number. */
module Frames {

  function CountFree(bits: seq<bool>): nat {
    if bits == [] then 0 else CountFree(bits[..|bits| - 1]) + if bits[|bits| - 1] then 0 else 1
  }

  lemma {:induction false} CountFreeUpdate(bits: seq<bool>, f: nat, used: bool)
    requires f < |bits|
    ensures CountFree(bits[f := used]) ==
      CountFree(bits) + (if bits[f] && !used then 1 else 0) - (if !bits[f] && used then 1 else 0)
  {
    var n := |bits| - 1;
    if f == n {
      assert bits[f := used][..n] == bits[..n];
    } else {
      assert bits[f := used][..n] == bits[..n][f := used];
      CountFreeUpdate(bits[..n], f, used);
    }
  }

  /** No frame is free exactly when the count is zero. */
  lemma {:induction false} CountFreeZero(bits: seq<bool>)
    ensures CountFree(bits) == 0 <==> forall f :: 0 <= f < |bits| ==> bits[f]
  {
    if bits != [] {
      var n := |bits| - 1;
      CountFreeZero(bits[..n]);
      assert forall f :: 0 <= f < n ==> bits[..n][f] == bits[f];
    }
  }
}
