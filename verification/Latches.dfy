/** A flag that some steps set and others clear. */
module Latches {

  /** Step i sets the flag and no later step clears it. */
  predicate SetSince(up: seq<bool>, down: seq<bool>, i: nat)
    requires |up| == |down|
  {
    i < |up| && up[i] && forall k :: i < k < |down| ==> !down[k]
  }

  /** A flag that starts out clear is set in the end exactly if some step set it and no later one
      cleared it. */
  lemma {:induction false} SetIff(flag: seq<bool>, up: seq<bool>, down: seq<bool>)
    requires |flag| == |up| + 1 == |down| + 1 && !flag[0]
    requires forall i :: 0 <= i < |up| ==> (flag[i + 1] <==> up[i] || (flag[i] && !down[i]))
    ensures flag[|up|] <==> exists i :: SetSince(up, down, i)
    decreases |up|
  {
    if up != [] {
      var n := |up| - 1;
      SetIff(flag[..n + 1], up[..n], down[..n]);
      if i: nat :| SetSince(up[..n], down[..n], i) {
        assert !down[n] ==> SetSince(up, down, i);
      }
      if i: nat :| SetSince(up, down, i) && i < n {
        assert SetSince(up[..n], down[..n], i);
      }
      if up[n] {
        assert SetSince(up, down, n);
      }
    }
  }
}
