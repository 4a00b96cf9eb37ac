/** Sums of weights, one per thread. */
module Sums {

  function Sum(w: seq<nat>): nat {
    if w == [] then 0 else w[0] + Sum(w[1..])
  }

  lemma {:induction false} SumUpdate(w: seq<nat>, i: nat, x: nat)
    requires i < |w|
    ensures Sum(w[i := x]) == Sum(w) - w[i] + x
  {
    if i > 0 {
      assert w[i := x][1..] == w[1..][i - 1 := x];
      SumUpdate(w[1..], i - 1, x);
    }
  }

  lemma {:induction false} SumMonotone(v: seq<nat>, w: seq<nat>)
    requires |v| == |w| && forall i :: 0 <= i < |v| ==> v[i] <= w[i]
    ensures Sum(v) <= Sum(w)
  {
    if v != [] {
      SumMonotone(v[1..], w[1..]);
    }
  }

  lemma {:induction false} SumAtMostLength(w: seq<nat>)
    requires forall i :: 0 <= i < |w| ==> w[i] <= 1
    ensures Sum(w) <= |w|
  {
    if w != [] {
      SumAtMostLength(w[1..]);
    }
  }
}
