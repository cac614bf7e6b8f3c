/** Shared vocabulary: optional values, and finite sums over a table. */
module Util {

  datatype Option<+T> = None | Some(value: T)

  function Sum(xs: seq<int>): int {
    if |xs| == 0 then 0 else Sum(xs[..|xs| - 1]) + xs[|xs| - 1]
  }

  lemma {:induction false} SumUpdate(xs: seq<int>, i: nat, v: int)
    requires i < |xs|
    ensures Sum(xs[i := v]) == Sum(xs) - xs[i] + v
  {
    var n := |xs| - 1;
    var ys := xs[i := v];
    if i == n {
      assert ys[..n] == xs[..n];
    } else {
      assert ys[..n] == xs[..n][i := v];
      SumUpdate(xs[..n], i, v);
    }
  }

  lemma {:induction false} SumMonotone(xs: seq<int>, ys: seq<int>)
    requires |xs| == |ys|
    requires forall i :: 0 <= i < |xs| ==> xs[i] <= ys[i]
    ensures Sum(xs) <= Sum(ys)
  {
    if |xs| != 0 {
      SumMonotone(xs[..|xs| - 1], ys[..|ys| - 1]);
    }
  }

  /** One term dropping by one makes the whole sum drop by at least one. */
  lemma SumStrict(xs: seq<int>, ys: seq<int>, k: nat)
    requires |xs| == |ys| && k < |xs|
    requires forall i :: 0 <= i < |xs| ==> xs[i] <= ys[i]
    requires xs[k] + 1 <= ys[k]
    ensures Sum(xs) + 1 <= Sum(ys)
  {
    var zs := ys[k := ys[k] - 1];
    SumUpdate(ys, k, ys[k] - 1);
    SumMonotone(xs, zs);
  }

  lemma {:induction false} SumConstant(xs: seq<int>, c: int)
    requires forall i :: 0 <= i < |xs| ==> xs[i] == c
    ensures Sum(xs) == |xs| * c
  {
    if |xs| != 0 {
      SumConstant(xs[..|xs| - 1], c);
    }
  }
}
