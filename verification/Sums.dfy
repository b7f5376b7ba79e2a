/** Sums of natural numbers. */
module Sums {
  function Sum(xs: seq<nat>): nat
  {
    if xs == [] then 0 else Sum(xs[..|xs| - 1]) + xs[|xs| - 1]
  }

  lemma {:induction false} SumChange(xs: seq<nat>, ys: seq<nat>, i: nat)
    requires i < |xs| == |ys| && forall j :: 0 <= j < |xs| && j != i ==> ys[j] == xs[j]
    ensures Sum(ys) - ys[i] == Sum(xs) - xs[i]
    decreases |xs|
  {
    var k := |xs| - 1;
    if i == k {
      assert xs[..k] == ys[..k];
    } else {
      SumChange(xs[..k], ys[..k], i);
    }
  }

  lemma {:induction false} SumGrows(xs: seq<nat>, ys: seq<nat>, d: nat)
    requires |xs| == |ys| && forall j :: 0 <= j < |xs| ==> ys[j] <= xs[j] + d
    ensures Sum(ys) <= Sum(xs) + |xs| * d
    decreases |xs|
  {
    if xs != [] {
      var k := |xs| - 1;
      SumGrows(xs[..k], ys[..k], d);
      assert |xs| * d == k * d + d;
    }
  }

  lemma {:induction false} SumBound(xs: seq<nat>, b: nat)
    requires forall j :: 0 <= j < |xs| ==> xs[j] <= b
    ensures Sum(xs) <= |xs| * b
    decreases |xs|
  {
    if xs != [] {
      var k := |xs| - 1;
      SumBound(xs[..k], b);
      assert |xs| * b == k * b + b;
    }
  }

  /** Of two pairs with second parts below `share`, the one with the smaller first part is smaller. */
  lemma LessPairs(a: nat, b: nat, share: nat, x: nat, y: nat)
    requires b < a && y < share
    ensures b * share + y < a * share + x
  {
    assert (b + 1) * share <= a * share;
  }
}
