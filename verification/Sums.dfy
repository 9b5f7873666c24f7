/** Sums of sequences of numbers. */
module Sums {

  function Sum(xs: seq<int>): int {
    if xs == [] then 0 else Sum(xs[..|xs| - 1]) + xs[|xs| - 1]
  }

  lemma SumStep(xs: seq<int>, k: nat)
    requires k < |xs|
    ensures Sum(xs[..k + 1]) == Sum(xs[..k]) + xs[k]
  {
    assert xs[..k + 1][..k] == xs[..k];
  }

  lemma {:induction false} SumUpdate(xs: seq<int>, i: nat, x: int)
    requires i < |xs|
    ensures Sum(xs[i := x]) == Sum(xs) - xs[i] + x
  {
    var n := |xs| - 1;
    if i < n {
      SumUpdate(xs[..n], i, x);
      assert xs[i := x][..n] == xs[..n][i := x];
    } else {
      assert xs[i := x][..n] == xs[..n];
    }
  }

  /** Pointwise bounds add up. */
  lemma {:induction false} SumMono(xs: seq<int>, ys: seq<int>)
    requires |xs| == |ys| && forall i :: 0 <= i < |xs| ==> xs[i] <= ys[i]
    ensures Sum(xs) <= Sum(ys)
  {
    if xs != [] {
      SumMono(xs[..|xs| - 1], ys[..|ys| - 1]);
    }
  }

  lemma {:induction false} SumOfNothing(xs: seq<int>)
    requires forall i :: 0 <= i < |xs| ==> xs[i] <= 0
    ensures Sum(xs) <= 0
  {
    if xs != [] {
      SumOfNothing(xs[..|xs| - 1]);
    }
  }

  lemma {:induction false} SumOfNats(xs: seq<nat>)
    ensures Sum(xs) >= 0
  {
    if xs != [] {
      SumOfNats(xs[..|xs| - 1]);
    }
  }

  /** Sums of longer prefixes are no smaller. */
  lemma {:induction false} PrefixSums(ps: seq<nat>, j: nat, k: nat)
    requires j <= k <= |ps|
    ensures 0 <= Sum(ps[..j]) <= Sum(ps[..k])
    decreases k
  {
    SumOfNats(ps[..j]);
    if j < k {
      PrefixSums(ps, j, k - 1);
      SumStep(ps, k - 1);
    }
  }

  /** No term of a sum of naturals exceeds the sum of its first terms, and those not the whole sum. */
  lemma PartOfSum(xs: seq<nat>, i: nat)
    requires i < |xs|
    ensures xs[i] <= Sum(xs[..i + 1]) <= Sum(xs)
  {
    hide Sum;
    SumStep(xs, i);
    PrefixSums(xs, i, i);
    PrefixSums(xs, i + 1, |xs|);
    assert xs[..|xs|] == xs;
  }

  lemma {:induction false} OnesSum(n: nat)
    ensures Sum(seq(n, _ => 1)) == n
  {
    if n > 0 {
      OnesSum(n - 1);
      assert seq(n, _ => 1)[..n - 1] == seq(n - 1, _ => 1);
    }
  }

  /** Counts that never exceed the lengths add up to as much only if none falls short. */
  lemma {:induction false} SumCompare(xs: seq<nat>, ys: seq<nat>)
    requires |xs| == |ys| && forall i :: 0 <= i < |xs| ==> xs[i] <= ys[i]
    ensures Sum(xs) <= Sum(ys)
    ensures Sum(xs) == Sum(ys) <==> xs == ys
  {
    if xs != [] {
      var n := |xs| - 1;
      SumCompare(xs[..n], ys[..n]);
      assert xs == xs[..n] + [xs[n]] && ys == ys[..n] + [ys[n]];
    }
  }
}
