/** Real-number helpers shared by the feature-distance and the segment models:
    absolute value, and the sum and arithmetic mean of a sequence of reals
    (the mathematical counterparts of numpy's `abs`, `sum` and `mean`). */
module Reals {

  /** Absolute value of a real. */
  function Abs(x: real): (r: real)
    ensures r >= 0.0
    ensures r == x || r == -x
  {
    if x < 0.0 then -x else x
  }

  /** Sum of a sequence of reals, folded from the front. */
  function Sum(xs: seq<real>): real
  {
    if |xs| == 0 then 0.0 else xs[0] + Sum(xs[1..])
  }

  /** Arithmetic mean of a non-empty sequence of reals. */
  function Mean(xs: seq<real>): real
    requires |xs| > 0
  {
    Sum(xs) / (|xs| as real)
  }

  /** A sum of values that are all at least `lo` is at least `lo` times the count. */
  lemma {:induction false} SumAtLeast(xs: seq<real>, lo: real)
    requires forall i :: 0 <= i < |xs| ==> lo <= xs[i]
    ensures lo * (|xs| as real) <= Sum(xs)
  {
    if |xs| > 0 {
      SumAtLeast(xs[1..], lo);
      assert lo * (|xs| as real) == lo + lo * ((|xs| - 1) as real);
    }
  }

  /** A sum of values that are all at most `hi` is at most `hi` times the count. */
  lemma {:induction false} SumAtMost(xs: seq<real>, hi: real)
    requires forall i :: 0 <= i < |xs| ==> xs[i] <= hi
    ensures Sum(xs) <= hi * (|xs| as real)
  {
    if |xs| > 0 {
      SumAtMost(xs[1..], hi);
      assert hi * (|xs| as real) == hi + hi * ((|xs| - 1) as real);
    }
  }

  /** A non-empty sum of values all strictly above `lo` is strictly above `lo` times the count. */
  lemma {:induction false} SumAbove(xs: seq<real>, lo: real)
    requires |xs| > 0
    requires forall i :: 0 <= i < |xs| ==> lo < xs[i]
    ensures lo * (|xs| as real) < Sum(xs)
  {
    if |xs| == 1 {
      assert Sum(xs) == xs[0] + Sum(xs[1..]);
    } else {
      SumAbove(xs[1..], lo);
      assert lo * (|xs| as real) == lo + lo * ((|xs| - 1) as real);
    }
  }

  /** A non-empty sum of values all strictly below `hi` is strictly below `hi` times the count. */
  lemma {:induction false} SumBelow(xs: seq<real>, hi: real)
    requires |xs| > 0
    requires forall i :: 0 <= i < |xs| ==> xs[i] < hi
    ensures Sum(xs) < hi * (|xs| as real)
  {
    if |xs| == 1 {
      assert Sum(xs) == xs[0] + Sum(xs[1..]);
    } else {
      SumBelow(xs[1..], hi);
      assert hi * (|xs| as real) == hi + hi * ((|xs| - 1) as real);
    }
  }

  /** The mean of non-negative values is non-negative. */
  lemma MeanNonNegative(xs: seq<real>)
    requires |xs| > 0
    requires forall i :: 0 <= i < |xs| ==> 0.0 <= xs[i]
    ensures 0.0 <= Mean(xs)
  {
    SumAtLeast(xs, 0.0);
  }

  /** The mean lies within any bounds that hold for every element. */
  lemma MeanWithin(xs: seq<real>, lo: real, hi: real)
    requires |xs| > 0
    requires forall i :: 0 <= i < |xs| ==> lo <= xs[i] <= hi
    ensures lo <= Mean(xs) <= hi
  {
    SumAtLeast(xs, lo);
    SumAtMost(xs, hi);
  }

  /** The mean is attained from both sides: some element is at most the mean
      and some element is at least it (min <= mean <= max). */
  lemma MeanBetweenElements(xs: seq<real>)
    requires |xs| > 0
    ensures exists i :: 0 <= i < |xs| && xs[i] <= Mean(xs)
    ensures exists j :: 0 <= j < |xs| && Mean(xs) <= xs[j]
  {
    var m := Mean(xs);
    if forall i :: 0 <= i < |xs| ==> m < xs[i] {
      SumAbove(xs, m);
      assert false;
    }
    if forall j :: 0 <= j < |xs| ==> xs[j] < m {
      SumBelow(xs, m);
      assert false;
    }
  }

  /** The mean of non-negative values is zero exactly when every value is zero. */
  lemma MeanZeroIff(xs: seq<real>)
    requires |xs| > 0
    requires forall i :: 0 <= i < |xs| ==> 0.0 <= xs[i]
    ensures Mean(xs) == 0.0 <==> forall i :: 0 <= i < |xs| ==> xs[i] == 0.0
  {
    if forall i :: 0 <= i < |xs| ==> xs[i] == 0.0 {
      MeanWithin(xs, 0.0, 0.0);
    } else {
      var k :| 0 <= k < |xs| && xs[k] != 0.0;
      SumSplitAt(xs, k);
      SumAtLeast(xs[..k], 0.0);
      SumAtLeast(xs[k + 1..], 0.0);
    }
  }

  /** Splitting a sum around one element. */
  lemma {:induction false} SumSplitAt(xs: seq<real>, k: nat)
    requires k < |xs|
    ensures Sum(xs) == Sum(xs[..k]) + xs[k] + Sum(xs[k + 1..])
  {
    if k > 0 {
      SumSplitAt(xs[1..], k - 1);
      assert xs[1..][..k - 1] == xs[1..k];
      assert xs[1..][k - 1 + 1..] == xs[k + 1..];
      assert xs[..k][1..] == xs[1..k];
    } else {
      assert xs[1..] == xs[k + 1..];
    }
  }
}
