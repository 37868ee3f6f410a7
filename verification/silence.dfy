/** The silent ratio of a segment: the share of its samples whose magnitude
    lies strictly below a threshold. */
module Silence {
  import opened Reals
  import Windowing

  /** The threshold used when the caller gives none. */
  const DefaultThreshold: real := 0.01

  /** A sample counts as silent when its magnitude is strictly below `t`. */
  predicate IsSilent(x: real, t: real)
  {
    Abs(x) < t
  }

  /** Number of silent samples, counted front to back. */
  function CountSilent(s: seq<real>, t: real): (c: nat)
    ensures c <= |s|
  {
    if |s| == 0 then 0
    else (if IsSilent(s[0], t) then 1 else 0) + CountSilent(s[1..], t)
  }

  /** Positions of the silent samples. */
  ghost function SilentIndices(s: seq<real>, t: real): set<int>
  {
    set i | 0 <= i < |s| && IsSilent(s[i], t)
  }

  /** The silent positions of a sequence with one more sample. */
  lemma SilentIndicesSnoc(s: seq<real>, t: real)
    requires |s| > 0
    ensures SilentIndices(s, t) == SilentIndices(s[..|s| - 1], t) + (if IsSilent(s[|s| - 1], t) then {|s| - 1} else {})
  {
  }

  /** The count is the number of silent positions. */
  lemma {:induction false} CountSilentIsCardinality(s: seq<real>, t: real)
    ensures CountSilent(s, t) == |SilentIndices(s, t)|
  {
    if |s| > 0 {
      var n := |s| - 1;
      CountSilentIsCardinality(s[..n], t);
      assert s == s[..n] + [s[n]];
      CountSilentAppend(s[..n], [s[n]], t);
      SilentIndicesSnoc(s, t);
    }
  }

  /** All samples are silent exactly when the count is the length, and none
      is exactly when the count is zero. */
  lemma {:induction false} CountSilentExtremes(s: seq<real>, t: real)
    ensures CountSilent(s, t) == |s| <==> forall i :: 0 <= i < |s| ==> IsSilent(s[i], t)
    ensures CountSilent(s, t) == 0 <==> forall i :: 0 <= i < |s| ==> !IsSilent(s[i], t)
  {
    if |s| > 0 {
      CountSilentExtremes(s[1..], t);
      assert forall i :: 1 <= i < |s| ==> s[1..][i - 1] == s[i];
    }
  }

  /** Counting a concatenation adds the counts of its parts. */
  lemma {:induction false} CountSilentAppend(a: seq<real>, b: seq<real>, t: real)
    ensures CountSilent(a + b, t) == CountSilent(a, t) + CountSilent(b, t)
  {
    if |a| > 0 {
      assert (a + b)[1..] == a[1..] + b;
      CountSilentAppend(a[1..], b, t);
    } else {
      assert a + b == b;
    }
  }

  /** Raising the threshold never makes fewer samples silent. */
  lemma {:induction false} CountSilentMonotone(s: seq<real>, t1: real, t2: real)
    requires t1 <= t2
    ensures CountSilent(s, t1) <= CountSilent(s, t2)
  {
    if |s| > 0 {
      CountSilentMonotone(s[1..], t1, t2);
    }
  }

  /** A count out of a positive total lies in [0, 1], is one exactly for
      the full count and zero exactly for the empty one. */
  lemma FractionFacts(c: nat, n: nat)
    requires 0 < n && c <= n
    ensures 0.0 <= (c as real) / (n as real) <= 1.0
    ensures (c as real) / (n as real) == 1.0 <==> c == n
    ensures (c as real) / (n as real) == 0.0 <==> c == 0
  {
    var q := (c as real) / (n as real);
    assert q * (n as real) == c as real;
  }

  /** The ratio, or the division by zero an empty segment raises. */
  datatype Ratio = Ratio(value: real) | ZeroDivision

  /** `calculate_silent_ratio`: silent samples divided by all samples. */
  function SilentRatio(s: seq<real>, t: real): (r: Ratio)
    ensures r.ZeroDivision? <==> |s| == 0
    ensures r.Ratio? ==> 0.0 <= r.value <= 1.0
    ensures r.Ratio? ==> (r.value == 1.0 <==> CountSilent(s, t) == |s|)
    ensures r.Ratio? ==> (r.value == 0.0 <==> CountSilent(s, t) == 0)
  {
    if |s| == 0 then ZeroDivision
    else
      FractionFacts(CountSilent(s, t), |s|);
      Ratio((CountSilent(s, t) as real) / (|s| as real))
  }

  /** The ratio is one exactly when every sample is silent, and zero exactly
      when none is. */
  lemma SilentRatioExtremes(s: seq<real>, t: real)
    requires |s| > 0
    ensures SilentRatio(s, t).value == 1.0 <==> forall i :: 0 <= i < |s| ==> IsSilent(s[i], t)
    ensures SilentRatio(s, t).value == 0.0 <==> forall i :: 0 <= i < |s| ==> !IsSilent(s[i], t)
  {
    CountSilentExtremes(s, t);
  }

  /** A larger numerator over the same positive denominator gives a larger quotient. */
  lemma QuotientMonotone(a: real, b: real, n: real)
    requires n > 0.0 && a <= b
    ensures a / n <= b / n
  {
    assert b / n - a / n == (b - a) / n;
  }

  /** Raising the threshold never lowers the ratio. */
  lemma SilentRatioMonotone(s: seq<real>, t1: real, t2: real)
    requires |s| > 0 && t1 <= t2
    ensures SilentRatio(s, t1).value <= SilentRatio(s, t2).value
  {
    CountSilentMonotone(s, t1, t2);
    QuotientMonotone(CountSilent(s, t1) as real, CountSilent(s, t2) as real, |s| as real);
  }

  /** With a threshold of zero or below no sample is silent. */
  lemma NonPositiveThresholdNoSilence(s: seq<real>, t: real)
    requires |s| > 0 && t <= 0.0
    ensures SilentRatio(s, t) == Ratio(0.0)
  {
    forall i | 0 <= i < |s|
      ensures !IsSilent(s[i], t)
    {
    }
    SilentRatioExtremes(s, t);
  }

  /** Every segment cut with a window of at least one sample has a ratio:
      the division by zero cannot happen downstream of the segment loop. */
  lemma SegmentRatioDefined(y: seq<real>, w: nat, o: nat, i: nat, t: real)
    requires Windowing.Terminates(|y|, w, o) && w >= 1
    requires i < Windowing.SegmentCount(|y|, w, o)
    ensures var win := Windowing.Windows(|y|, w, o)[i];
      win.start <= win.end <= |y| && SilentRatio(y[win.start..win.end], t).Ratio?
  {
    Windowing.WindowsInBounds(|y|, w, o, i);
    Windowing.WindowLength(|y|, w, o, i);
  }

  /** One loud sample among three quiet ones gives a ratio of three quarters. */
  lemma ExampleRatio()
    ensures SilentRatio([0.0, 0.005, -0.001, 0.5], DefaultThreshold) == Ratio(0.75)
  {
    var s := [0.0, 0.005, -0.001, 0.5];
    assert CountSilent(s[3..], DefaultThreshold) == 0;
    assert CountSilent(s, DefaultThreshold) == 3;
  }
}
