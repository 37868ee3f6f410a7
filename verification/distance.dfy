/** The cross-sequence distance of `euclidean_distance`: the smallest distance
    between any value of one channel and any value of the other. Channels are
    sequences of scalars, so the per-pair Euclidean norm sqrt((a - b)^2) is |a - b|. */
module SequenceDistance {
  import opened Reals
  import opened SearchErrors

  /** Euclidean distance between two scalar samples. */
  function PointDistance(a: real, b: real): real
  {
    Abs(a - b)
  }

  /** A pair distance is non-negative, zero exactly on equal samples, and
      independent of the order of the pair. */
  lemma PointDistanceFacts(a: real, b: real)
    ensures PointDistance(a, b) >= 0.0
    ensures PointDistance(a, b) == 0.0 <==> a == b
    ensures PointDistance(a, b) == PointDistance(b, a)
  {
  }

  /** `d` is a lower bound of every pair distance across `A` x `B` and is
      the distance of some pair: the minimum of the distance matrix. */
  ghost predicate IsMinPairDistance(A: seq<real>, B: seq<real>, d: real)
  {
    && (forall i, j {:trigger PointDistance(A[i], B[j])} ::
          0 <= i < |A| && 0 <= j < |B| ==> d <= PointDistance(A[i], B[j]))
    && (exists i, j {:trigger PointDistance(A[i], B[j])} ::
          0 <= i < |A| && 0 <= j < |B| && d == PointDistance(A[i], B[j]))
  }

  /** Some value of `A` also occurs in `B`. */
  predicate SharesValue(A: seq<real>, B: seq<real>)
  {
    exists i, j :: 0 <= i < |A| && 0 <= j < |B| && A[i] == B[j]
  }

  /** Smallest distance from `a` to a value of `B`: one row of the distance
      matrix, reduced. */
  function RowMin(a: real, B: seq<real>): real
    requires |B| > 0
  {
    if |B| == 1 then PointDistance(a, B[0])
    else
      var rest := RowMin(a, B[1..]);
      if PointDistance(a, B[0]) <= rest then PointDistance(a, B[0]) else rest
  }

  /** Smallest pair distance over the whole cross product `A` x `B`. */
  function CrossMin(A: seq<real>, B: seq<real>): real
    requires |A| > 0 && |B| > 0
  {
    if |A| == 1 then RowMin(A[0], B)
    else
      var rest := CrossMin(A[1..], B);
      if RowMin(A[0], B) <= rest then RowMin(A[0], B) else rest
  }

  /** The distance `euclidean_distance` computes, with the failure numpy raises when either
      channel is empty and its distance matrix has no minimum. */
  function Distance(A: seq<real>, B: seq<real>): (r: Result<real>)
    ensures r.Ok? <==> |A| > 0 && |B| > 0
    ensures r.Err? ==> r.error == EmptySequence
  {
    if |A| == 0 || |B| == 0 then Err(EmptySequence) else Ok(CrossMin(A, B))
  }

  /** `RowMin` is the minimum of its row. */
  lemma {:induction false} RowMinIsMinimum(a: real, B: seq<real>)
    requires |B| > 0
    ensures forall j :: 0 <= j < |B| ==> RowMin(a, B) <= PointDistance(a, B[j])
    ensures exists j :: 0 <= j < |B| && RowMin(a, B) == PointDistance(a, B[j])
  {
    if |B| > 1 {
      RowMinIsMinimum(a, B[1..]);
      var j :| 0 <= j < |B[1..]| && RowMin(a, B[1..]) == PointDistance(a, B[1..][j]);
      assert B[1..][j] == B[j + 1];
      forall q | 1 <= q < |B|
        ensures RowMin(a, B) <= PointDistance(a, B[q])
      {
        assert B[q] == B[1..][q - 1];
      }
    }
  }

  /** `CrossMin` is the minimum of the distance matrix. */
  lemma {:induction false} CrossMinIsMinimum(A: seq<real>, B: seq<real>)
    requires |A| > 0 && |B| > 0
    ensures IsMinPairDistance(A, B, CrossMin(A, B))
  {
    RowMinIsMinimum(A[0], B);
    var j0 :| 0 <= j0 < |B| && RowMin(A[0], B) == PointDistance(A[0], B[j0]);
    if |A| == 1 {
      assert CrossMin(A, B) == PointDistance(A[0], B[j0]);
    } else {
      var rest := CrossMin(A[1..], B);
      CrossMinIsMinimum(A[1..], B);
      var i1, j1 :| 0 <= i1 < |A[1..]| && 0 <= j1 < |B| && rest == PointDistance(A[1..][i1], B[j1]);
      assert A[1..][i1] == A[i1 + 1];
      forall i, j | 0 <= i < |A| && 0 <= j < |B|
        ensures CrossMin(A, B) <= PointDistance(A[i], B[j])
      {
        if i > 0 {
          assert A[i] == A[1..][i - 1];
          assert rest <= PointDistance(A[1..][i - 1], B[j]);
        }
      }
      if RowMin(A[0], B) <= rest {
        assert CrossMin(A, B) == PointDistance(A[0], B[j0]);
      } else {
        assert CrossMin(A, B) == PointDistance(A[i1 + 1], B[j1]);
      }
    }
  }

  /** The minimum of a distance matrix is unique. */
  lemma MinPairDistanceUnique(A: seq<real>, B: seq<real>, d1: real, d2: real)
    requires IsMinPairDistance(A, B, d1) && IsMinPairDistance(A, B, d2)
    ensures d1 == d2
  {
    var i1, j1 :| 0 <= i1 < |A| && 0 <= j1 < |B| && d1 == PointDistance(A[i1], B[j1]);
    var i2, j2 :| 0 <= i2 < |A| && 0 <= j2 < |B| && d2 == PointDistance(A[i2], B[j2]);
    assert d1 <= d2 && d2 <= d1;
  }

  /** On non-empty channels the distance is the minimum pair distance, and so
      it is non-negative. */
  lemma DistanceIsMinimum(A: seq<real>, B: seq<real>)
    requires |A| > 0 && |B| > 0
    ensures IsMinPairDistance(A, B, Distance(A, B).value)
    ensures Distance(A, B).value >= 0.0
  {
    CrossMinIsMinimum(A, B);
    var i, j :| 0 <= i < |A| && 0 <= j < |B| && CrossMin(A, B) == PointDistance(A[i], B[j]);
    PointDistanceFacts(A[i], B[j]);
  }

  /** The minimum of the distance matrix is also the minimum of its transpose. */
  lemma MinPairDistanceTranspose(A: seq<real>, B: seq<real>, d: real)
    requires IsMinPairDistance(A, B, d)
    ensures IsMinPairDistance(B, A, d)
  {
    forall p, q | 0 <= p < |B| && 0 <= q < |A|
      ensures d <= PointDistance(B[p], A[q])
    {
      assert d <= PointDistance(A[q], B[p]);
      PointDistanceFacts(A[q], B[p]);
    }
    var i, j :| 0 <= i < |A| && 0 <= j < |B| && d == PointDistance(A[i], B[j]);
    PointDistanceFacts(A[i], B[j]);
    assert d == PointDistance(B[j], A[i]);
  }

  /** Swapping the two channels does not change the distance, and an empty
      argument fails whichever side it is on. */
  lemma DistanceSymmetric(A: seq<real>, B: seq<real>)
    ensures Distance(A, B) == Distance(B, A)
  {
    if |A| > 0 && |B| > 0 {
      DistanceIsMinimum(A, B);
      DistanceIsMinimum(B, A);
      var d := CrossMin(A, B);
      MinPairDistanceTranspose(A, B, d);
      MinPairDistanceUnique(B, A, d, CrossMin(B, A));
    }
  }

  /** A non-empty channel is at distance zero from itself. */
  lemma DistanceToSelf(A: seq<real>)
    requires |A| > 0
    ensures Distance(A, A) == Ok(0.0)
  {
    DistanceIsMinimum(A, A);
    assert CrossMin(A, A) <= PointDistance(A[0], A[0]);
  }

  /** Two channels are at distance zero exactly when they share a value:
      the closest moment of the two recordings matches exactly. */
  lemma DistanceZeroIff(A: seq<real>, B: seq<real>)
    requires |A| > 0 && |B| > 0
    ensures Distance(A, B) == Ok(0.0) <==> SharesValue(A, B)
  {
    DistanceIsMinimum(A, B);
    if SharesValue(A, B) {
      var i, j :| 0 <= i < |A| && 0 <= j < |B| && A[i] == B[j];
      assert CrossMin(A, B) <= PointDistance(A[i], B[j]);
    }
    if Distance(A, B) == Ok(0.0) {
      var i, j :| 0 <= i < |A| && 0 <= j < |B| && 0.0 == PointDistance(A[i], B[j]);
      PointDistanceFacts(A[i], B[j]);
    }
  }

  /** The nested loops of `euclidean_distance`, folding the distance matrix into its
      minimum as it is filled. */
  method EuclideanDistance(A: seq<real>, B: seq<real>) returns (r: Result<real>)
    ensures r.Ok? <==> |A| > 0 && |B| > 0
    ensures r.Err? ==> r.error == EmptySequence
    ensures r.Ok? ==> IsMinPairDistance(A, B, r.value)
    ensures r == Distance(A, B)
  {
    if |A| == 0 || |B| == 0 {
      return Err(EmptySequence);
    }
    var best := PointDistance(A[0], B[0]);
    ghost var bi, bj := 0, 0;
    var i := 0;
    while i < |A|
      invariant 0 <= i <= |A|
      invariant 0 <= bi < |A| && 0 <= bj < |B| && best == PointDistance(A[bi], B[bj])
      invariant forall p, q :: 0 <= p < i && 0 <= q < |B| ==> best <= PointDistance(A[p], B[q])
    {
      var j := 0;
      while j < |B|
        invariant 0 <= j <= |B|
        invariant 0 <= bi < |A| && 0 <= bj < |B| && best == PointDistance(A[bi], B[bj])
        invariant forall p, q :: 0 <= p < i && 0 <= q < |B| ==> best <= PointDistance(A[p], B[q])
        invariant forall q :: 0 <= q < j ==> best <= PointDistance(A[i], B[q])
      {
        var d := PointDistance(A[i], B[j]);
        if d < best {
          best := d;
          bi, bj := i, j;
        }
        j := j + 1;
      }
      i := i + 1;
    }
    DistanceIsMinimum(A, B);
    MinPairDistanceUnique(A, B, best, CrossMin(A, B));
    r := Ok(best);
  }

  /** Channels of different lengths compare by their closest pair:
      [0, 10] against [10] is at distance 0. */
  lemma MismatchedLengthsExample()
    ensures Distance([0.0, 10.0], [10.0]) == Ok(0.0)
  {
    var A, B := [0.0, 10.0], [10.0];
    assert A[1] == B[0];
    DistanceZeroIff(A, B);
  }

  /** An empty channel on either side fails rather than yielding zero. */
  lemma EmptyChannelFails(A: seq<real>)
    ensures Distance([], A) == Err(EmptySequence)
    ensures Distance(A, []) == Err(EmptySequence)
  {
  }
}
