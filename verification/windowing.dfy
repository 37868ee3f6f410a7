/** The segment loop of `split_audio`: a sample sequence of length `n` is cut
    into windows `[start, min(start + w, n))` whose starts advance by the hop
    `w - o`, where `w` is the window size and `o` the overlap, both in samples. */
module Windowing {

  /** The slice `y[start:end]` of one segment. */
  datatype Window = Window(start: nat, end: nat)

  /** The loop stops: either there is nothing to cut, or the hop is positive. */
  predicate Terminates(n: nat, w: nat, o: nat)
  {
    n == 0 || o < w
  }

  /** Number of segments: the ceiling of `n / (w - o)`. */
  function SegmentCount(n: nat, w: nat, o: nat): nat
    requires Terminates(n, w, o)
  {
    if n == 0 then 0 else (n + (w - o) - 1) / (w - o)
  }

  /** Python's `min` on two integers. */
  function Min(a: int, b: int): int
  {
    if a < b then a else b
  }

  /** The windows the loop emits, in closed form: window `i` starts at
      `i * (w - o)` and stops at the window size or at the end of the samples. */
  function Windows(n: nat, w: nat, o: nat): (ws: seq<Window>)
    requires Terminates(n, w, o)
    ensures |ws| == SegmentCount(n, w, o)
  {
    var count := SegmentCount(n, w, o);
    var hop: nat := if o < w then w - o else 0;
    seq(count, i requires 0 <= i < count => Window(i * hop, Min(i * hop + w, n)))
  }

  /** Multiplying by a non-negative factor keeps the order. */
  lemma MulMonotone(a: int, b: int, h: nat)
    requires a <= b
    ensures a * h <= b * h
  {
    assert b * h - a * h == (b - a) * h;
  }

  /** A window index is below the segment count exactly when its start lies
      before the end of the samples: the count is the ceiling of `n / hop`. */
  lemma CountIsCeiling(n: nat, hop: nat, k: nat)
    requires n > 0 && hop > 0
    ensures k * hop < n <==> k < (n + hop - 1) / hop
  {
    var c := (n + hop - 1) / hop;
    var r := (n + hop - 1) % hop;
    assert n + hop - 1 == c * hop + r;
    assert c * hop >= n;
    assert (c - 1) * hop == c * hop - hop;
    if k < c {
      MulMonotone(k, c - 1, hop);
    } else {
      MulMonotone(c, k, hop);
    }
  }

  /** Window `i` starts `i` hops in and stops after `w` samples or at the end. */
  lemma WindowAt(n: nat, w: nat, o: nat, i: nat)
    requires Terminates(n, w, o) && i < SegmentCount(n, w, o)
    ensures o < w
    ensures Windows(n, w, o)[i] == Window(i * (w - o), Min(i * (w - o) + w, n))
  {
  }

  /** Every window starts before the end of the samples, ends no later, and
      holds `min(w, n - start)` samples. */
  lemma WindowsInBounds(n: nat, w: nat, o: nat, i: nat)
    requires Terminates(n, w, o) && i < SegmentCount(n, w, o)
    ensures Windows(n, w, o)[i].start < n
    ensures Windows(n, w, o)[i].start <= Windows(n, w, o)[i].end <= n
    ensures Windows(n, w, o)[i].end - Windows(n, w, o)[i].start == Min(w, n - Windows(n, w, o)[i].start)
  {
    WindowAt(n, w, o, i);
    CountIsCeiling(n, w - o, i);
  }

  /** With a window of at least one sample, no segment is empty and none is
      longer than the window. */
  lemma WindowLength(n: nat, w: nat, o: nat, i: nat)
    requires Terminates(n, w, o) && i < SegmentCount(n, w, o) && w >= 1
    ensures 1 <= Windows(n, w, o)[i].end - Windows(n, w, o)[i].start <= w
  {
    WindowsInBounds(n, w, o, i);
  }

  /** The first window starts at sample 0, and there is none for no samples. */
  lemma FirstWindow(n: nat, w: nat, o: nat)
    requires Terminates(n, w, o)
    ensures n == 0 <==> |Windows(n, w, o)| == 0
    ensures n > 0 ==> Windows(n, w, o)[0].start == 0
  {
    if n > 0 {
      CountIsCeiling(n, w - o, 0);
    }
  }

  /** Consecutive windows start exactly one hop apart. */
  lemma WindowStride(n: nat, w: nat, o: nat, i: nat)
    requires Terminates(n, w, o) && i + 1 < SegmentCount(n, w, o)
    ensures Windows(n, w, o)[i + 1].start - Windows(n, w, o)[i].start == w - o
  {
  }

  /** The loop stops at the first start past the samples: one more hop from
      the last window would start at or after `n`. */
  lemma NoWindowAfterLast(n: nat, w: nat, o: nat)
    requires n > 0 && o < w
    ensures SegmentCount(n, w, o) * (w - o) >= n
  {
    CountIsCeiling(n, w - o, SegmentCount(n, w, o));
  }

  /** With a non-negative overlap the last window ends at the last sample. */
  lemma LastWindowEndsAtEnd(n: nat, w: nat, o: nat)
    requires n > 0 && o < w
    ensures Windows(n, w, o)[SegmentCount(n, w, o) - 1].end == n
  {
    var c := SegmentCount(n, w, o);
    var hop := w - o;
    FirstWindow(n, w, o);
    NoWindowAfterLast(n, w, o);
    WindowAt(n, w, o, c - 1);
    assert (c - 1) * hop + hop == c * hop;
  }

  /** Every sample index lies in some window. */
  lemma WindowsCover(n: nat, w: nat, o: nat, x: nat)
    requires Terminates(n, w, o) && x < n
    ensures exists i :: 0 <= i < SegmentCount(n, w, o) && Windows(n, w, o)[i].start <= x < Windows(n, w, o)[i].end
  {
    var hop := w - o;
    var i := x / hop;
    assert x == i * hop + x % hop;
    assert i * hop <= x;
    CountIsCeiling(n, hop, i);
    WindowAt(n, w, o, i);
    assert Windows(n, w, o)[i].start <= x < Windows(n, w, o)[i].end;
  }

  /** One turn of the loop: a start `k` hops in that still lies before the
      end of the samples is the start of window `k`. */
  lemma LoopTurn(n: nat, w: nat, o: nat, k: nat)
    requires o < w && k * (w - o) < n
    ensures k < SegmentCount(n, w, o)
    ensures Windows(n, w, o)[k] == Window(k * (w - o), Min(k * (w - o) + w, n))
    ensures Windows(n, w, o)[k].start <= Windows(n, w, o)[k].end <= n
    ensures (k + 1) * (w - o) == k * (w - o) + (w - o)
  {
    CountIsCeiling(n, w - o, k);
    WindowsInBounds(n, w, o, k);
    WindowAt(n, w, o, k);
  }

  /** The loop leaves after exactly the segment count of turns. */
  lemma LoopExit(n: nat, w: nat, o: nat, k: nat)
    requires Terminates(n, w, o) && k <= SegmentCount(n, w, o) && k * (w - o) >= n
    ensures k == SegmentCount(n, w, o)
  {
    if n > 0 {
      CountIsCeiling(n, w - o, k);
    }
  }

  /** The loop of `split_audio` that slices the samples, as written. */
  method SplitAudio(y: seq<real>, w: nat, o: nat) returns (segments: seq<seq<real>>)
    requires Terminates(|y|, w, o)
    ensures |segments| == SegmentCount(|y|, w, o)
    ensures forall i :: 0 <= i < |segments| ==>
      && Windows(|y|, w, o)[i].start <= Windows(|y|, w, o)[i].end <= |y|
      && segments[i] == y[Windows(|y|, w, o)[i].start..Windows(|y|, w, o)[i].end]
  {
    var n := |y|;
    ghost var ws := Windows(n, w, o);
    ghost var count := SegmentCount(n, w, o);
    segments := [];
    var start: int := 0;
    while start < n
      invariant start == |segments| * (w - o)
      invariant |segments| <= count
      invariant forall i :: 0 <= i < |segments| ==>
        && ws[i].start <= ws[i].end <= n
        && segments[i] == y[ws[i].start..ws[i].end]
      decreases n - start
    {
      LoopTurn(n, w, o, |segments|);
      var end := Min(start + w, n);
      segments := segments + [y[start..end]];
      start := start + (w - o);
    }
    LoopExit(n, w, o, |segments|);
  }
}
