/**
 * Arithmetic progressions `start, start + step, start + 2*step, ...`: every
 * `x = start; while x < end: ...; x += step` loop in the pipeline walks one.
 * Time is exact here (`real`), so the k-th point is exactly `start + k*step`.
 */
module Grid {

  function Ceil(x: real): int {
    -((-x).Floor)
  }

  lemma CeilBounds(x: real)
    ensures x <= Ceil(x) as real < x + 1.0
  {
  }

  /** The k-th point of the progression. */
  function Point(start: real, step: real, k: nat): real {
    start + k as real * step
  }

  lemma ScaleStrict(a: real, b: real, step: real)
    requires step > 0.0
    ensures a * step < b * step <==> a < b
  {
    if a < b {
      assert (b - a) * step > 0.0;
    } else {
      assert (a - b) * step >= 0.0;
    }
  }

  /** How many points of the progression lie strictly below `end` (a `while x < end` loop). */
  function CountBelow(start: real, end: real, step: real): (n: nat)
    requires step > 0.0
  {
    if start < end then
      var y := (end - start) / step;
      assert y > 0.0;
      CeilBounds(y);
      Ceil(y)
    else 0
  }

  lemma CountBelowSpec(start: real, end: real, step: real, k: nat)
    requires step > 0.0
    ensures k < CountBelow(start, end, step) <==> Point(start, step, k) < end
  {
    if start < end {
      var y := (end - start) / step;
      assert y * step == end - start;
      CeilBounds(y);
      ScaleStrict(k as real, y, step);
    } else {
      assert k as real * step >= 0.0;
    }
  }

  /** How many points of the progression lie at or below `end` (a `while x <= end` loop). */
  function CountUpTo(start: real, end: real, step: real): (n: nat)
    requires step > 0.0
  {
    if start <= end then
      var y := (end - start) / step;
      assert y >= 0.0;
      y.Floor + 1
    else 0
  }

  lemma CountUpToSpec(start: real, end: real, step: real, k: nat)
    requires step > 0.0
    ensures k < CountUpTo(start, end, step) <==> Point(start, step, k) <= end
  {
    if start <= end {
      var y := (end - start) / step;
      assert y * step == end - start;
      assert k < y.Floor + 1 <==> k as real <= y;
      ScaleStrict(y, k as real, step);
      assert k as real <= y <==> k as real * step <= end - start;
    } else {
      assert k as real * step >= 0.0;
    }
  }

  /** The points of the progression strictly below `end`. */
  function PointsBelow(start: real, end: real, step: real): (r: seq<real>)
    requires step > 0.0
    ensures |r| == CountBelow(start, end, step)
    ensures forall k :: 0 <= k < |r| ==> r[k] == Point(start, step, k)
  {
    seq(CountBelow(start, end, step), k requires 0 <= k => Point(start, step, k))
  }

  /** The points of the progression at or below `end`. */
  function PointsUpTo(start: real, end: real, step: real): (r: seq<real>)
    requires step > 0.0
    ensures |r| == CountUpTo(start, end, step)
    ensures forall k :: 0 <= k < |r| ==> r[k] == Point(start, step, k)
  {
    seq(CountUpTo(start, end, step), k requires 0 <= k => Point(start, step, k))
  }

  /** Every point listed lies in `[start, end)`, and the first point past them does not. */
  lemma PointsBelowRange(start: real, end: real, step: real)
    requires step > 0.0
    ensures forall k :: 0 <= k < |PointsBelow(start, end, step)| ==>
              start <= PointsBelow(start, end, step)[k] < end
    ensures Point(start, step, |PointsBelow(start, end, step)|) >= end
  {
    var r := PointsBelow(start, end, step);
    forall k | 0 <= k < |r|
      ensures start <= r[k] < end
    {
      CountBelowSpec(start, end, step, k);
      assert k as real * step >= 0.0;
    }
    CountBelowSpec(start, end, step, |r|);
  }

  /** Consecutive points lie one step apart. */
  lemma PointStride(start: real, step: real, k: nat)
    ensures Point(start, step, k + 1) - Point(start, step, k) == step
  {
    assert (k + 1) as real * step == k as real * step + step;
  }

  /** The points of the progression increase strictly. */
  lemma PointsIncrease(start: real, step: real, i: nat, j: nat)
    requires step > 0.0 && i < j
    ensures Point(start, step, i) < Point(start, step, j)
  {
    ScaleStrict(i as real, j as real, step);
  }
}
