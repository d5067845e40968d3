/**
 * Stage 1 (src/video2markdown/stage1_analyze.py): where the picture is
 * stable and where it changes. A coarse scan one sample per second finds
 * change points; each is refined by a 100 ms scan around it into an unstable
 * interval; the unstable intervals are merged and their complement, less its
 * short pieces, is the list of stable intervals.
 *
 * A frame read is `decode(frameIndex)`, `None` when the read fails; the mean
 * absolute difference of two frames is `diff`.
 */
module Stage1Analyze {
  import opened Wrappers
  import opened Seqs
  import opened Grid
  import opened Media
  import opened Models

  const RoughThreshold: real := 15.0
  const MinChangeGap: real := 1.0
  const StabilityThreshold: real := 8.0
  const MinStableDuration: real := 1.0
  const SearchWindow: real := 2.0
  const SampleStep: real := 0.1

  function Max(a: real, b: real): real {
    if a >= b then a else b
  }

  function Min(a: real, b: real): real {
    if a <= b then a else b
  }

  // =====================================================================
  // Coarse scan: `_detect_rough_changes`

  lemma MulMono(a: int, b: int, c: nat)
    requires a <= b
    ensures a * c <= b * c
  {
    assert (b - a) * c >= 0;
  }

  /** The length of Python's `range(0, total, step)` for a positive step. */
  function RangeCount(total: int, step: nat): nat
    requires step > 0
  {
    if total <= 0 then 0 else (total + step - 1) / step
  }

  lemma RangeCountSpec(total: int, step: nat, k: nat)
    requires step > 0
    ensures k < RangeCount(total, step) <==> k * step < total
  {
    if total > 0 {
      var c := RangeCount(total, step);
      assert c * step <= total + step - 1 < (c + 1) * step;
      if k < c {
        MulMono(k, c - 1, step);
      } else {
        MulMono(c, k, step);
      }
    } else {
      assert k * step >= 0;
    }
  }

  /** The time of the k-th coarse sample. */
  function SampleTime(k: nat, step: nat, fps: real): real
    requires fps > 0.0
  {
    (k * step) as real / fps
  }

  /**
   * The changes the coarse scan records from sample `k` on, given the
   * previous sample's frame and the time of the last recorded change.
   */
  function Scan(decode: int -> Option<Frame>, diff: (Frame, Frame) -> real, fps: real, step: nat, n: nat,
                k: nat, prev: Option<Frame>, prevTs: real): seq<real>
    requires fps > 0.0
    decreases n - k
  {
    if k >= n then []
    else match decode(k * step)
      case None => []
      case Some(f) =>
        var ts := SampleTime(k, step, fps);
        var hit := prev.Some? && diff(prev.value, f) > RoughThreshold && ts - prevTs >= MinChangeGap;
        (if hit then [ts] else []) + Scan(decode, diff, fps, step, n, k + 1, Some(f), if hit then ts else prevTs)
  }

  /** One step of the scan, unfolded. */
  lemma ScanStep(decode: int -> Option<Frame>, diff: (Frame, Frame) -> real, fps: real, step: nat, n: nat,
                 k: nat, prev: Option<Frame>, prevTs: real, idx: int)
    requires fps > 0.0 && k < n && idx == k * step
    ensures decode(idx).None? ==> Scan(decode, diff, fps, step, n, k, prev, prevTs) == []
    ensures decode(idx).Some? ==>
              var ts := idx as real / fps;
              var hit := prev.Some? && diff(prev.value, decode(idx).value) > RoughThreshold && ts - prevTs >= MinChangeGap;
              Scan(decode, diff, fps, step, n, k, prev, prevTs)
                == (if hit then [ts] else []) + Scan(decode, diff, fps, step, n, k + 1, decode(idx), if hit then ts else prevTs)
  {
  }

  /** The loop of `_detect_rough_changes` after one more readable sample: what is recorded plus what is still to come is unchanged. */
  lemma ScanAdvance(decode: int -> Option<Frame>, diff: (Frame, Frame) -> real, fps: real, step: nat, n: nat,
                    k: nat, prev: Option<Frame>, prevTs: real, idx: int, changes: seq<real>, whole: seq<real>)
    requires fps > 0.0 && k < n && idx == k * step && decode(idx).Some?
    requires changes + Scan(decode, diff, fps, step, n, k, prev, prevTs) == whole
    ensures var ts := idx as real / fps;
            var hit := prev.Some? && diff(prev.value, decode(idx).value) > RoughThreshold && ts - prevTs >= MinChangeGap;
            (changes + if hit then [ts] else []) + Scan(decode, diff, fps, step, n, k + 1, decode(idx), if hit then ts else prevTs)
              == whole
  {
    ScanStep(decode, diff, fps, step, n, k, prev, prevTs, idx);
  }

  lemma NextMultiple(k: nat, step: nat)
    ensures k * step + step == (k + 1) * step
  {
  }

  /**
   * `_detect_rough_changes`: frames `0, step, 2*step, ...` below `totalFrames`
   * with `step = int(fps)`. A zero step makes Python's `range` raise.
   */
  method RoughChanges(decode: int -> Option<Frame>, diff: (Frame, Frame) -> real, fps: real, totalFrames: int)
    returns (r: Result<seq<real>>)
    requires fps >= 0.0
    ensures fps.Floor == 0 <==> r.Failure?
    ensures r.Success? ==> (fps >= 1.0 &&
              r.value == Scan(decode, diff, fps, fps.Floor, RangeCount(totalFrames, fps.Floor), 0, None, 0.0))
  {
    var step := fps.Floor;
    if step == 0 {
      return Failure("range() arg 3 must not be zero");
    }
    assert fps >= 1.0;
    var n := RangeCount(totalFrames, step);
    ghost var whole := Scan(decode, diff, fps, step, n, 0, None, 0.0);
    var changes: seq<real> := [];
    var prev: Option<Frame> := None;
    var prevTs := 0.0;
    var frameIdx := 0;
    ghost var k: nat := 0;
    while frameIdx < totalFrames
      invariant k <= n && frameIdx == k * step
      invariant changes + Scan(decode, diff, fps, step, n, k, prev, prevTs) == whole
      decreases n - k
    {
      RangeCountSpec(totalFrames, step, k);
      var frame := decode(frameIdx);
      if frame.None? {
        ScanStep(decode, diff, fps, step, n, k, prev, prevTs, frameIdx);
        break;
      }
      ScanAdvance(decode, diff, fps, step, n, k, prev, prevTs, frameIdx, changes, whole);
      var ts := frameIdx as real / fps;
      var hit := prev.Some? && diff(prev.value, frame.value) > 15.0 && ts - prevTs >= 1.0;
      changes := changes + (if hit then [ts] else []);
      prevTs := if hit then ts else prevTs;
      prev := frame;
      NextMultiple(k, step);
      frameIdx := frameIdx + step;
      k := k + 1;
    }
    RangeCountSpec(totalFrames, step, k);
    return Success(changes);
  }

  /** Consecutive values at least a second apart, the first at least a second after `from`. */
  predicate Spaced(s: seq<real>, from: real) {
    (s != [] ==> s[0] - from >= MinChangeGap) &&
    forall i :: 0 <= i < |s| - 1 ==> s[i + 1] - s[i] >= MinChangeGap
  }

  /** A value far enough after `from` in front of a list spaced from that value. */
  lemma SpacedCons(x: real, rest: seq<real>, from: real)
    requires x - from >= MinChangeGap && Spaced(rest, x)
    ensures Spaced([x] + rest, from)
  {
    var s := [x] + rest;
    forall i | 0 <= i < |s| - 1
      ensures s[i + 1] - s[i] >= MinChangeGap
    {
      if i > 0 {
        assert s[i] == rest[i - 1] && s[i + 1] == rest[i];
      }
    }
  }

  lemma {:induction false} ScanSpaced(decode: int -> Option<Frame>, diff: (Frame, Frame) -> real, fps: real, step: nat, n: nat,
                                      k: nat, prev: Option<Frame>, prevTs: real)
    requires fps > 0.0
    ensures Spaced(Scan(decode, diff, fps, step, n, k, prev, prevTs), prevTs)
    decreases n - k
  {
    if k < n && decode(k * step).Some? {
      var f := decode(k * step).value;
      var ts := SampleTime(k, step, fps);
      var hit := prev.Some? && diff(prev.value, f) > RoughThreshold && ts - prevTs >= MinChangeGap;
      var next := if hit then ts else prevTs;
      ScanSpaced(decode, diff, fps, step, n, k + 1, Some(f), next);
      var rest := Scan(decode, diff, fps, step, n, k + 1, Some(f), next);
      assert Scan(decode, diff, fps, step, n, k, prev, prevTs) == (if hit then [ts] else []) + rest;
      if hit {
        SpacedCons(ts, rest, prevTs);
      } else {
        assert [] + rest == rest;
      }
    }
  }

  /** The first value is at least 1 and every later one at least 1 more than any before it. */
  predicate AtLeastSecondApart(r: seq<real>) {
    (r != [] ==> r[0] >= 1.0) &&
    forall i, j :: 0 <= i < j < |r| ==> r[j] - r[i] >= 1.0
  }

  /** The coarse changes increase, at least one second apart, and the first is at 1 s or later. */
  lemma RoughChangesSpaced(decode: int -> Option<Frame>, diff: (Frame, Frame) -> real, fps: real, totalFrames: int)
    requires fps >= 1.0
    ensures AtLeastSecondApart(Scan(decode, diff, fps, fps.Floor, RangeCount(totalFrames, fps.Floor), 0, None, 0.0))
  {
    var step := fps.Floor;
    var n := RangeCount(totalFrames, step);
    ScanSpaced(decode, diff, fps, step, n, 0, None, 0.0);
    var r := Scan(decode, diff, fps, step, n, 0, None, 0.0);
    forall i, j | 0 <= i < j < |r|
      ensures r[j] - r[i] >= 1.0
    {
      SpacedApart(r, 0.0, i, j);
    }
  }

  lemma SpacedApart(s: seq<real>, from: real, i: nat, j: nat)
    requires Spaced(s, from) && i < j < |s|
    ensures s[j] - s[i] >= (j - i) as real * MinChangeGap
    decreases j - i
  {
    if j > i + 1 {
      SpacedApart(s, from, i, j - 1);
    }
  }

  /** The frame the scan compares sample `j` against. */
  function PrevFrame(decode: int -> Option<Frame>, step: nat, k: nat, prev: Option<Frame>, j: nat): Option<Frame>
    requires j >= k
  {
    if j == k then prev else decode((j - 1) * step)
  }

  /** Sample `j` is a recorded change's witness: it and all samples before it were read, and it differs by more than 15. */
  predicate ChangeAt(decode: int -> Option<Frame>, diff: (Frame, Frame) -> real, fps: real, step: nat,
                     k: nat, prev: Option<Frame>, j: nat, t: real)
    requires fps > 0.0 && j >= k
  {
    t == SampleTime(j, step, fps) &&
    (forall i :: k <= i <= j ==> decode(i * step).Some?) &&
    PrevFrame(decode, step, k, prev, j).Some? &&
    diff(PrevFrame(decode, step, k, prev, j).value, decode(j * step).value) > RoughThreshold
  }

  lemma {:induction false} ScanWitness(decode: int -> Option<Frame>, diff: (Frame, Frame) -> real, fps: real, step: nat, n: nat,
                                       k: nat, prev: Option<Frame>, prevTs: real, t: real)
    requires fps > 0.0 && t in Scan(decode, diff, fps, step, n, k, prev, prevTs)
    ensures exists j :: k <= j < n && ChangeAt(decode, diff, fps, step, k, prev, j, t)
    decreases n - k
  {
    var f := decode(k * step).value;
    var ts := SampleTime(k, step, fps);
    var hit := prev.Some? && diff(prev.value, f) > RoughThreshold && ts - prevTs >= MinChangeGap;
    var next := if hit then ts else prevTs;
    var rest := Scan(decode, diff, fps, step, n, k + 1, Some(f), next);
    if hit && t == ts {
      assert ChangeAt(decode, diff, fps, step, k, prev, k, t);
    } else {
      assert t in rest;
      ScanWitness(decode, diff, fps, step, n, k + 1, Some(f), next, t);
      var j :| k + 1 <= j < n && ChangeAt(decode, diff, fps, step, k + 1, Some(f), j, t);
      assert PrevFrame(decode, step, k, prev, j) == PrevFrame(decode, step, k + 1, Some(f), j);
      assert ChangeAt(decode, diff, fps, step, k, prev, j, t);
    }
  }

  /**
   * Every coarse change is the time of a sample `j >= 1` whose frame differs by
   * more than 15 from sample `j - 1`, and every sample up to `j` was readable:
   * the scan stops at the first unreadable frame.
   */
  lemma RoughChangeWitness(decode: int -> Option<Frame>, diff: (Frame, Frame) -> real, fps: real, totalFrames: int, t: real)
    requires fps >= 1.0
    requires t in Scan(decode, diff, fps, fps.Floor, RangeCount(totalFrames, fps.Floor), 0, None, 0.0)
    ensures exists j :: 1 <= j && j * fps.Floor < totalFrames && t == SampleTime(j, fps.Floor, fps) &&
              (forall i :: 0 <= i <= j ==> decode(i * fps.Floor).Some?) &&
              diff(decode((j - 1) * fps.Floor).value, decode(j * fps.Floor).value) > 15.0
  {
    var step := fps.Floor;
    ScanWitness(decode, diff, fps, step, RangeCount(totalFrames, step), 0, None, 0.0, t);
    var j :| 0 <= j < RangeCount(totalFrames, step) && ChangeAt(decode, diff, fps, step, 0, None, j, t);
    RangeCountSpec(totalFrames, step, j);
  }

  // =====================================================================
  // Boundary refinement: `_precise_change_boundary`

  /** Frame differences of a sample with its neighbours; the first and last sample score infinity. */
  datatype Score = Infinite | Finite(value: real)

  datatype Sample = Sample(ts: real, frame: Frame)

  datatype Scored = Scored(ts: real, score: Score)

  predicate Unstable(s: Scored, threshold: real) {
    s.score.Infinite? || s.score.value > threshold
  }

  /** `_read_frame_at`: the frame at `int(ts * fps)`. */
  function ReadAt(decode: int -> Option<Frame>, fps: real, ts: real): Option<Frame> {
    decode(Trunc(ts * fps))
  }

  /** The sample taken at `t`, if the frame there is readable. */
  function SampleAt(decode: int -> Option<Frame>, fps: real, t: real): (r: seq<Sample>)
    ensures |r| <= 1 && forall i :: 0 <= i < |r| ==> r[i].ts == t
  {
    match ReadAt(decode, fps, t)
    case Some(f) => [Sample(t, f)]
    case None => []
  }

  /** The readable samples among the given times, in order. */
  function Readable(decode: int -> Option<Frame>, fps: real, times: seq<real>): (r: seq<Sample>)
    ensures |r| <= |times|
    ensures forall i :: 0 <= i < |r| ==> r[i].ts in times
  {
    if times == [] then []
    else Readable(decode, fps, times[..|times| - 1]) + SampleAt(decode, fps, times[|times| - 1])
  }

  function SearchStart(rough: real): real {
    Max(0.0, rough - SearchWindow)
  }

  function SearchEnd(rough: real): real {
    rough + SearchWindow
  }

  /** The readable 100 ms samples of the search window. */
  function WindowSamples(decode: int -> Option<Frame>, fps: real, rough: real): seq<Sample> {
    Readable(decode, fps, PointsUpTo(SearchStart(rough), SearchEnd(rough), SampleStep))
  }

  /** The boundary search's answer: only the first and last readable sample matter. */
  function Boundary(decode: int -> Option<Frame>, fps: real, rough: real): Interval {
    var samples := WindowSamples(decode, fps, rough);
    if |samples| < 3 then Interval(rough - 0.5, rough + 0.5)
    else Interval(Max(SearchStart(rough), samples[0].ts - 0.2), Min(SearchEnd(rough), samples[|samples| - 1].ts + 0.2))
  }

  function ScoredTs(s: Scored): real {
    s.ts
  }

  /** `min(ts for ts, _ in points)` */
  function MinTs(s: seq<Scored>): (r: real)
    requires s != []
    ensures r in Map(s, ScoredTs)
    ensures forall i :: 0 <= i < |s| ==> r <= s[i].ts
  {
    if |s| == 1 then s[0].ts else
      var m := MinTs(s[1..]);
      assert Map(s[1..], ScoredTs) == Map(s, ScoredTs)[1..];
      if s[0].ts <= m then s[0].ts else m
  }

  /** `max(ts for ts, _ in points)` */
  function MaxTs(s: seq<Scored>): (r: real)
    requires s != []
    ensures r in Map(s, ScoredTs)
    ensures forall i :: 0 <= i < |s| ==> s[i].ts <= r
  {
    if |s| == 1 then s[0].ts else
      var m := MaxTs(s[1..]);
      assert Map(s[1..], ScoredTs) == Map(s, ScoredTs)[1..];
      if s[0].ts >= m then s[0].ts else m
  }

  /** The 100 ms sampling loop `ts = search_start; while ts <= search_end: ...; ts += 0.1`. */
  method SampleWindow(decode: int -> Option<Frame>, fps: real, rough: real) returns (samples: seq<Sample>)
    ensures samples == WindowSamples(decode, fps, rough)
  {
    var searchStart := SearchStart(rough);
    var searchEnd := SearchEnd(rough);
    ghost var points := PointsUpTo(searchStart, searchEnd, SampleStep);
    samples := [];
    var ts := searchStart;
    ghost var k: nat := 0;
    while ts <= searchEnd
      invariant k <= |points| && ts == Point(searchStart, SampleStep, k)
      invariant samples == Readable(decode, fps, points[..k])
      decreases |points| - k
    {
      CountUpToSpec(searchStart, searchEnd, SampleStep, k);
      assert points[..k + 1][..k] == points[..k];
      var frame := ReadAt(decode, fps, ts);
      if frame.Some? {
        samples := samples + [Sample(ts, frame.value)];
      }
      ts := ts + 0.1;
      k := k + 1;
    }
    CountUpToSpec(searchStart, searchEnd, SampleStep, k);
    assert points[..k] == points;
  }

  predicate Increasing(times: seq<real>) {
    forall i, j :: 0 <= i < j < |times| ==> times[i] < times[j]
  }

  predicate SamplesIncreasing(s: seq<Sample>) {
    forall i, j :: 0 <= i < j < |s| ==> s[i].ts < s[j].ts
  }

  predicate SamplesWithin(s: seq<Sample>, lo: real, hi: real) {
    forall i :: 0 <= i < |s| ==> lo <= s[i].ts <= hi
  }

  /** Sample times are increasing when the times tried are. */
  lemma {:induction false} ReadableOrdered(decode: int -> Option<Frame>, fps: real, times: seq<real>)
    requires Increasing(times)
    ensures SamplesIncreasing(Readable(decode, fps, times))
  {
    if times != [] {
      var init := times[..|times| - 1];
      var last := times[|times| - 1];
      ReadableOrdered(decode, fps, init);
      var a := Readable(decode, fps, init);
      var b := SampleAt(decode, fps, last);
      var r := a + b;
      forall i, j | 0 <= i < j < |r|
        ensures r[i].ts < r[j].ts
      {
        if j >= |a| {
          assert j == |a| && i < |a|;
          assert r[i] == a[i];
          var m :| 0 <= m < |init| && init[m] == a[i].ts;
          assert times[m] == init[m];
        } else {
          assert r[i] == a[i] && r[j] == a[j];
        }
      }
    }
  }

  lemma PointsUpToOrdered(start: real, end: real, step: real)
    requires step > 0.0
    ensures Increasing(PointsUpTo(start, end, step))
    ensures forall i :: 0 <= i < |PointsUpTo(start, end, step)| ==> start <= PointsUpTo(start, end, step)[i] <= end
  {
    var p := PointsUpTo(start, end, step);
    forall i, j | 0 <= i < j < |p|
      ensures p[i] < p[j]
    {
      PointsIncrease(start, step, i, j);
    }
    forall i | 0 <= i < |p|
      ensures start <= p[i] <= end
    {
      CountUpToSpec(start, end, step, i);
      assert i as real * step >= 0.0;
    }
  }

  /** The window's samples increase in time and lie in the search window. */
  lemma WindowSamplesShape(decode: int -> Option<Frame>, fps: real, rough: real)
    ensures SamplesWithin(WindowSamples(decode, fps, rough), SearchStart(rough), SearchEnd(rough))
    ensures SamplesIncreasing(WindowSamples(decode, fps, rough))
  {
    var points := PointsUpTo(SearchStart(rough), SearchEnd(rough), SampleStep);
    PointsUpToOrdered(SearchStart(rough), SearchEnd(rough), SampleStep);
    ReadableOrdered(decode, fps, points);
    var s := Readable(decode, fps, points);
    forall i | 0 <= i < |s|
      ensures SearchStart(rough) <= s[i].ts <= SearchEnd(rough)
    {
      var m :| 0 <= m < |points| && points[m] == s[i].ts;
    }
  }

  /** The score of sample `i`: infinity at both ends, the mean of the differences to both neighbours elsewhere. */
  function ScoreAt(diff: (Frame, Frame) -> real, samples: seq<Sample>, i: nat): Scored
    requires i < |samples|
  {
    if i == 0 || i == |samples| - 1 then Scored(samples[i].ts, Infinite)
    else Scored(samples[i].ts, Finite((diff(samples[i - 1].frame, samples[i].frame) + diff(samples[i].frame, samples[i + 1].frame)) / 2.0))
  }

  /**
   * Scores of `samples`: infinity at both ends, the mean of the differences
   * to both neighbours elsewhere.
   */
  method ScoreSamples(diff: (Frame, Frame) -> real, samples: seq<Sample>) returns (stability: seq<Scored>)
    ensures |stability| == |samples|
    ensures forall i :: 0 <= i < |samples| ==> stability[i].ts == samples[i].ts
    ensures forall i :: 0 <= i < |samples| && (i == 0 || i == |samples| - 1) ==> stability[i].score == Infinite
    ensures forall i :: 0 < i < |samples| - 1 ==>
              stability[i].score == Finite((diff(samples[i - 1].frame, samples[i].frame) + diff(samples[i].frame, samples[i + 1].frame)) / 2.0)
  {
    stability := [];
    var i := 0;
    while i < |samples|
      invariant 0 <= i <= |samples| && |stability| == i
      invariant forall j :: 0 <= j < i ==> stability[j] == ScoreAt(diff, samples, j)
    {
      var s := samples[i];
      if i == 0 || i == |samples| - 1 {
        stability := stability + [Scored(s.ts, Infinite)];
      } else {
        var diffPrev := diff(samples[i - 1].frame, s.frame);
        var diffNext := diff(s.frame, samples[i + 1].frame);
        stability := stability + [Scored(s.ts, Finite((diffPrev + diffNext) / 2.0))];
      }
      assert stability[i] == ScoreAt(diff, samples, i);
      i := i + 1;
    }
    forall k | 0 < k < |samples| - 1
      ensures stability[k].score == Finite((diff(samples[k - 1].frame, samples[k].frame) + diff(samples[k].frame, samples[k + 1].frame)) / 2.0)
    {
      assert stability[k] == ScoreAt(diff, samples, k);
    }
  }

  /**
   * `_precise_change_boundary` with a search window of 2 s. The unstable
   * points always include both end samples, so the "no unstable point"
   * fallback of the source cannot be reached once there are three samples.
   */
  method PreciseBoundary(decode: int -> Option<Frame>, diff: (Frame, Frame) -> real, fps: real, rough: real, threshold: real)
    returns (iv: Interval)
    ensures iv == Boundary(decode, fps, rough)
  {
    var searchStart := SearchStart(rough);
    var searchEnd := SearchEnd(rough);
    var samples := SampleWindow(decode, fps, rough);
    if |samples| < 3 {
      return Interval(rough - 0.5, rough + 0.5);
    }
    WindowSamplesShape(decode, fps, rough);
    var stability := ScoreSamples(diff, samples);
    var p := (s: Scored) => Unstable(s, threshold);
    var unstablePoints := Filter(stability, p);
    forall i | 0 <= i < |stability|
      ensures stability[0].ts <= stability[i].ts <= stability[|stability| - 1].ts
    {
      assert samples[0].ts <= samples[i].ts <= samples[|samples| - 1].ts;
    }
    UnstableSpan(stability, threshold);
    if unstablePoints == [] {
      assert false;
      iv := Interval(rough - 0.3, rough + 0.3);
    } else {
      var lo := MinTs(unstablePoints);
      var hi := MaxTs(unstablePoints);
      iv := Interval(Max(searchStart, lo - 0.2), Min(searchEnd, hi + 0.2));
    }
  }

  /**
   * With both end points unstable and every time between theirs, the
   * unstable points span exactly from the first time to the last.
   */
  lemma UnstableSpan(stability: seq<Scored>, threshold: real)
    requires stability != [] && stability[0].score.Infinite? && stability[|stability| - 1].score.Infinite?
    requires forall i :: 0 <= i < |stability| ==> stability[0].ts <= stability[i].ts <= stability[|stability| - 1].ts
    ensures Filter(stability, (s: Scored) => Unstable(s, threshold)) != []
    ensures MinTs(Filter(stability, (s: Scored) => Unstable(s, threshold))) == stability[0].ts
    ensures MaxTs(Filter(stability, (s: Scored) => Unstable(s, threshold))) == stability[|stability| - 1].ts
  {
    var p := (s: Scored) => Unstable(s, threshold);
    var u := Filter(stability, p);
    FilterComplete(stability, p);
    assert stability[0] in u;
    assert stability[|stability| - 1] in u;
    forall i | 0 <= i < |u|
      ensures stability[0].ts <= u[i].ts <= stability[|stability| - 1].ts
    {
      assert u[i] in stability;
      var j :| 0 <= j < |stability| && stability[j] == u[i];
    }
    var lo := MinTs(u);
    var hi := MaxTs(u);
    var a :| 0 <= a < |u| && u[a] == stability[0];
    var b :| 0 <= b < |u| && u[b] == stability[|stability| - 1];
    assert lo == stability[0].ts by {
      var k :| 0 <= k < |u| && Map(u, ScoredTs)[k] == lo;
    }
    assert hi == stability[|stability| - 1].ts by {
      var k :| 0 <= k < |u| && Map(u, ScoredTs)[k] == hi;
    }
  }

  /** The refined interval is non-empty and, with three samples or more, inside the search window. */
  lemma BoundaryInWindow(decode: int -> Option<Frame>, fps: real, rough: real)
    ensures Boundary(decode, fps, rough).start < Boundary(decode, fps, rough).end
    ensures |WindowSamples(decode, fps, rough)| >= 3 ==>
              SearchStart(rough) <= Boundary(decode, fps, rough).start &&
              Boundary(decode, fps, rough).end <= SearchEnd(rough)
  {
    WindowSamplesShape(decode, fps, rough);
  }

  // =====================================================================
  // Interval algebra: `_build_intervals`

  predicate In(iv: Interval, x: real) {
    iv.start <= x <= iv.end
  }

  /** `x` lies in one of the closed intervals. */
  predicate Covered(ivs: seq<Interval>, x: real) {
    exists i :: 0 <= i < |ivs| && In(ivs[i], x)
  }

  predicate WellFormed(ivs: seq<Interval>) {
    forall i :: 0 <= i < |ivs| ==> ivs[i].start <= ivs[i].end
  }

  function IntervalStart(iv: Interval): real {
    iv.start
  }

  predicate StartsSorted(ivs: seq<Interval>) {
    forall i, j :: 0 <= i < j < |ivs| ==> ivs[i].start <= ivs[j].start
  }

  /** Each interval ends strictly before the next one starts. */
  predicate Separated(ivs: seq<Interval>) {
    forall i :: 0 <= i < |ivs| - 1 ==> ivs[i].end < ivs[i + 1].start
  }

  /** No interval of `a` shares an interior point with an interval of `b`. */
  predicate Disjoint(a: seq<Interval>, b: seq<Interval>) {
    forall i, j :: 0 <= i < |a| && 0 <= j < |b| ==> a[i].end <= b[j].start || b[j].end <= a[i].start
  }

  /** Each interval ends no later than the next one starts. */
  predicate Ascending(ivs: seq<Interval>) {
    forall i, j :: 0 <= i < j < |ivs| ==> ivs[i].end <= ivs[j].start
  }

  lemma CoveredSnoc(ivs: seq<Interval>, iv: Interval, x: real)
    ensures Covered(ivs + [iv], x) <==> Covered(ivs, x) || In(iv, x)
  {
    if Covered(ivs, x) {
      var i :| 0 <= i < |ivs| && In(ivs[i], x);
      assert (ivs + [iv])[i] == ivs[i];
    }
    if In(iv, x) {
      assert (ivs + [iv])[|ivs|] == iv;
    }
  }

  lemma CoveredPermutation(a: seq<Interval>, b: seq<Interval>, x: real)
    requires multiset(a) == multiset(b)
    ensures Covered(a, x) <==> Covered(b, x)
  {
    if Covered(a, x) {
      var i :| 0 <= i < |a| && In(a[i], x);
      assert a[i] in multiset(b);
      var j :| 0 <= j < |b| && b[j] == a[i];
    }
    if Covered(b, x) {
      var i :| 0 <= i < |b| && In(b[i], x);
      assert b[i] in multiset(a);
      var j :| 0 <= j < |a| && a[j] == b[i];
    }
  }

  /** Extending the last interval to cover `iv`, which starts inside it, adds exactly `iv`'s points. */
  lemma CoveredExtendLast(ivs: seq<Interval>, iv: Interval, x: real)
    requires ivs != [] && ivs[|ivs| - 1].start <= iv.start <= ivs[|ivs| - 1].end
    ensures var last := ivs[|ivs| - 1];
            Covered(ivs[..|ivs| - 1] + [Interval(last.start, Max(last.end, iv.end))], x) <==> Covered(ivs, x) || In(iv, x)
  {
    var init := ivs[..|ivs| - 1];
    var last := ivs[|ivs| - 1];
    assert ivs == init + [last];
    CoveredSnoc(init, last, x);
    CoveredSnoc(init, Interval(last.start, Max(last.end, iv.end)), x);
  }

  /** One step of the merge loop: `iv` extends the last interval when it starts inside it, else it is appended. */
  function Absorb(merged: seq<Interval>, iv: Interval): seq<Interval>
    requires merged != []
  {
    var last := merged[|merged| - 1];
    if iv.start <= last.end then merged[..|merged| - 1] + [Interval(last.start, Max(last.end, iv.end))]
    else merged + [iv]
  }

  ghost predicate SameCover(a: seq<Interval>, b: seq<Interval>) {
    forall x :: Covered(a, x) <==> Covered(b, x)
  }

  /** Every start in `merged` is the start of an interval of `src`. */
  predicate StartsFrom(merged: seq<Interval>, src: seq<Interval>) {
    forall a :: 0 <= a < |merged| ==> merged[a].start in Map(src, IntervalStart)
  }

  /** What the merge loop keeps after consuming `sorted[..i]`. */
  ghost predicate MergeInv(sorted: seq<Interval>, i: int, merged: seq<Interval>) {
    1 <= i <= |sorted| && merged != [] && merged[0].start == sorted[0].start &&
    StartsSorted(merged) && Separated(merged) &&
    SameCover(merged, sorted[..i]) &&
    (WellFormed(sorted) ==> WellFormed(merged)) &&
    (forall k :: i <= k < |sorted| ==> merged[|merged| - 1].start <= sorted[k].start) &&
    StartsFrom(merged, sorted[..i])
  }

  lemma AbsorbCover(merged: seq<Interval>, prefix: seq<Interval>, iv: Interval)
    requires merged != [] && merged[|merged| - 1].start <= iv.start && SameCover(merged, prefix)
    ensures SameCover(Absorb(merged, iv), prefix + [iv])
  {
    forall x
      ensures Covered(Absorb(merged, iv), x) <==> Covered(prefix + [iv], x)
    {
      CoveredSnoc(prefix, iv, x);
      if iv.start <= merged[|merged| - 1].end {
        CoveredExtendLast(merged, iv, x);
      } else {
        CoveredSnoc(merged, iv, x);
      }
    }
  }

  lemma AbsorbStarts(merged: seq<Interval>, prefix: seq<Interval>, iv: Interval)
    requires merged != [] && StartsFrom(merged, prefix)
    ensures StartsFrom(Absorb(merged, iv), prefix + [iv])
  {
    MapSnoc(prefix, iv, IntervalStart);
    var next := Absorb(merged, iv);
    if iv.start <= merged[|merged| - 1].end {
      assert forall a :: 0 <= a < |next| ==> next[a].start == merged[a].start;
    } else {
      assert forall a :: 0 <= a < |merged| ==> next[a] == merged[a];
    }
  }

  /** Widening the last interval to cover `iv` keeps the list ordered and separated. */
  lemma ExtendLastShape(merged: seq<Interval>, iv: Interval)
    requires merged != [] && StartsSorted(merged) && Separated(merged)
    ensures var last := merged[|merged| - 1];
            var next := merged[..|merged| - 1] + [Interval(last.start, Max(last.end, iv.end))];
            StartsSorted(next) && Separated(next) && (WellFormed(merged) ==> WellFormed(next))
  {
    var n := |merged| - 1;
    var last := merged[n];
    var next := merged[..n] + [Interval(last.start, Max(last.end, iv.end))];
    assert forall k :: 0 <= k < n ==> next[k] == merged[k];
    assert next[n].start == last.start;
  }

  /** Appending an interval that starts after the last one ends keeps the list ordered and separated. */
  lemma AppendShape(merged: seq<Interval>, iv: Interval)
    requires merged != [] && StartsSorted(merged) && Separated(merged)
    requires merged[|merged| - 1].start <= iv.start && merged[|merged| - 1].end < iv.start
    ensures StartsSorted(merged + [iv]) && Separated(merged + [iv])
    ensures WellFormed(merged) && iv.start <= iv.end ==> WellFormed(merged + [iv])
  {
    var next := merged + [iv];
    assert forall k :: 0 <= k < |merged| ==> next[k] == merged[k];
    forall a, b | 0 <= a < b < |next|
      ensures next[a].start <= next[b].start
    {
      if b == |merged| {
        assert next[a].start <= merged[|merged| - 1].start;
      }
    }
  }

  lemma AbsorbShape(sorted: seq<Interval>, i: int, merged: seq<Interval>)
    requires MergeInv(sorted, i, merged) && i < |sorted| && SortedBy(sorted, IntervalStart)
    ensures var next := Absorb(merged, sorted[i]);
            next != [] && next[0].start == sorted[0].start &&
            StartsSorted(next) && Separated(next) &&
            (WellFormed(sorted) ==> WellFormed(next)) &&
            (forall k :: i + 1 <= k < |sorted| ==> next[|next| - 1].start <= sorted[k].start)
  {
    var iv := sorted[i];
    var next := Absorb(merged, iv);
    var last := merged[|merged| - 1];
    if iv.start <= last.end {
      ExtendLastShape(merged, iv);
      assert next[|next| - 1].start == last.start;
      if |merged| > 1 {
        assert next[0] == merged[0];
      }
    } else {
      AppendShape(merged, iv);
      assert next[0] == merged[0];
      if WellFormed(sorted) {
        assert iv.start <= iv.end;
      }
      forall k | i + 1 <= k < |sorted|
        ensures iv.start <= sorted[k].start
      {
        assert IntervalStart(sorted[i]) <= IntervalStart(sorted[k]);
      }
    }
  }

  lemma MergeStep(sorted: seq<Interval>, i: int, merged: seq<Interval>)
    requires MergeInv(sorted, i, merged) && i < |sorted| && SortedBy(sorted, IntervalStart)
    ensures MergeInv(sorted, i + 1, Absorb(merged, sorted[i]))
  {
    assert sorted[..i + 1] == sorted[..i] + [sorted[i]];
    AbsorbCover(merged, sorted[..i], sorted[i]);
    AbsorbStarts(merged, sorted[..i], sorted[i]);
    AbsorbShape(sorted, i, merged);
  }

  /** The merge loop of `_build_intervals`, on intervals already sorted by start. */
  method MergeSorted(sorted: seq<Interval>) returns (merged: seq<Interval>)
    requires sorted != [] && SortedBy(sorted, IntervalStart)
    ensures merged != [] && merged[0].start == sorted[0].start
    ensures StartsSorted(merged) && Separated(merged)
    ensures SameCover(merged, sorted)
    ensures WellFormed(sorted) ==> WellFormed(merged)
    ensures StartsFrom(merged, sorted)
  {
    merged := [sorted[0]];
    assert sorted[..1] == [sorted[0]];
    assert StartsFrom(merged, sorted[..1]) by {
      assert Map(sorted[..1], IntervalStart)[0] == merged[0].start;
    }
    var i := 1;
    while i < |sorted|
      invariant MergeInv(sorted, i, merged)
    {
      var iv := sorted[i];
      var last := merged[|merged| - 1];
      MergeStep(sorted, i, merged);
      var next;
      if iv.start <= last.end {
        next := merged[..|merged| - 1] + [Interval(last.start, Max(last.end, iv.end))];
      } else {
        next := merged + [iv];
      }
      assert next == Absorb(merged, iv);
      merged := next;
      i := i + 1;
    }
    assert sorted[..i] == sorted;
  }

  /** The stable gap before `iv`, if it is long enough, when the unstable intervals so far end at `prevEnd`. */
  function Gap(prevEnd: real, iv: Interval, minStable: real): seq<Interval> {
    if iv.start > prevEnd && iv.start - prevEnd >= minStable then [Interval(prevEnd, iv.start)] else []
  }

  /** Every gap starts at or after 0, is non-empty and lasts at least `minStable`. */
  predicate LongGaps(stable: seq<Interval>, minStable: real) {
    forall a :: 0 <= a < |stable| ==>
      0.0 <= stable[a].start < stable[a].end && stable[a].end - stable[a].start >= minStable
  }

  predicate EndsBy(stable: seq<Interval>, merged: seq<Interval>, duration: real) {
    (forall k :: 0 <= k < |merged| ==> merged[k].start <= duration) ==>
      forall a :: 0 <= a < |stable| ==> stable[a].end <= duration
  }

  /** The first `i` unstable intervals end by `prevEnd`. */
  predicate Cleared(merged: seq<Interval>, i: int, prevEnd: real) {
    0 <= i <= |merged| && prevEnd >= 0.0 && forall k :: 0 <= k < i ==> merged[k].end <= prevEnd
  }

  /** Gaps share no interior point with the first `i` unstable intervals and come before the rest. */
  predicate ClearOf(stable: seq<Interval>, merged: seq<Interval>, i: int) {
    StartsSorted(merged) ==>
      (forall a, k :: 0 <= a < |stable| && 0 <= k < i && k < |merged| ==>
         stable[a].end <= merged[k].start || merged[k].end <= stable[a].start) &&
      (forall a, k :: 0 <= a < |stable| && 0 <= i <= k < |merged| ==> stable[a].end <= merged[k].start)
  }

  predicate GapsOrdered(stable: seq<Interval>, merged: seq<Interval>, prevEnd: real) {
    WellFormed(merged) ==> (forall a :: 0 <= a < |stable| ==> stable[a].end <= prevEnd) && Ascending(stable)
  }

  /** What the gap loop keeps after `i` unstable intervals. */
  predicate GapInv(duration: real, merged: seq<Interval>, minStable: real, i: int, prevEnd: real, stable: seq<Interval>) {
    Cleared(merged, i, prevEnd) && LongGaps(stable, minStable) && EndsBy(stable, merged, duration) &&
    ClearOf(stable, merged, i) && GapsOrdered(stable, merged, prevEnd)
  }

  lemma GapStepClear(merged: seq<Interval>, i: int, prevEnd: real, stable: seq<Interval>, minStable: real)
    requires Cleared(merged, i, prevEnd) && i < |merged| && ClearOf(stable, merged, i)
    ensures ClearOf(stable + Gap(prevEnd, merged[i], minStable), merged, i + 1)
  {
    var next := stable + Gap(prevEnd, merged[i], minStable);
    if StartsSorted(merged) {
      assert forall a :: 0 <= a < |stable| ==> next[a] == stable[a];
    }
  }

  lemma GapStepOrder(merged: seq<Interval>, i: int, prevEnd: real, stable: seq<Interval>, minStable: real)
    requires Cleared(merged, i, prevEnd) && i < |merged| && GapsOrdered(stable, merged, prevEnd)
    ensures GapsOrdered(stable + Gap(prevEnd, merged[i], minStable), merged, Max(prevEnd, merged[i].end))
  {
    var next := stable + Gap(prevEnd, merged[i], minStable);
    if WellFormed(merged) {
      assert forall a :: 0 <= a < |stable| ==> next[a] == stable[a];
    }
  }

  lemma GapStep(duration: real, merged: seq<Interval>, minStable: real, i: int, prevEnd: real, stable: seq<Interval>)
    requires GapInv(duration, merged, minStable, i, prevEnd, stable) && i < |merged|
    ensures GapInv(duration, merged, minStable, i + 1, Max(prevEnd, merged[i].end),
                   stable + Gap(prevEnd, merged[i], minStable))
  {
    var next := stable + Gap(prevEnd, merged[i], minStable);
    assert forall a :: 0 <= a < |stable| ==> next[a] == stable[a];
    GapStepClear(merged, i, prevEnd, stable, minStable);
    GapStepOrder(merged, i, prevEnd, stable, minStable);
  }

  /** The stable gap after the last unstable interval, if it is long enough. */
  function TailGap(prevEnd: real, duration: real, minStable: real): seq<Interval> {
    if prevEnd < duration && duration - prevEnd >= minStable then [Interval(prevEnd, duration)] else []
  }

  /** The gap after the last unstable interval keeps every promise. */
  lemma GapTail(duration: real, merged: seq<Interval>, minStable: real, prevEnd: real, stable: seq<Interval>)
    requires GapInv(duration, merged, minStable, |merged|, prevEnd, stable)
    ensures LongGaps(stable + TailGap(prevEnd, duration, minStable), minStable)
    ensures EndsBy(stable + TailGap(prevEnd, duration, minStable), merged, duration)
    ensures StartsSorted(merged) ==> Disjoint(stable + TailGap(prevEnd, duration, minStable), merged)
    ensures WellFormed(merged) ==> Ascending(stable + TailGap(prevEnd, duration, minStable))
  {
    var all := stable + TailGap(prevEnd, duration, minStable);
    assert forall a :: 0 <= a < |stable| ==> all[a] == stable[a];
  }

  /**
   * The stable gaps the merged intervals leave, read from the front: before
   * each interval the gap from the furthest end so far (`prevEnd`), then the
   * gap up to `duration`, each kept only when at least `minStable` long.
   */
  function GapsFrom(prevEnd: real, merged: seq<Interval>, duration: real, minStable: real): seq<Interval>
    decreases |merged|
  {
    if merged == [] then TailGap(prevEnd, duration, minStable)
    else Gap(prevEnd, merged[0], minStable) + GapsFrom(Max(prevEnd, merged[0].end), merged[1..], duration, minStable)
  }

  /** The stable intervals that `_build_intervals` derives from the merged unstable ones. */
  function Gaps(merged: seq<Interval>, duration: real, minStable: real): seq<Interval> {
    GapsFrom(0.0, merged, duration, minStable)
  }

  lemma GapsFromStep(prevEnd: real, merged: seq<Interval>, i: int, duration: real, minStable: real)
    requires 0 <= i < |merged|
    ensures GapsFrom(prevEnd, merged[i..], duration, minStable) ==
            Gap(prevEnd, merged[i], minStable) + GapsFrom(Max(prevEnd, merged[i].end), merged[i + 1..], duration, minStable)
  {
    assert merged[i..][0] == merged[i];
    assert merged[i..][1..] == merged[i + 1..];
  }

  /** The gap loop's progress: the gaps found so far followed by those still to come are all of `Gaps`. */
  ghost predicate GapsSoFar(stable: seq<Interval>, prevEnd: real, merged: seq<Interval>, i: int, duration: real, minStable: real) {
    0 <= i <= |merged| && stable + GapsFrom(prevEnd, merged[i..], duration, minStable) == Gaps(merged, duration, minStable)
  }

  /** The gap-loop progress survives one iteration. */
  lemma GapsLoopStep(stable: seq<Interval>, prevEnd: real, merged: seq<Interval>, i: int, duration: real, minStable: real)
    requires i < |merged| && GapsSoFar(stable, prevEnd, merged, i, duration, minStable)
    ensures GapsSoFar(stable + Gap(prevEnd, merged[i], minStable), Max(prevEnd, merged[i].end), merged, i + 1, duration, minStable)
  {
    GapsFromStep(prevEnd, merged, i, duration, minStable);
    var later := GapsFrom(Max(prevEnd, merged[i].end), merged[i + 1..], duration, minStable);
    assert stable + (Gap(prevEnd, merged[i], minStable) + later) == (stable + Gap(prevEnd, merged[i], minStable)) + later;
  }

  /** After the last interval only the tail gap remains. */
  lemma GapsLoopEnd(stable: seq<Interval>, prevEnd: real, merged: seq<Interval>, duration: real, minStable: real)
    requires GapsSoFar(stable, prevEnd, merged, |merged|, duration, minStable)
    ensures stable + TailGap(prevEnd, duration, minStable) == Gaps(merged, duration, minStable)
  {
    assert merged[|merged|..] == [];
  }

  /** `g` is a stretch of `[0, duration]`, at least `minStable` long, whose interior no interval covers. */
  ghost predicate FreeStretch(ivs: seq<Interval>, duration: real, minStable: real, g: Interval) {
    0.0 <= g.start < g.end <= duration && g.end - g.start >= minStable &&
    forall x :: g.start < x < g.end ==> !Covered(ivs, x)
  }

  /** Some stable interval contains all of `g`. */
  predicate Reported(stable: seq<Interval>, g: Interval) {
    exists s :: 0 <= s < |stable| && stable[s].start <= g.start && g.end <= stable[s].end
  }

  /** Nothing stable is missed: every long free stretch lies inside a reported stable interval. */
  ghost predicate Complete(stable: seq<Interval>, ivs: seq<Interval>, duration: real, minStable: real) {
    forall g :: FreeStretch(ivs, duration, minStable, g) ==> Reported(stable, g)
  }

  /** An interval that starts before a free stretch ends must end before the stretch begins. */
  lemma FirstClear(ms: seq<Interval>, duration: real, minStable: real, g: Interval)
    requires ms != [] && ms[0].start <= ms[0].end && FreeStretch(ms, duration, minStable, g) && ms[0].start < g.end
    ensures ms[0].end <= g.start
  {
    var m := ms[0];
    var x1 := m.start;
    var x2 := (g.start + Min(m.end, g.end)) / 2.0;
    assert g.start < x1 < g.end ==> !Covered(ms, x1);
    assert g.start < x1 < g.end ==> !In(ms[0], x1);
    assert g.start < x2 < g.end ==> !Covered(ms, x2);
    assert g.start < x2 < g.end ==> !In(ms[0], x2);
  }

  /** A stretch free of a list is free of its tail. */
  lemma FreeOfTail(ms: seq<Interval>, duration: real, minStable: real, g: Interval)
    requires ms != [] && FreeStretch(ms, duration, minStable, g)
    ensures FreeStretch(ms[1..], duration, minStable, g)
  {
    forall x | g.start < x < g.end
      ensures !Covered(ms[1..], x)
    {
      assert !Covered(ms, x);
      assert forall i :: 0 <= i < |ms| - 1 ==> ms[1..][i] == ms[i + 1];
    }
  }

  lemma {:induction false} GapsFromComplete(prevEnd: real, ms: seq<Interval>, duration: real, minStable: real, g: Interval)
    requires WellFormed(ms) && FreeStretch(ms, duration, minStable, g) && prevEnd <= g.start
    ensures Reported(GapsFrom(prevEnd, ms, duration, minStable), g)
    decreases |ms|
  {
    var all := GapsFrom(prevEnd, ms, duration, minStable);
    if ms == [] {
      assert all[0] == Interval(prevEnd, duration);
    } else if ms[0].start >= g.end {
      assert all[0] == Interval(prevEnd, ms[0].start);
    } else {
      var m := ms[0];
      FirstClear(ms, duration, minStable, g);
      FreeOfTail(ms, duration, minStable, g);
      GapsFromComplete(Max(prevEnd, m.end), ms[1..], duration, minStable, g);
      var gap := Gap(prevEnd, m, minStable);
      var rest := GapsFrom(Max(prevEnd, m.end), ms[1..], duration, minStable);
      var s :| 0 <= s < |rest| && rest[s].start <= g.start && g.end <= rest[s].end;
      assert all[|gap| + s] == rest[s];
    }
  }

  /** The gaps are complete: every free stretch of at least `minStable` in `[0, duration]` lies in one of them. */
  lemma GapsComplete(merged: seq<Interval>, duration: real, minStable: real)
    requires WellFormed(merged)
    ensures Complete(Gaps(merged, duration, minStable), merged, duration, minStable)
  {
    forall g | FreeStretch(merged, duration, minStable, g)
      ensures Reported(Gaps(merged, duration, minStable), g)
    {
      GapsFromComplete(0.0, merged, duration, minStable, g);
    }
  }

  /** Completeness carries over to any list of intervals with the same cover. */
  lemma CompleteTransfer(stable: seq<Interval>, a: seq<Interval>, b: seq<Interval>, duration: real, minStable: real)
    requires SameCover(a, b) && Complete(stable, a, duration, minStable)
    ensures Complete(stable, b, duration, minStable)
  {
    forall g | FreeStretch(b, duration, minStable, g)
      ensures Reported(stable, g)
    {
      assert FreeStretch(a, duration, minStable, g);
    }
  }

  /**
   * The gap loop of `_build_intervals`: the stable gaps between, and after,
   * the merged intervals, which are exactly `Gaps`. They are long, disjoint
   * from the unstable intervals and, for well-formed input, complete.
   */
  method StableGaps(duration: real, merged: seq<Interval>, minStable: real) returns (stable: seq<Interval>)
    ensures stable == Gaps(merged, duration, minStable)
    ensures LongGaps(stable, minStable)
    ensures EndsBy(stable, merged, duration)
    ensures StartsSorted(merged) ==> Disjoint(stable, merged)
    ensures WellFormed(merged) ==> Ascending(stable) && Complete(stable, merged, duration, minStable)
  {
    stable := [];
    var prevEnd := 0.0;
    var i := 0;
    while i < |merged|
      invariant GapInv(duration, merged, minStable, i, prevEnd, stable)
      invariant GapsSoFar(stable, prevEnd, merged, i, duration, minStable)
    {
      var iv := merged[i];
      GapStep(duration, merged, minStable, i, prevEnd, stable);
      GapsLoopStep(stable, prevEnd, merged, i, duration, minStable);
      ghost var next := stable + Gap(prevEnd, iv, minStable);
      if iv.start > prevEnd && iv.start - prevEnd >= minStable {
        stable := stable + [Interval(prevEnd, iv.start)];
      }
      assert stable == next;
      prevEnd := Max(prevEnd, iv.end);
      i := i + 1;
    }
    GapTail(duration, merged, minStable, prevEnd, stable);
    GapsLoopEnd(stable, prevEnd, merged, duration, minStable);
    if prevEnd < duration && duration - prevEnd >= minStable {
      stable := stable + [Interval(prevEnd, duration)];
    }
    if WellFormed(merged) {
      GapsComplete(merged, duration, minStable);
    }
  }

  /** What the merge of the sorted copy says about the caller's own order. */
  lemma PermutedFacts(input: seq<Interval>, sorted: seq<Interval>, merged: seq<Interval>, duration: real)
    requires multiset(sorted) == multiset(input) && SameCover(merged, sorted) && StartsFrom(merged, sorted)
    ensures SameCover(merged, input)
    ensures (forall j :: 0 <= j < |input| ==> input[j].start <= duration) ==>
              forall k :: 0 <= k < |merged| ==> merged[k].start <= duration
    ensures WellFormed(input) ==> WellFormed(sorted)
  {
    forall x
      ensures Covered(merged, x) <==> Covered(input, x)
    {
      CoveredPermutation(sorted, input, x);
    }
    if forall j :: 0 <= j < |input| ==> input[j].start <= duration {
      forall k | 0 <= k < |merged|
        ensures merged[k].start <= duration
      {
        var starts := Map(sorted, IntervalStart);
        assert merged[k].start in starts;
        var j :| 0 <= j < |sorted| && starts[j] == merged[k].start;
        assert sorted[j] in multiset(input);
        var j' :| 0 <= j' < |input| && input[j'] == sorted[j];
      }
    }
    if WellFormed(input) {
      forall k | 0 <= k < |sorted|
        ensures sorted[k].start <= sorted[k].end
      {
        assert sorted[k] in multiset(input);
        var j :| 0 <= j < |input| && input[j] == sorted[k];
      }
    }
  }

  /**
   * `_build_intervals` with the caller's list as an array. It is sorted in
   * place by start, as the source does, before it is merged.
   */
  method BuildIntervals(duration: real, unstable: array<Interval>, minStable: real)
    returns (stable: seq<Interval>, merged: seq<Interval>)
    modifies unstable
    ensures unstable.Length == 0 ==> stable == [Interval(0.0, duration)] && merged == []
    ensures unstable.Length > 0 ==> unstable[..] == SortBy(old(unstable[..]), IntervalStart)
    ensures unstable.Length > 0 ==> IntervalsFacts(duration, old(unstable[..]), minStable, stable, merged)
  {
    if unstable.Length == 0 {
      return [Interval(0.0, duration)], [];
    }
    ghost var input := unstable[..];
    SortInPlace(unstable, IntervalStart);
    var sorted := unstable[..];
    SortBySorted(input, IntervalStart);
    SortByMultiset(input, IntervalStart);
    merged := MergeSorted(sorted);
    stable := StableGaps(duration, merged, minStable);
    PermutedFacts(input, sorted, merged, duration);
    if WellFormed(input) {
      CompleteTransfer(stable, merged, input, duration, minStable);
    }
  }

  /** What `_build_intervals` promises about a non-empty input. */
  ghost predicate IntervalsFacts(duration: real, input: seq<Interval>, minStable: real,
                                 stable: seq<Interval>, merged: seq<Interval>) {
    // merged: sorted by start, separated, same union as the input
    merged != [] && StartsSorted(merged) && Separated(merged) &&
    (forall x :: Covered(merged, x) <==> Covered(input, x)) &&
    // stable: the gaps the merged intervals leave, long enough, after 0, clear of every unstable interval
    stable == Gaps(merged, duration, minStable) &&
    LongGaps(stable, minStable) &&
    Disjoint(stable, merged) &&
    // with every unstable interval starting by `duration`, stable ones end by it
    ((forall j :: 0 <= j < |input| ==> input[j].start <= duration) ==>
       forall i :: 0 <= i < |stable| ==> stable[i].end <= duration) &&
    // with well-formed input, stable intervals come in order and miss no long uncovered stretch
    (WellFormed(input) ==> WellFormed(merged) && Ascending(stable) && Complete(stable, input, duration, minStable))
  }

  // =====================================================================
  // Scene changes and totals

  function Midpoint(iv: Interval): real {
    (iv.start + iv.end) / 2.0
  }

  /** `[(start + end) / 2 for start, end in unstable_intervals]` */
  function SceneChanges(unstable: seq<Interval>): seq<real> {
    Map(unstable, Midpoint)
  }

  /** One scene change per merged interval, inside it, in increasing order. */
  lemma SceneChangesShape(unstable: seq<Interval>)
    requires WellFormed(unstable) && Separated(unstable)
    ensures |SceneChanges(unstable)| == |unstable|
    ensures forall i :: 0 <= i < |unstable| ==> In(unstable[i], SceneChanges(unstable)[i])
    ensures forall i, j :: 0 <= i < j < |unstable| ==> SceneChanges(unstable)[i] < SceneChanges(unstable)[j]
  {
    var r := SceneChanges(unstable);
    forall i, j | 0 <= i < j < |unstable|
      ensures r[i] < r[j]
    {
      SeparatedApart(unstable, i, j);
    }
  }

  lemma SeparatedApart(ivs: seq<Interval>, i: nat, j: nat)
    requires WellFormed(ivs) && Separated(ivs) && i < j < |ivs|
    ensures ivs[i].end < ivs[j].start
    decreases j - i
  {
    if j > i + 1 {
      SeparatedApart(ivs, i, j - 1);
    }
  }

  function Length(iv: Interval): real {
    iv.end - iv.start
  }

  /** `_total_duration`: `sum(end - start for start, end in intervals)` */
  function TotalDuration(ivs: seq<Interval>): real {
    if ivs == [] then 0.0 else TotalDuration(ivs[..|ivs| - 1]) + Length(ivs[|ivs| - 1])
  }

  lemma {:induction false} TotalDurationAppend(a: seq<Interval>, b: seq<Interval>)
    ensures TotalDuration(a + b) == TotalDuration(a) + TotalDuration(b)
    decreases |b|
  {
    if b == [] {
      assert a + b == a;
    } else {
      assert (a + b)[..|a + b| - 1] == a + b[..|b| - 1];
      TotalDurationAppend(a, b[..|b| - 1]);
    }
  }

  lemma {:induction false} TotalDurationNonNegative(ivs: seq<Interval>)
    requires WellFormed(ivs)
    ensures TotalDuration(ivs) >= 0.0
  {
    if ivs != [] {
      TotalDurationNonNegative(ivs[..|ivs| - 1]);
    }
  }

  // =====================================================================
  // The whole stage

  datatype Stability = Stability(sceneChanges: seq<real>, stable: seq<Interval>, unstable: seq<Interval>)

  /** `_analyze_video_stability` with thresholds 8.0 and 1.0 s; `opened` is whether the capture opened. */
  method AnalyzeStability(isOpen: bool, decode: int -> Option<Frame>, diff: (Frame, Frame) -> real,
                          fps: real, totalFrames: int, duration: real)
    returns (r: Result<Stability>)
    requires fps >= 0.0
    ensures !isOpen || fps.Floor == 0 <==> r.Failure?
    ensures r.Success? ==> StabilityFacts(decode, diff, fps, totalFrames, duration, r.value)
  {
    if !isOpen {
      return Failure("cannot open video");
    }
    var roughResult := RoughChanges(decode, diff, fps, totalFrames);
    if roughResult.Failure? {
      return Failure(roughResult.error);
    }
    var rough := roughResult.value;
    var precise := new Interval[|rough|];
    var i := 0;
    while i < |rough|
      invariant 0 <= i <= |rough|
      invariant forall j :: 0 <= j < i ==> precise[j] == Boundary(decode, fps, rough[j])
      modifies precise
    {
      var iv := PreciseBoundary(decode, diff, fps, rough[i], StabilityThreshold);
      precise[i] := iv;
      i := i + 1;
    }
    assert precise[..] == Map(rough, t => Boundary(decode, fps, t));
    var stable, unstable := BuildIntervals(duration, precise, MinStableDuration);
    BoundariesWellFormed(decode, fps, rough);
    return Success(Stability(SceneChanges(unstable), stable, unstable));
  }

  /**
   * What a successful `_analyze_video_stability` returns: scene changes at the
   * midpoints of the unstable intervals; with no coarse change the whole video
   * is stable; otherwise the stable and unstable intervals are what
   * `_build_intervals` makes of the refined boundaries of the coarse changes.
   */
  ghost predicate StabilityFacts(decode: int -> Option<Frame>, diff: (Frame, Frame) -> real,
                                 fps: real, totalFrames: int, duration: real, s: Stability) {
    fps >= 1.0 &&
    var rough := Scan(decode, diff, fps, fps.Floor, RangeCount(totalFrames, fps.Floor), 0, None, 0.0);
    s.sceneChanges == SceneChanges(s.unstable) &&
    (rough == [] ==> s.stable == [Interval(0.0, duration)] && s.unstable == []) &&
    (rough != [] ==> IntervalsFacts(duration, Map(rough, t => Boundary(decode, fps, t)), MinStableDuration, s.stable, s.unstable))
  }

  /** The refined intervals handed to the merge are all well-formed, so stable intervals come out in order. */
  lemma BoundariesWellFormed(decode: int -> Option<Frame>, fps: real, rough: seq<real>)
    ensures WellFormed(Map(rough, t => Boundary(decode, fps, t)))
  {
    var ivs := Map(rough, t => Boundary(decode, fps, t));
    forall i | 0 <= i < |ivs|
      ensures ivs[i].start <= ivs[i].end
    {
      BoundaryInWindow(decode, fps, rough[i]);
    }
  }

  /**
   * `analyze_video` once the metadata is known: an audio-only file skips the
   * picture analysis and is one stable interval, or none when it has no length.
   */
  method AnalyzeVideo(fileExists: bool, info: VideoInfo, audioOnly: bool, isOpen: bool,
                      decode: int -> Option<Frame>, diff: (Frame, Frame) -> real, fps: real, totalFrames: int)
    returns (r: Result<VideoInfo>)
    requires fps >= 0.0
    ensures !fileExists ==> r.Failure?
    ensures fileExists && audioOnly ==> (r.Success? &&
              r.value.sceneChanges == [] && r.value.unstableIntervals == [] &&
              (r.value.stableIntervals == [] <==> info.duration <= 0.0) &&
              (info.duration > 0.0 ==> r.value.stableIntervals == [Interval(0.0, info.duration)]))
    ensures fileExists && !audioOnly ==> (r.Success? <==> isOpen && fps.Floor != 0)
    ensures fileExists && !audioOnly && r.Success? ==>
              StabilityFacts(decode, diff, fps, totalFrames, info.duration,
                             Stability(r.value.sceneChanges, r.value.stableIntervals, r.value.unstableIntervals))
    ensures r.Success? ==> r.value == info.(sceneChanges := r.value.sceneChanges, stableIntervals := r.value.stableIntervals,
                                            unstableIntervals := r.value.unstableIntervals)
    ensures r.Success? ==> r.value.sceneChanges == SceneChanges(r.value.unstableIntervals)
  {
    if !fileExists {
      return Failure("video file does not exist");
    }
    if audioOnly {
      var stable := if info.duration > 0.0 then [Interval(0.0, info.duration)] else [];
      return Success(info.(sceneChanges := [], stableIntervals := stable, unstableIntervals := []));
    }
    var s := AnalyzeStability(isOpen, decode, diff, fps, totalFrames, info.duration);
    if s.Failure? {
      return Failure(s.error);
    }
    var v := s.value;
    return Success(info.(sceneChanges := v.sceneChanges, stableIntervals := v.stable, unstableIntervals := v.unstable));
  }
}
