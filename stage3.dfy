/**
 * Stage 3 (src/video2markdown/stage3_keyframes.py): candidate key frames.
 * Every stable interval is sampled at a fixed stride; each scene change
 * that is not already close to a candidate is moved into, or just inside,
 * a nearby stable interval; the candidates are then sorted by time.
 */
module Stage3Keyframes {
  import opened Wrappers
  import opened Strings
  import opened Seqs
  import opened Grid
  import opened Models
  import opened Stage1Analyze

  const MaxAdjust: real := 1.0
  const AudioOnlyCodec: string := "audio_only"

  // =====================================================================
  // `_adjust_to_stable`

  /** A boundary the timestamp could be moved to: how far it is, and where the frame lands. */
  datatype Snap = Snap(dist: real, ts: real)

  /** The boundary of `iv` facing `t`, when `t` lies outside `iv`: 0.1 s inside it. */
  function Gap(iv: Interval, t: real): (r: Option<Snap>)
    ensures r.None? <==> In(iv, t)
    ensures r.Some? ==> r.value.dist > 0.0
  {
    if t < iv.start then Some(Snap(iv.start - t, iv.start + 0.1))
    else if t > iv.end then Some(Snap(t - iv.end, iv.end - 0.1))
    else None
  }

  /** `iv` has a boundary within `maxAdjust` of `t`. */
  predicate Eligible(iv: Interval, t: real, maxAdjust: real) {
    Gap(iv, t).Some? && Gap(iv, t).value.dist <= maxAdjust
  }

  /** `dist < best_dist`, where no best yet stands for infinity. */
  predicate Improves(dist: real, best: Option<Snap>) {
    best.None? || dist < best.value.dist
  }

  /** The second loop of `_adjust_to_stable`: the nearest eligible boundary, the earliest one on ties. */
  function Nearest(ivs: seq<Interval>, t: real, maxAdjust: real): Option<Snap> {
    if ivs == [] then None
    else
      var best := Nearest(ivs[..|ivs| - 1], t, maxAdjust);
      var g := Gap(ivs[|ivs| - 1], t);
      if g.Some? && Improves(g.value.dist, best) && g.value.dist <= maxAdjust then g else best
  }

  /** What `_adjust_to_stable` returns. */
  function Adjusted(t: real, ivs: seq<Interval>, maxAdjust: real): Option<real> {
    if Covered(ivs, t) then Some(t)
    else match Nearest(ivs, t, maxAdjust)
      case None => None
      case Some(s) => Some(s.ts)
  }

  method AdjustToStable(t: real, ivs: seq<Interval>, maxAdjust: real) returns (r: Option<real>)
    ensures r == Adjusted(t, ivs, maxAdjust)
  {
    var i := 0;
    while i < |ivs|
      invariant 0 <= i <= |ivs|
      invariant forall j :: 0 <= j < i ==> !In(ivs[j], t)
    {
      if ivs[i].start <= t <= ivs[i].end {
        assert In(ivs[i], t);
        return Some(t);
      }
      i := i + 1;
    }
    var bestTs: Option<real> := None;
    var bestDist: Option<real> := None;
    i := 0;
    while i < |ivs|
      invariant 0 <= i <= |ivs|
      invariant bestTs.None? <==> bestDist.None?
      invariant Nearest(ivs[..i], t, maxAdjust) == if bestTs.None? then None else Some(Snap(bestDist.value, bestTs.value))
    {
      assert ivs[..i + 1][..i] == ivs[..i];
      var iv := ivs[i];
      if t < iv.start {
        var dist := iv.start - t;
        if (bestDist.None? || dist < bestDist.value) && dist <= maxAdjust {
          bestDist := Some(dist);
          bestTs := Some(iv.start + 0.1);
        }
      } else if t > iv.end {
        var dist := t - iv.end;
        if (bestDist.None? || dist < bestDist.value) && dist <= maxAdjust {
          bestDist := Some(dist);
          bestTs := Some(iv.end - 0.1);
        }
      }
      i := i + 1;
    }
    assert ivs[..i] == ivs;
    return bestTs;
  }

  /** Interval `i` holds the boundary `Nearest` picks: no earlier eligible one is as near, no later one nearer. */
  predicate ChosenAt(ivs: seq<Interval>, t: real, maxAdjust: real, i: int, s: Snap) {
    0 <= i < |ivs| && Gap(ivs[i], t) == Some(s) && s.dist <= maxAdjust &&
    (forall j :: 0 <= j < i && Eligible(ivs[j], t, maxAdjust) ==> Gap(ivs[j], t).value.dist > s.dist) &&
    (forall j :: i < j < |ivs| && Eligible(ivs[j], t, maxAdjust) ==> Gap(ivs[j], t).value.dist >= s.dist)
  }

  lemma {:induction false} NearestSpec(ivs: seq<Interval>, t: real, maxAdjust: real)
    ensures Nearest(ivs, t, maxAdjust).None? <==> forall i :: 0 <= i < |ivs| ==> !Eligible(ivs[i], t, maxAdjust)
    ensures Nearest(ivs, t, maxAdjust).Some? ==> exists i :: ChosenAt(ivs, t, maxAdjust, i, Nearest(ivs, t, maxAdjust).value)
  {
    if ivs != [] {
      var init := ivs[..|ivs| - 1];
      var n := |ivs| - 1;
      NearestSpec(init, t, maxAdjust);
      var best := Nearest(init, t, maxAdjust);
      var g := Gap(ivs[n], t);
      if g.Some? && Improves(g.value.dist, best) && g.value.dist <= maxAdjust {
        if best.Some? {
          var i :| ChosenAt(init, t, maxAdjust, i, best.value);
          forall j | 0 <= j < n && Eligible(ivs[j], t, maxAdjust)
            ensures Gap(ivs[j], t).value.dist > g.value.dist
          {
            assert ivs[j] == init[j];
            if j > i {
              assert Gap(init[j], t).value.dist >= best.value.dist;
            } else if j < i {
              assert Gap(init[j], t).value.dist > best.value.dist;
            }
          }
        } else {
          forall j | 0 <= j < n
            ensures !Eligible(ivs[j], t, maxAdjust)
          {
            assert ivs[j] == init[j];
          }
        }
        assert ChosenAt(ivs, t, maxAdjust, n, g.value);
      } else if best.Some? {
        var i :| ChosenAt(init, t, maxAdjust, i, best.value);
        forall j | 0 <= j < i && Eligible(ivs[j], t, maxAdjust)
          ensures Gap(ivs[j], t).value.dist > best.value.dist
        {
          assert ivs[j] == init[j];
        }
        forall j | i < j < |ivs| && Eligible(ivs[j], t, maxAdjust)
          ensures Gap(ivs[j], t).value.dist >= best.value.dist
        {
          if j < n {
            assert ivs[j] == init[j];
          }
        }
        assert ChosenAt(ivs, t, maxAdjust, i, best.value);
      } else {
        forall j | 0 <= j < |ivs|
          ensures !Eligible(ivs[j], t, maxAdjust)
        {
          if j < n {
            assert ivs[j] == init[j];
          }
        }
      }
    }
  }

  /**
   * A timestamp inside a closed stable interval is kept; one outside all of
   * them goes 0.1 s inside the nearest boundary within `maxAdjust` (the first
   * such interval on ties), and is dropped when no boundary is that near.
   */
  lemma AdjustedMeaning(t: real, ivs: seq<Interval>, maxAdjust: real)
    ensures Covered(ivs, t) ==> Adjusted(t, ivs, maxAdjust) == Some(t)
    ensures !Covered(ivs, t) ==>
              (Adjusted(t, ivs, maxAdjust).None? <==> forall i :: 0 <= i < |ivs| ==> !Eligible(ivs[i], t, maxAdjust))
    ensures !Covered(ivs, t) && Adjusted(t, ivs, maxAdjust).Some? ==>
              exists i, s :: ChosenAt(ivs, t, maxAdjust, i, s) && Adjusted(t, ivs, maxAdjust) == Some(s.ts) &&
                (s.ts == ivs[i].start + 0.1 || s.ts == ivs[i].end - 0.1)
  {
    NearestSpec(ivs, t, maxAdjust);
    if !Covered(ivs, t) && Nearest(ivs, t, maxAdjust).Some? {
      var s := Nearest(ivs, t, maxAdjust).value;
      var i :| ChosenAt(ivs, t, maxAdjust, i, s);
      assert s.ts == ivs[i].start + 0.1 || s.ts == ivs[i].end - 0.1;
    }
  }

  // =====================================================================
  // `extract_candidate_frames`

  function StableFrame(t: real): KeyFrame {
    KeyFrame(t, "stable_interval", "稳定区间采样 @ " + Fixed(t, 1) + "s")
  }

  /** The samples `start, start + step, ...` below `end` of one stable interval. */
  function IntervalSamples(iv: Interval, step: real): seq<KeyFrame>
    requires step > 0.0
  {
    Map(PointsBelow(iv.start, iv.end, step), StableFrame)
  }

  /** The first loop: every stable interval's samples, interval after interval. */
  function StableSamples(ivs: seq<Interval>, step: real): seq<KeyFrame>
    requires step > 0.0
  {
    if ivs == [] then [] else StableSamples(ivs[..|ivs| - 1], step) + IntervalSamples(ivs[|ivs| - 1], step)
  }

  /** Every stable sample lies in `[start, end)` of one of the stable intervals. */
  lemma {:induction false} StableSamplesInside(ivs: seq<Interval>, step: real)
    requires step > 0.0
    ensures forall k :: 0 <= k < |StableSamples(ivs, step)| ==>
              StableSamples(ivs, step)[k].source == "stable_interval" &&
              exists i :: 0 <= i < |ivs| && ivs[i].start <= StableSamples(ivs, step)[k].timestamp < ivs[i].end
  {
    if ivs != [] {
      var init := ivs[..|ivs| - 1];
      var last := ivs[|ivs| - 1];
      StableSamplesInside(init, step);
      PointsBelowRange(last.start, last.end, step);
      var a := StableSamples(init, step);
      var r := StableSamples(ivs, step);
      forall k | 0 <= k < |r|
        ensures r[k].source == "stable_interval" &&
                exists i :: 0 <= i < |ivs| && ivs[i].start <= r[k].timestamp < ivs[i].end
      {
        if k < |a| {
          assert r[k] == a[k];
          var i :| 0 <= i < |init| && init[i].start <= a[k].timestamp < init[i].end;
          assert ivs[i] == init[i];
        } else {
          assert r[k] == IntervalSamples(last, step)[k - |a|];
          assert ivs[|ivs| - 1] == last;
        }
      }
    }
  }

  /** Two stable samples of the same interval lie `step` apart for each stride between them. */
  lemma IntervalSamplesStride(iv: Interval, step: real, k: nat)
    requires step > 0.0 && k + 1 < |IntervalSamples(iv, step)|
    ensures IntervalSamples(iv, step)[k + 1].timestamp - IntervalSamples(iv, step)[k].timestamp == step
  {
    var pts := PointsBelow(iv.start, iv.end, step);
    PointStride(iv.start, step, k);
    assert IntervalSamples(iv, step)[k + 1].timestamp == pts[k + 1];
    assert IntervalSamples(iv, step)[k].timestamp == pts[k];
  }

  /** `any(abs(f.timestamp - ts) < half for f in frames)`: some candidate so far lies within `half` of the raw scene time. */
  predicate TooClose(frames: seq<KeyFrame>, t: real, half: real) {
    exists q :: 0 <= q < |frames| && Abs(frames[q].timestamp - t) < half
  }

  function SceneFrame(raw: real, adjusted: real): KeyFrame {
    KeyFrame(adjusted, "scene_change", "场景变化点 @ " + Fixed(raw, 1) + "s → 稳定区间 " + Fixed(adjusted, 1) + "s")
  }

  /** What one scene change adds to the candidates collected so far. */
  function SceneAdd(frames: seq<KeyFrame>, t: real, ivs: seq<Interval>, step: real): seq<KeyFrame> {
    if TooClose(frames, t, step / 2.0) then []
    else match Adjusted(t, ivs, MaxAdjust)
      case None => []
      case Some(a) => [SceneFrame(t, a)]
  }

  /** The second loop: `frames` after the scene changes have been considered in turn. */
  function SceneFold(base: seq<KeyFrame>, scenes: seq<real>, ivs: seq<Interval>, step: real): (r: seq<KeyFrame>)
    ensures |base| <= |r| <= |base| + |scenes| && r[..|base|] == base
  {
    if scenes == [] then base
    else
      var acc := SceneFold(base, scenes[..|scenes| - 1], ivs, step);
      acc + SceneAdd(acc, scenes[|scenes| - 1], ivs, step)
  }

  /** A scene change's candidate, at the place it was appended. */
  predicate SceneCandidate(r: seq<KeyFrame>, p: int, scenes: seq<real>, ivs: seq<Interval>, step: real)
    requires 0 <= p < |r|
  {
    exists j :: 0 <= j < |scenes| && Adjusted(scenes[j], ivs, MaxAdjust).Some? &&
      r[p] == SceneFrame(scenes[j], Adjusted(scenes[j], ivs, MaxAdjust).value) &&
      forall q :: 0 <= q < p ==> Abs(r[q].timestamp - scenes[j]) >= step / 2.0
  }

  /**
   * Every frame the scene loop adds is the adjusted time of a scene change
   * none of whose predecessors in the list, stable samples or earlier scene
   * candidates alike, lay within half a stride of the raw scene time.
   */
  lemma {:induction false} SceneFoldGate(base: seq<KeyFrame>, scenes: seq<real>, ivs: seq<Interval>, step: real)
    ensures forall p :: |base| <= p < |SceneFold(base, scenes, ivs, step)| ==>
              SceneCandidate(SceneFold(base, scenes, ivs, step), p, scenes, ivs, step)
  {
    if scenes != [] {
      var init := scenes[..|scenes| - 1];
      var t := scenes[|scenes| - 1];
      SceneFoldGate(base, init, ivs, step);
      var acc := SceneFold(base, init, ivs, step);
      var r := SceneFold(base, scenes, ivs, step);
      assert r == acc + SceneAdd(acc, t, ivs, step);
      forall p | |base| <= p < |r|
        ensures SceneCandidate(r, p, scenes, ivs, step)
      {
        if p < |acc| {
          SceneCandidateExtend(acc, r, p, init, scenes, ivs, step);
        } else {
          assert p == |acc| && !TooClose(acc, t, step / 2.0);
          assert forall q :: 0 <= q < p ==> r[q] == acc[q];
          assert scenes[|scenes| - 1] == t;
        }
      }
    }
  }

  lemma SceneCandidateExtend(acc: seq<KeyFrame>, r: seq<KeyFrame>, p: int, init: seq<real>, scenes: seq<real>,
                             ivs: seq<Interval>, step: real)
    requires 0 <= p < |acc| <= |r| && r[..|acc|] == acc
    requires |init| <= |scenes| && scenes[..|init|] == init
    requires SceneCandidate(acc, p, init, ivs, step)
    ensures SceneCandidate(r, p, scenes, ivs, step)
  {
    var j :| 0 <= j < |init| && Adjusted(init[j], ivs, MaxAdjust).Some? &&
      acc[p] == SceneFrame(init[j], Adjusted(init[j], ivs, MaxAdjust).value) &&
      forall q :: 0 <= q < p ==> Abs(acc[q].timestamp - init[j]) >= step / 2.0;
    assert scenes[j] == init[j];
    forall q | 0 <= q < p
      ensures Abs(r[q].timestamp - scenes[j]) >= step / 2.0
    {
      assert r[q] == acc[q];
    }
    assert r[p] == acc[p];
  }

  /** The first loop of `extract_candidate_frames`, interval by interval. */
  method SampleStable(ivs: seq<Interval>, intervalSec: real) returns (collected: seq<KeyFrame>, stableCount: nat)
    requires intervalSec > 0.0
    ensures collected == StableSamples(ivs, intervalSec) && stableCount == |collected|
  {
    collected := [];
    stableCount := 0;
    var i := 0;
    while i < |ivs|
      invariant 0 <= i <= |ivs|
      invariant collected == StableSamples(ivs[..i], intervalSec) && stableCount == |collected|
    {
      assert ivs[..i + 1][..i] == ivs[..i];
      collected, stableCount := SampleInterval(collected, stableCount, ivs[i], intervalSec);
      i := i + 1;
    }
    assert ivs[..i] == ivs;
  }

  /** One interval of the first loop: `current = start; while current < end: ...; current += interval_sec`. */
  method SampleInterval(before: seq<KeyFrame>, countBefore: nat, iv: Interval, intervalSec: real)
    returns (collected: seq<KeyFrame>, stableCount: nat)
    requires intervalSec > 0.0
    ensures collected == before + IntervalSamples(iv, intervalSec)
    ensures stableCount == countBefore + |IntervalSamples(iv, intervalSec)|
  {
    var start := iv.start;
    var end := iv.end;
    ghost var points := PointsBelow(start, end, intervalSec);
    collected := before;
    stableCount := countBefore;
    var current := start;
    ghost var k: nat := 0;
    while current < end
      invariant k <= |points| && current == Point(start, intervalSec, k)
      invariant collected == before + Map(points[..k], StableFrame) && stableCount == countBefore + k
      decreases |points| - k
    {
      CountBelowSpec(start, end, intervalSec, k);
      PointStride(start, intervalSec, k);
      assert points[..k + 1] == points[..k] + [current];
      collected := collected + [StableFrame(current)];
      stableCount := stableCount + 1;
      current := current + intervalSec;
      k := k + 1;
    }
    CountBelowSpec(start, end, intervalSec, k);
    assert points[..k] == points;
  }

  /** The second loop of `extract_candidate_frames`: scene changes not too close to a candidate, adjusted. */
  method AddScenes(sampled: seq<KeyFrame>, scenes: seq<real>, ivs: seq<Interval>, intervalSec: real)
    returns (collected: seq<KeyFrame>, sceneCount: nat)
    ensures collected == SceneFold(sampled, scenes, ivs, intervalSec)
    ensures sceneCount <= |scenes| && |collected| == |sampled| + sceneCount
  {
    collected := sampled;
    sceneCount := 0;
    var j := 0;
    while j < |scenes|
      invariant 0 <= j <= |scenes| && sceneCount <= j
      invariant collected == SceneFold(sampled, scenes[..j], ivs, intervalSec)
      invariant |collected| == |sampled| + sceneCount
    {
      assert scenes[..j + 1][..j] == scenes[..j];
      var t := scenes[j];
      var tooClose := TooClose(collected, t, intervalSec / 2.0);
      if !tooClose {
        var adjusted := AdjustToStable(t, ivs, MaxAdjust);
        if adjusted.Some? {
          collected := collected + [SceneFrame(t, adjusted.value)];
          sceneCount := sceneCount + 1;
        }
      }
      j := j + 1;
    }
    assert scenes[..j] == scenes;
  }

  /**
   * `extract_candidate_frames` with stride `intervalSec`: returns the sorted
   * candidates and the two counters the source reports.
   */
  method ExtractCandidates(info: VideoInfo, intervalSec: real)
    returns (frames: seq<KeyFrame>, stableCount: nat, sceneCount: nat)
    requires intervalSec > 0.0
    ensures info.videoCodec == AudioOnlyCodec ==> frames == [] && stableCount == 0 && sceneCount == 0
    ensures info.videoCodec != AudioOnlyCodec ==>
              frames == SortBy(SceneFold(StableSamples(info.stableIntervals, intervalSec), info.sceneChanges,
                                         info.stableIntervals, intervalSec), FrameTimestamp) &&
              stableCount == |StableSamples(info.stableIntervals, intervalSec)| && sceneCount <= |info.sceneChanges|
    ensures |frames| == stableCount + sceneCount
  {
    if info.videoCodec == AudioOnlyCodec {
      return [], 0, 0;
    }
    var sampled;
    sampled, stableCount := SampleStable(info.stableIntervals, intervalSec);
    var collected;
    collected, sceneCount := AddScenes(sampled, info.sceneChanges, info.stableIntervals, intervalSec);
    var a := new KeyFrame[|collected|](n requires 0 <= n < |collected| => collected[n]);
    assert a[..] == collected;
    SortInPlace(a, FrameTimestamp);
    frames := a[..];
  }

  /** The candidates come out in time order, and they are exactly the collected frames, each as often. */
  lemma CandidatesSortedPermutation(collected: seq<KeyFrame>)
    ensures SortedBy(SortBy(collected, FrameTimestamp), FrameTimestamp)
    ensures multiset(SortBy(collected, FrameTimestamp)) == multiset(collected)
  {
    SortBySorted(collected, FrameTimestamp);
    SortByMultiset(collected, FrameTimestamp);
  }
}
