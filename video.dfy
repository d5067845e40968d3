/**
 * `video.py`: the decisions the video helpers take on what ffprobe, ffmpeg
 * and OpenCV report. The tools themselves are not modelled: a frame
 * grab, a pixel statistic or a line of ffmpeg's log is an input.
 */
module Video {
  import opened Wrappers
  import opened Strings
  import opened Seqs
  import opened Grid
  import opened Models

  // =====================================================================
  // `get_video_info`: frame rate and frame count

  /** `num / den`, or 30 fps when the denominator is 0. */
  function FrameRate(num: int, den: int): (fps: real)
    ensures den == 0 ==> fps == 30.0
    ensures den != 0 ==> fps * den as real == num as real
  {
    if den != 0 then num as real / den as real else 30.0
  }

  /** `int(fps * duration)` for a positive duration, else 0. */
  function TotalFrames(fps: real, duration: real): int {
    if duration > 0.0 then Trunc(fps * duration) else 0
  }

  /** The stream's duration when it reports one, else the container's, else 0. */
  function Duration(streamDuration: Option<real>, formatDuration: Option<real>): real {
    if streamDuration.Some? then streamDuration.value else formatDuration.GetOr(0.0)
  }

  /** For a non-negative rate the count is the whole number of frames in the duration. */
  lemma TotalFramesSpec(fps: real, duration: real)
    requires fps >= 0.0
    ensures duration <= 0.0 ==> TotalFrames(fps, duration) == 0
    ensures duration > 0.0 ==>
              0 <= TotalFrames(fps, duration) &&
              TotalFrames(fps, duration) as real <= fps * duration < TotalFrames(fps, duration) as real + 1.0
  {
    if duration > 0.0 {
      assert fps * duration >= 0.0;
    }
  }

  // =====================================================================
  // `detect_scene_changes`: reading `pts_time:` out of ffmpeg's log

  const PtsMarker := "pts_time:"

  /** The first whitespace-separated token after the marker, if the line has the marker and a token. */
  function PtsToken(line: string): (r: Option<string>)
    ensures r.Some? ==> Contains(line, PtsMarker) && r.value != []
  {
    if !Contains(line, PtsMarker) then None
    else
      var parts := Split(line, PtsMarker);
      if |parts| < 2 then None
      else
        var words := SplitWhitespace(parts[1]);
        SplitWhitespaceWords(parts[1]);
        if words == [] then None else Some(words[0])
  }

  /** The time on a line; `parse` is Python's `float()`, `None` where it raises. */
  function LineTime(line: string, parse: string -> Option<real>): Option<real> {
    match PtsToken(line)
    case None => None
    case Some(tok) => parse(tok)
  }

  /** The times of the lines that carry one, in order. */
  function SceneTimes(lines: seq<string>, parse: string -> Option<real>): seq<real> {
    if lines == [] then []
    else
      var last := LineTime(lines[|lines| - 1], parse);
      SceneTimes(lines[..|lines| - 1], parse) + (if last.Some? then [last.value] else [])
  }

  method DetectSceneChanges(stderr: string, parse: string -> Option<real>) returns (timestamps: seq<real>)
    ensures timestamps == SceneTimes(Split(stderr, "\n"), parse)
  {
    var lines := Split(stderr, "\n");
    timestamps := [];
    var i := 0;
    while i < |lines|
      invariant 0 <= i <= |lines|
      invariant timestamps == SceneTimes(lines[..i], parse)
    {
      assert lines[..i + 1][..i] == lines[..i];
      var line := lines[i];
      var t := LineTime(line, parse);
      if t.Some? {
        timestamps := timestamps + [t.value];
      }
      i := i + 1;
    }
    assert lines[..i] == lines;
  }

  /** Whether a line yields a time, as a function value. */
  function HasTime(parse: string -> Option<real>): string -> bool {
    l => LineTime(l, parse).Some?
  }

  /** The time a line yields (0 where it yields none), as a function value. */
  function TimeOf(parse: string -> Option<real>): string -> real {
    l => LineTime(l, parse).GetOr(0.0)
  }

  /**
   * One time per line that yields one, in the order of the lines: the
   * lines kept by the marker-and-token test, each read as its time.
   */
  lemma {:induction false} SceneTimesSpec(lines: seq<string>, parse: string -> Option<real>)
    ensures SceneTimes(lines, parse) == Map(Filter(lines, HasTime(parse)), TimeOf(parse))
  {
    if lines != [] {
      var n := |lines| - 1;
      var init := lines[..n];
      var last := lines[n];
      var t := LineTime(last, parse);
      SceneTimesSpec(init, parse);
      assert SceneTimes(lines, parse) == SceneTimes(init, parse) + (if t.Some? then [t.value] else []);
      assert lines == init + [last];
      FilterSnoc(init, last, HasTime(parse));
      assert HasTime(parse)(last) == t.Some?;
      var kept := Filter(init, HasTime(parse));
      if t.Some? {
        MapSnoc(kept, last, TimeOf(parse));
        assert TimeOf(parse)(last) == t.value;
      } else {
        assert Filter(lines, HasTime(parse)) == kept;
      }
    }
  }

  // =====================================================================
  // `is_black_frame` and `is_blurry`

  /** The grey-level statistics of a frame: mean brightness and the share of pixels below 20. */
  datatype Gray = Gray(mean: real, darkRatio: real)

  /** Unreadable, or mean below 10, or more dark pixels than `threshold` (0.95 by default). */
  predicate IsBlackFrame(img: Option<Gray>, threshold: real) {
    img.None? || img.value.mean < 10.0 || img.value.darkRatio > threshold
  }

  /** Unreadable, or a Laplacian variance below `threshold`. */
  predicate IsBlurry(laplacianVar: Option<real>, threshold: real) {
    laplacianVar.None? || laplacianVar.value < threshold
  }

  /** A readable frame that is not black has mean at least 10 and a dark share within the threshold. */
  lemma NotBlackMeans(img: Option<Gray>, threshold: real)
    ensures !IsBlackFrame(img, threshold) <==> img.Some? && img.value.mean >= 10.0 && img.value.darkRatio <= threshold
  {
  }

  // =====================================================================
  // `extract_best_frame`

  /** What grabbing a candidate gave: the grab raised, the frame is black, or its quality score. */
  datatype Shot = Failed | Black | Scored(score: real)

  function Max(a: real, b: real): real {
    if a >= b then a else b
  }

  /** The candidate times: from `max(0, t - w)` by `step` while at most `t + w`. */
  function Candidates(t: real, w: real, step: real): seq<real>
    requires step > 0.0
  {
    PointsUpTo(Max(0.0, t - w), t + w, step)
  }

  /** The best candidate so far as `(time, score)`; `None` while the best score is the initial -1. */
  function Best(cands: seq<real>, shoot: real -> Shot): Option<(real, real)> {
    if cands == [] then None
    else
      var best := Best(cands[..|cands| - 1], shoot);
      var shot := shoot(cands[|cands| - 1]);
      var bestScore := if best.Some? then best.value.1 else -1.0;
      if shot.Scored? && shot.score > bestScore then Some((cands[|cands| - 1], shot.score)) else best
  }

  /** The time `extract_best_frame` returns. */
  function BestTime(t: real, w: real, step: real, shoot: real -> Shot): real
    requires step > 0.0
  {
    match Best(Candidates(t, w, step), shoot)
    case None => t
    case Some(b) => b.0
  }

  method ExtractBestFrame(t: real, w: real, step: real, shoot: real -> Shot) returns (bestTs: real)
    requires step > 0.0
    ensures bestTs == BestTime(t, w, step, shoot)
  {
    var cands := CandidateTimes(t, w, step);
    var found := false;
    var bestScore := -1.0;
    bestTs := t;
    var i := 0;
    while i < |cands|
      invariant 0 <= i <= |cands|
      invariant Best(cands[..i], shoot) == if found then Some((bestTs, bestScore)) else None
      invariant !found ==> bestScore == -1.0 && bestTs == t
    {
      assert cands[..i + 1][..i] == cands[..i];
      var ts := cands[i];
      var shot := shoot(ts);
      if shot.Failed? || shot.Black? {
        i := i + 1;
        continue;
      }
      if shot.score > bestScore {
        bestScore := shot.score;
        bestTs := ts;
        found := true;
      }
      i := i + 1;
    }
    assert cands[..i] == cands;
  }

  /** The candidate loop. */
  method CandidateTimes(t: real, w: real, step: real) returns (cands: seq<real>)
    requires step > 0.0
    ensures cands == Candidates(t, w, step)
  {
    var start := if 0.0 >= t - w then 0.0 else t - w;
    var end := t + w;
    ghost var points := PointsUpTo(start, end, step);
    cands := [];
    var current := start;
    ghost var k: nat := 0;
    while current <= end
      invariant k <= |points| && current == Point(start, step, k)
      invariant cands == points[..k]
      decreases |points| - k
    {
      CountUpToSpec(start, end, step, k);
      assert points[..k + 1] == points[..k] + [current];
      cands := cands + [current];
      PointStride(start, step, k);
      current := current + step;
      k := k + 1;
    }
    CountUpToSpec(start, end, step, k);
    assert points[..k] == points;
  }

  /** Candidate `i` is the one picked: its shot scored above -1, above every earlier one, and no later one scored higher. */
  predicate PickedAt(cands: seq<real>, shoot: real -> Shot, i: int, b: (real, real)) {
    0 <= i < |cands| && cands[i] == b.0 && shoot(cands[i]) == Scored(b.1) && b.1 > -1.0 &&
    (forall j :: 0 <= j < i && shoot(cands[j]).Scored? ==> shoot(cands[j]).score < b.1) &&
    (forall j :: i < j < |cands| && shoot(cands[j]).Scored? ==> shoot(cands[j]).score <= b.1)
  }

  /** No candidate beats the initial -1 exactly when none is picked; otherwise the first strictly highest is. */
  lemma {:induction false} BestSpec(cands: seq<real>, shoot: real -> Shot)
    ensures Best(cands, shoot).None? <==>
              forall i :: 0 <= i < |cands| && shoot(cands[i]).Scored? ==> shoot(cands[i]).score <= -1.0
    ensures Best(cands, shoot).Some? ==> exists i :: PickedAt(cands, shoot, i, Best(cands, shoot).value)
  {
    if cands != [] {
      var n := |cands| - 1;
      var init := cands[..n];
      BestSpec(init, shoot);
      var best := Best(init, shoot);
      var shot := shoot(cands[n]);
      var bestScore := if best.Some? then best.value.1 else -1.0;
      assert forall j :: 0 <= j < n ==> init[j] == cands[j];
      if shot.Scored? && shot.score > bestScore {
        var b := (cands[n], shot.score);
        if best.Some? {
          var i :| PickedAt(init, shoot, i, best.value);
          forall j | 0 <= j < n && shoot(cands[j]).Scored?
            ensures shoot(cands[j]).score < b.1
          {
            assert init[j] == cands[j];
          }
        }
        assert PickedAt(cands, shoot, n, b);
      } else if best.Some? {
        var i :| PickedAt(init, shoot, i, best.value);
        assert PickedAt(cands, shoot, i, best.value);
      }
    }
  }

  /** The returned time is the target itself or one of the candidates, inside the search window. */
  lemma BestTimeInWindow(t: real, w: real, step: real, shoot: real -> Shot)
    requires step > 0.0
    ensures BestTime(t, w, step, shoot) == t ||
            (Max(0.0, t - w) <= BestTime(t, w, step, shoot) <= t + w &&
             BestTime(t, w, step, shoot) in Candidates(t, w, step))
  {
    var cands := Candidates(t, w, step);
    BestSpec(cands, shoot);
    var best := Best(cands, shoot);
    if best.Some? {
      var i :| PickedAt(cands, shoot, i, best.value);
      CountUpToSpec(Max(0.0, t - w), t + w, step, i);
      assert i as real * step >= 0.0;
    }
  }

  // =====================================================================
  // `resize_for_api`: the new dimensions

  /** The image kept as it is, or resized to `(height, width)`. */
  datatype Resize = Unchanged | Resized(height: int, width: int)

  /** The new `(height, width)` of an image whose sides are `h` and `w`. */
  function ResizeDims(h: int, w: int, maxSize: int): Resize
    requires h >= 0 && w >= 0 && maxSize >= 0
  {
    if (if h >= w then h else w) <= maxSize then Unchanged
    else if h > w then Resized(maxSize, w * maxSize / h)
    else Resized(h * maxSize / w, maxSize)
  }

  /** `img` is the image's `(height, width)`, `None` when it cannot be read. */
  function ResizeForApi(img: Option<(int, int)>, maxSize: int): (r: Result<Resize>)
    requires img.Some? ==> img.value.0 >= 0 && img.value.1 >= 0
    requires maxSize >= 0
    ensures img.None? <==> r.Failure?
  {
    if img.None? then Failure("Cannot read image")
    else Success(ResizeDims(img.value.0, img.value.1, maxSize))
  }

  /** Integer division by a positive `b` of a value in `[0, y * b]` lies in `[0, y]`. */
  lemma DivAtMost(x: int, b: int, y: int)
    requires b > 0 && 0 <= x <= y * b
    ensures 0 <= x / b <= y
  {
    var q := x / b;
    assert x == q * b + x % b;
    assert (q - y) * b <= 0;
    assert (q + 1) * b > 0;
  }

  lemma MulMono(a: int, x: int, y: int)
    requires a >= 0 && x <= y
    ensures 0 <= a * (y - x) && a * x <= a * y
  {
  }

  /** `a * m / b` for `a <= b` and `m < b` lies in `[0, a]` and is at most `m`. */
  lemma ShrinkSide(a: int, m: int, b: int)
    requires 0 <= a <= b && 0 <= m < b
    ensures 0 <= a * m / b <= a
    ensures a * m / b <= m
  {
    MulMono(a, m, b);
    MulMono(m, a, b);
    DivAtMost(a * m, b, a);
    DivAtMost(a * m, b, m);
  }

  /** The resized sides: neither grows, neither exceeds `maxSize`, and one of them is `maxSize`. */
  predicate ShrunkTo(r: Resize, h: int, w: int, maxSize: int) {
    r.Resized? ==>
      0 <= r.height <= h && 0 <= r.width <= w && r.height <= maxSize && r.width <= maxSize &&
      (r.height == maxSize || r.width == maxSize)
  }

  /**
   * An image whose longer side is within `maxSize` is kept; otherwise the
   * longer side becomes `maxSize` and the shorter one is scaled by the same
   * factor and truncated.
   */
  lemma ResizeSpec(h: int, w: int, maxSize: int)
    requires h >= 0 && w >= 0 && maxSize >= 0
    ensures ResizeDims(h, w, maxSize).Unchanged? <==> h <= maxSize && w <= maxSize
    ensures ShrunkTo(ResizeDims(h, w, maxSize), h, w, maxSize)
  {
    if (if h >= w then h else w) > maxSize {
      if h > w {
        ShrinkSide(w, maxSize, h);
      } else {
        ShrinkSide(h, maxSize, w);
      }
    }
  }

  // =====================================================================
  // `extract_keyframes` and `sample_uniform_frames`

  /** One extracted keyframe: its time, the image file, the blur verdict and its index in the input. */
  datatype FrameInfo = FrameInfo(timestamp: real, path: string, isBlurry: bool, index: nat)

  /** `output_dir / f"frame_{i:04d}_{ts:.3f}.jpg"` */
  function FramePath(dir: string, i: nat, ts: real): string {
    dir + "/frame_" + PadNat(i, 4) + "_" + Fixed(ts, 3) + ".jpg"
  }

  /**
   * The kept frames; `grab(i)` is `None` when ffmpeg failed on frame `i`,
   * else whether `is_blurry` judged the extracted image blurry.
   */
  function Keyframes(times: seq<real>, dir: string, grab: nat -> Option<bool>, filterBlurry: bool): seq<FrameInfo> {
    if times == [] then []
    else
      var n := |times| - 1;
      Keyframes(times[..n], dir, grab, filterBlurry) +
      (if grab(n).Some? then [FrameInfo(times[n], FramePath(dir, n, times[n]), filterBlurry && grab(n).value, n)] else [])
  }

  method ExtractKeyframes(times: seq<real>, dir: string, grab: nat -> Option<bool>, filterBlurry: bool)
    returns (keyframes: seq<FrameInfo>)
    ensures keyframes == Keyframes(times, dir, grab, filterBlurry)
  {
    keyframes := [];
    var i := 0;
    while i < |times|
      invariant 0 <= i <= |times|
      invariant keyframes == Keyframes(times[..i], dir, grab, filterBlurry)
    {
      KeyframesStep(times, dir, grab, filterBlurry, i);
      var ts := times[i];
      var outputPath := FramePath(dir, i, ts);
      var got := grab(i);
      if got.None? {
        assert keyframes == Keyframes(times[..i + 1], dir, grab, filterBlurry);
        i := i + 1;
        continue;
      }
      var blurry := false;
      if filterBlurry {
        blurry := got.value;
      }
      assert blurry == (filterBlurry && grab(i).value);
      keyframes := keyframes + [FrameInfo(ts, outputPath, blurry, i)];
      i := i + 1;
    }
    assert times[..i] == times;
  }

  /** The loop's step: frame `i` is added exactly when its grab succeeded. */
  lemma KeyframesStep(times: seq<real>, dir: string, grab: nat -> Option<bool>, filterBlurry: bool, i: nat)
    requires i < |times|
    ensures Keyframes(times[..i + 1], dir, grab, filterBlurry) ==
            Keyframes(times[..i], dir, grab, filterBlurry) +
            (if grab(i).Some? then [FrameInfo(times[i], FramePath(dir, i, times[i]), filterBlurry && grab(i).value, i)] else [])
  {
    assert times[..i + 1][..i] == times[..i];
  }

  /** Each kept frame carries the time at its input index, from a grab that succeeded, and its blur verdict. */
  predicate KeptFromInput(r: seq<FrameInfo>, times: seq<real>, grab: nat -> Option<bool>, filterBlurry: bool) {
    forall k :: 0 <= k < |r| ==>
      r[k].index < |times| && r[k].timestamp == times[r[k].index] && grab(r[k].index).Some? &&
      r[k].isBlurry == (filterBlurry && grab(r[k].index).value)
  }

  predicate IndicesIncrease(r: seq<FrameInfo>) {
    forall k, l :: 0 <= k < l < |r| ==> r[k].index < r[l].index
  }

  /** Every grab that succeeded has its frame kept. */
  predicate NoneDropped(r: seq<FrameInfo>, times: seq<real>, grab: nat -> Option<bool>) {
    forall i :: 0 <= i < |times| && grab(i).Some? ==> exists k :: 0 <= k < |r| && r[k].index == i
  }

  /** Each kept frame comes from a successful grab of its input index, with that index's time. */
  lemma {:induction false} KeyframesFromInput(times: seq<real>, dir: string, grab: nat -> Option<bool>, filterBlurry: bool)
    ensures KeptFromInput(Keyframes(times, dir, grab, filterBlurry), times, grab, filterBlurry)
  {
    if times != [] {
      var n := |times| - 1;
      KeyframesFromInput(times[..n], dir, grab, filterBlurry);
      var pre := Keyframes(times[..n], dir, grab, filterBlurry);
      var r := Keyframes(times, dir, grab, filterBlurry);
      forall k | 0 <= k < |r|
        ensures r[k].index < |times| && r[k].timestamp == times[r[k].index] && grab(r[k].index).Some? &&
                r[k].isBlurry == (filterBlurry && grab(r[k].index).value)
      {
        if k < |pre| {
          assert r[k] == pre[k];
          assert times[..n][pre[k].index] == times[pre[k].index];
        }
      }
    }
  }

  /** The kept frames are in input order. */
  lemma {:induction false} KeyframesIncrease(times: seq<real>, dir: string, grab: nat -> Option<bool>, filterBlurry: bool)
    ensures IndicesIncrease(Keyframes(times, dir, grab, filterBlurry))
  {
    if times != [] {
      var n := |times| - 1;
      KeyframesIncrease(times[..n], dir, grab, filterBlurry);
      KeyframesFromInput(times[..n], dir, grab, filterBlurry);
      var pre := Keyframes(times[..n], dir, grab, filterBlurry);
      var r := Keyframes(times, dir, grab, filterBlurry);
      var tail := if grab(n).Some? then [FrameInfo(times[n], FramePath(dir, n, times[n]), filterBlurry && grab(n).value, n)] else [];
      assert r == pre + tail;
      forall k, l | 0 <= k < l < |r|
        ensures r[k].index < r[l].index
      {
        assert r[k] == pre[k];
        assert pre[k].index < n;
        if l < |pre| {
          assert r[l] == pre[l];
        } else {
          assert r[l] == tail[0];
        }
      }
    }
  }

  /** No successful grab is dropped. */
  lemma {:induction false} KeyframesComplete(times: seq<real>, dir: string, grab: nat -> Option<bool>, filterBlurry: bool)
    ensures NoneDropped(Keyframes(times, dir, grab, filterBlurry), times, grab)
  {
    if times != [] {
      var n := |times| - 1;
      KeyframesComplete(times[..n], dir, grab, filterBlurry);
      var pre := Keyframes(times[..n], dir, grab, filterBlurry);
      var r := Keyframes(times, dir, grab, filterBlurry);
      assert |pre| <= |r| && forall k :: 0 <= k < |pre| ==> r[k] == pre[k];
      assert grab(n).Some? ==> |r| == |pre| + 1 && r[|pre|].index == n;
      forall i | 0 <= i < |times| && grab(i).Some?
        ensures exists k :: 0 <= k < |r| && r[k].index == i
      {
        if i < n {
          assert NoneDropped(pre, times[..n], grab);
          var k :| 0 <= k < |pre| && pre[k].index == i;
          assert r[k].index == i;
        } else {
          assert r[|pre|].index == i;
        }
      }
    }
  }

  /** The sampling loop of `sample_uniform_frames`: `0, i, 2i, ...` while below the duration. */
  method SampleTimes(duration: real, interval: real) returns (times: seq<real>)
    requires interval > 0.0 || duration <= 0.0
    ensures duration <= 0.0 ==> times == []
    ensures interval > 0.0 ==> times == PointsBelow(0.0, duration, interval)
  {
    times := [];
    if duration <= 0.0 {
      if interval > 0.0 {
        CountBelowSpec(0.0, duration, interval, 0);
      }
      return;
    }
    ghost var points := PointsBelow(0.0, duration, interval);
    var current := 0.0;
    ghost var k: nat := 0;
    while current < duration
      invariant k <= |points| && current == Point(0.0, interval, k)
      invariant times == points[..k]
      decreases |points| - k
    {
      CountBelowSpec(0.0, duration, interval, k);
      assert points[..k + 1] == points[..k] + [current];
      times := times + [current];
      PointStride(0.0, interval, k);
      current := current + interval;
      k := k + 1;
    }
    CountBelowSpec(0.0, duration, interval, k);
    assert points[..k] == points;
  }

  predicate Increasing(r: seq<real>) {
    forall k, l :: 0 <= k < l < |r| ==> r[k] < r[l]
  }

  /** The sampled times lie in `[0, duration)`, increase, and the next one would reach the duration. */
  lemma SampleTimesSpec(duration: real, interval: real)
    requires interval > 0.0
    ensures forall k :: 0 <= k < |PointsBelow(0.0, duration, interval)| ==>
              0.0 <= PointsBelow(0.0, duration, interval)[k] < duration
    ensures Increasing(PointsBelow(0.0, duration, interval))
    ensures Point(0.0, interval, |PointsBelow(0.0, duration, interval)|) >= duration
  {
    PointsBelowRange(0.0, duration, interval);
    var r := PointsBelow(0.0, duration, interval);
    forall k, l | 0 <= k < l < |r|
      ensures r[k] < r[l]
    {
      PointsIncrease(0.0, interval, k, l);
    }
  }

  /** `sample_uniform_frames`: the sampled times, extracted. */
  method SampleUniformFrames(duration: real, interval: real, dir: string, grab: nat -> Option<bool>)
    returns (frames: seq<FrameInfo>)
    requires interval > 0.0 || duration <= 0.0
    ensures interval > 0.0 ==> frames == Keyframes(PointsBelow(0.0, duration, interval), dir, grab, true)
    ensures duration <= 0.0 ==> frames == []
  {
    var times := SampleTimes(duration, interval);
    frames := ExtractKeyframes(times, dir, grab, true);
  }
}
