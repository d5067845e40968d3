/**
 * The chunk schedule of `split_audio` (src/video2markdown/audio.py): an
 * audio track of `duration` seconds is cut into pieces of at most
 * `segmentDuration` seconds, each starting `segmentDuration - overlap`
 * seconds after the previous one. Running ffmpeg is not modelled; a chunk
 * is the file name and the `-ss` / `-t` arguments it would be given.
 */
module Audio {
  import opened Strings
  import opened Grid

  /** One ffmpeg cut: the output file, the start second and the end (`-t` is `end - start`). */
  datatype Chunk = Chunk(path: string, start: int, end: real)

  function Min(a: real, b: real): real {
    if a <= b then a else b
  }

  /** `settings.temp_dir / f"{stem}_seg{idx:04d}.wav"` */
  function ChunkPath(dir: string, stem: string, idx: nat): string {
    dir + "/" + stem + "_seg" + PadNat(idx, 4) + ".wav"
  }

  /** The k-th chunk: it starts at `k * (d - o)` and ends at the start plus `d`, or at the end of the track. */
  function ChunkAt(dir: string, stem: string, duration: real, d: int, o: int, k: nat): Chunk {
    var start := k * (d - o);
    Chunk(ChunkPath(dir, stem, k), start, Min(start as real + d as real, duration))
  }

  /** All chunks: one per start below the duration. */
  function Chunks(dir: string, stem: string, duration: real, d: int, o: int): (r: seq<Chunk>)
    requires o < d
  {
    seq(CountBelow(0.0, duration, (d - o) as real), k requires 0 <= k => ChunkAt(dir, stem, duration, d, o, k))
  }

  /**
   * `split_audio`. The loop only ends when the start moves forward, so the
   * source hangs unless `overlap < segment_duration` (or the track is empty).
   */
  method SplitAudio(dir: string, stem: string, duration: real, segmentDuration: int, overlap: int)
    returns (segments: seq<Chunk>)
    requires overlap < segmentDuration || duration <= 0.0
    ensures duration <= 0.0 ==> segments == []
    ensures overlap < segmentDuration ==> segments == Chunks(dir, stem, duration, segmentDuration, overlap)
  {
    segments := [];
    if duration <= 0.0 {
      return;
    }
    var step := segmentDuration - overlap;
    ghost var n := CountBelow(0.0, duration, step as real);
    var start := 0;
    var segmentIdx := 0;
    while (start as real) < duration
      invariant segmentIdx <= n && start == segmentIdx * step
      invariant segments == Chunks(dir, stem, duration, segmentDuration, overlap)[..segmentIdx]
      decreases n - segmentIdx
    {
      StartBelow(duration, step, segmentIdx);
      var end := Min(start as real + segmentDuration as real, duration);
      var segmentPath := ChunkPath(dir, stem, segmentIdx);
      segments := segments + [Chunk(segmentPath, start, end)];
      start := start + step;
      segmentIdx := segmentIdx + 1;
    }
    StartBelow(duration, step, segmentIdx);
  }

  /** The k-th start lies below the duration exactly when there is a k-th chunk. */
  lemma StartBelow(duration: real, step: int, k: nat)
    requires step > 0
    ensures k < CountBelow(0.0, duration, step as real) <==> ((k * step) as real) < duration
  {
    CountBelowSpec(0.0, duration, step as real, k);
    assert Point(0.0, step as real, k) == (k * step) as real;
  }

  /**
   * Every chunk starts below the duration and ends after its start, at most
   * `d` seconds later; each start is `d - o` after the previous one.
   */
  lemma ChunksShape(dir: string, stem: string, duration: real, d: int, o: int)
    requires o < d
    ensures forall k :: 0 <= k < |Chunks(dir, stem, duration, d, o)| ==>
              var c := Chunks(dir, stem, duration, d, o)[k];
              c.start == k * (d - o) && (c.start as real) < duration &&
              c.end - c.start as real <= d as real &&
              (d > 0 ==> c.end > c.start as real) &&
              c.path == ChunkPath(dir, stem, k)
    ensures forall k :: 0 < k < |Chunks(dir, stem, duration, d, o)| ==>
              Chunks(dir, stem, duration, d, o)[k].start == Chunks(dir, stem, duration, d, o)[k - 1].start + (d - o)
  {
    var r := Chunks(dir, stem, duration, d, o);
    forall k | 0 <= k < |r|
      ensures r[k].start == k * (d - o) && (r[k].start as real) < duration &&
              r[k].end - r[k].start as real <= d as real &&
              (d > 0 ==> r[k].end > r[k].start as real) &&
              r[k].path == ChunkPath(dir, stem, k)
    {
      StartBelow(duration, d - o, k);
    }
    forall k | 0 < k < |r|
      ensures r[k].start == r[k - 1].start + (d - o)
    {
      NextStart(k - 1, d - o);
    }
  }

  lemma NextStart(k: nat, step: int)
    ensures (k + 1) * step == k * step + step
  {
  }

  /** With a non-negative overlap the last chunk ends at the end of the track. */
  lemma LastChunkEnds(dir: string, stem: string, duration: real, d: int, o: int)
    requires 0 <= o < d && duration > 0.0
    ensures |Chunks(dir, stem, duration, d, o)| > 0
    ensures Chunks(dir, stem, duration, d, o)[|Chunks(dir, stem, duration, d, o)| - 1].end == duration
  {
    var r := Chunks(dir, stem, duration, d, o);
    StartBelow(duration, d - o, 0);
    var n := |r|;
    StartBelow(duration, d - o, n);
    assert ((n - 1) * (d - o) + (d - o)) as real >= duration;
    assert (n - 1) * (d - o) + d >= (n - 1) * (d - o) + (d - o);
  }

  /** With a non-negative overlap the chunks leave no gap: every instant of the track lies in one. */
  lemma ChunksCover(dir: string, stem: string, duration: real, d: int, o: int, t: real)
    requires 0 <= o < d && 0.0 <= t <= duration && duration > 0.0
    ensures exists k :: 0 <= k < |Chunks(dir, stem, duration, d, o)| &&
              Chunks(dir, stem, duration, d, o)[k].start as real <= t <= Chunks(dir, stem, duration, d, o)[k].end
  {
    var r := Chunks(dir, stem, duration, d, o);
    var step := d - o;
    LastChunkEnds(dir, stem, duration, d, o);
    if t == duration {
      var k := |r| - 1;
      StartBelow(duration, step, k);
      assert r[k].start as real <= t <= r[k].end;
    } else {
      var k := Slot(t, step);
      StartBelow(duration, step, k);
      NextStart(k, step);
      assert r[k].start == k * step;
      assert r[k].start as real <= t <= r[k].end;
    }
  }

  /** The start `k * step` at or before `t` with the next start after `t`. */
  lemma Slot(t: real, step: int) returns (k: nat)
    requires t >= 0.0 && step > 0
    ensures (k * step) as real <= t < ((k + 1) * step) as real
  {
    var y := t / step as real;
    assert y * step as real == t;
    k := y.Floor;
    assert k as real <= y < (k + 1) as real;
    Grid.ScaleStrict(k as real, y, step as real);
    Grid.ScaleStrict(y, (k + 1) as real, step as real);
    assert (k * step) as real == k as real * step as real;
    assert ((k + 1) * step) as real == (k + 1) as real * step as real;
  }

  /** From the test suite: 12 s cut into 5 s pieces with 1 s overlap gives the starts 0, 4 and 8. */
  lemma TwelveSecondsExample()
    ensures |Chunks("tmp", "a", 12.0, 5, 1)| == 3
    ensures Chunks("tmp", "a", 12.0, 5, 1)[2].start == 8 && Chunks("tmp", "a", 12.0, 5, 1)[2].end == 12.0
  {
    StartBelow(12.0, 4, 2);
    StartBelow(12.0, 4, 3);
  }
}
