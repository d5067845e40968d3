/**
 * `asr.py`: the text layout of transcripts (`format_timestamp`, the SRT
 * file), the merging of short segments, the reading of Whisper's
 * `verbose_json` reply and the fallback of `ASRProcessor.process_video`.
 * The transcription back-ends themselves (the API, faster-whisper,
 * whisper.cpp) are not modelled: what they return is an input.
 */
module Asr {
  import opened Wrappers
  import opened Strings
  import opened Seqs
  import opened Json
  import opened Models

  const FallbackText := "[音频转录失败。请检查 ASR 配置或模型是否正确加载。]"

  // =====================================================================
  // `format_timestamp`

  /** `HH:MM:SS.mmm`, the fields computed as `to_srt_time` computes them. */
  function FormatTimestamp(seconds: real): string {
    Clock(seconds, '.')
  }

  /**
   * Below 100 hours the text is twelve characters `HH:MM:SS.mmm` whose
   * fields read back as the whole seconds and the milliseconds.
   */
  lemma FormatTimestampReadsBack(seconds: real)
    requires 0.0 <= seconds < 360000.0
    ensures var c := FormatTimestamp(seconds);
            |c| == 12 && c[2] == ':' && c[5] == ':' && c[8] == '.' &&
            DigitsValue(c[..2]) * 3600 + DigitsValue(c[3..5]) * 60 + DigitsValue(c[6..8]) == seconds.Floor &&
            DigitsValue(c[3..5]) < 60 && DigitsValue(c[6..8]) < 60 &&
            DigitsValue(c[9..]) == ((seconds - seconds.Floor as real) * 1000.0).Floor
  {
    var w := seconds.Floor;
    var ms := ((seconds - w as real) * 1000.0).Floor;
    assert 0 <= ms < 1000 by {
      assert 0.0 <= seconds - w as real < 1.0;
    }
    var h, m, sec := w / 3600, (w % 3600) / 60, w % 60;
    assert 0 <= h < 100 && 0 <= m < 60 && 0 <= sec < 60;
    assert h * 3600 + m * 60 + sec == w;
    ClockAt(seconds, h, m, sec, ms, '.');
    ClockTextShape(h, m, sec, ms, '.');
  }

  /** The texts of the examples below, each padded field by field. */
  lemma ZeroText()
    ensures ClockText(0, 0, 0, 0, '.') == "00:00:00.000"
  {
    PadFacts();
  }

  lemma SecondsText()
    ensures ClockText(0, 0, 45, 500, '.') == "00:00:45.500"
  {
    PadFacts();
  }

  lemma MinutesText()
    ensures ClockText(0, 2, 5, 0, '.') == "00:02:05.000"
  {
    PadFacts();
  }

  lemma HoursText()
    ensures ClockText(1, 1, 1, 500, '.') == "01:01:01.500"
  {
    PadFacts();
  }

  lemma FormatTimestampExamples()
    ensures FormatTimestamp(0.0) == "00:00:00.000"
    ensures FormatTimestamp(45.5) == "00:00:45.500"
    ensures FormatTimestamp(125.0) == "00:02:05.000"
    ensures FormatTimestamp(3661.5) == "01:01:01.500"
  {
    ZeroText();
    SecondsText();
    MinutesText();
    HoursText();
    ClockAt(0.0, 0, 0, 0, 0, '.');
    assert (45.5).Floor == 45;
    ClockAt(45.5, 0, 0, 45, 500, '.');
    assert (125.0).Floor == 125;
    ClockAt(125.0, 0, 2, 5, 0, '.');
    assert (3661.5).Floor == 3661;
    ClockAt(3661.5, 1, 1, 1, 500, '.');
  }

  // =====================================================================
  // `save_transcript_to_srt`: the text the file receives

  /** One block: `{i}\n{start} --> {end}\n{text}\n\n`. */
  function SrtBlock(seg: Segment, index: int): string {
    IntText(index) + "\n" + FormatTimestamp(seg.start) + " --> " + FormatTimestamp(seg.end) + "\n" + seg.text + "\n\n"
  }

  /** The block of the segment at position `i`, numbered `i + 1`. */
  function BlockAt(seg: Segment, i: nat): string {
    SrtBlock(seg, i + 1)
  }

  /** The blocks, numbered from 1, in order. */
  function SrtBlocks(segs: seq<Segment>): seq<string> {
    MapIndexed(segs, BlockAt)
  }

  /** The file's content. */
  function SrtFile(segs: seq<Segment>): string {
    Concat(SrtBlocks(segs))
  }

  method SaveTranscriptToSrt(segs: seq<Segment>) returns (content: string)
    ensures content == SrtFile(segs)
  {
    content := "";
    var i := 0;
    while i < |segs|
      invariant 0 <= i <= |segs|
      invariant content == SrtFile(segs[..i])
    {
      MapIndexedPrefix(segs[..i + 1], BlockAt, i);
      assert segs[..i + 1][..i] == segs[..i];
      content := content + SrtBlock(segs[i], i + 1);
      i := i + 1;
    }
    assert segs[..i] == segs;
  }

  lemma FirstBlockText()
    ensures SrtBlock(Segment(0.0, 5.0, "First line"), 1) ==
            "1" + "\n" + "00:00:00.000" + " --> " + "00:00:05.000" + "\n" + "First line" + "\n\n"
  {
    ZeroText();
    ClockAt(0.0, 0, 0, 0, 0, '.');
    FiveText();
    assert (5.0).Floor == 5;
    ClockAt(5.0, 0, 0, 5, 0, '.');
    assert IntText(1) == "1";
  }

  lemma SecondBlockText()
    ensures SrtBlock(Segment(5.0, 10.0, "Second line"), 2) ==
            "2" + "\n" + "00:00:05.000" + " --> " + "00:00:10.000" + "\n" + "Second line" + "\n\n"
  {
    FiveText();
    assert (5.0).Floor == 5;
    ClockAt(5.0, 0, 0, 5, 0, '.');
    TenText();
    assert (10.0).Floor == 10;
    ClockAt(10.0, 0, 0, 10, 0, '.');
    assert IntText(2) == "2";
  }

  lemma FiveText()
    ensures ClockText(0, 0, 5, 0, '.') == "00:00:05.000"
  {
    PadFacts();
  }

  lemma TenText()
    ensures ClockText(0, 0, 10, 0, '.') == "00:00:10.000"
  {
    PadFacts();
  }

  /** A two-segment file is the first block followed by the second. */
  lemma SrtFilePair(a: Segment, b: Segment)
    ensures SrtFile([a, b]) == SrtBlock(a, 1) + SrtBlock(b, 2)
  {
    MapIndexedPair(a, b, BlockAt);
    ConcatPair(SrtBlock(a, 1), SrtBlock(b, 2));
  }

  /** The two-segment file: both blocks, numbered, with their arrow lines. */
  lemma SrtFileExample()
    ensures SrtFile([Segment(0.0, 5.0, "First line"), Segment(5.0, 10.0, "Second line")]) ==
            ("1" + "\n" + "00:00:00.000" + " --> " + "00:00:05.000" + "\n" + "First line" + "\n\n") +
            ("2" + "\n" + "00:00:05.000" + " --> " + "00:00:10.000" + "\n" + "Second line" + "\n\n")
  {
    FirstBlockText();
    SecondBlockText();
    SrtFilePair(Segment(0.0, 5.0, "First line"), Segment(5.0, 10.0, "Second line"));
  }

  // =====================================================================
  // `merge_short_segments`

  /** The run being built, and the segments already emitted. */
  datatype Run = Run(merged: seq<Segment>, current: Segment)

  /** The run extended to the end of `seg`, texts joined by a space. */
  function Joined(current: Segment, seg: Segment): Segment {
    Segment(current.start, seg.end, current.text + " " + seg.text)
  }

  /** A run cut at its time midpoint, the text at half its length. */
  function Halves(current: Segment): (r: seq<Segment>)
    ensures |r| == 2 && r[0].start == current.start && r[1].end == current.end && r[0].end == r[1].start
    ensures r[0].text + r[1].text == current.text
  {
    var mid := (current.start + current.end) / 2.0;
    var h := |current.text| / 2;
    assert current.text[..h] + current.text[h..] == current.text;
    [Segment(current.start, mid, current.text[..h]), Segment(mid, current.end, current.text[h..])]
  }

  /**
   * Whether the run is cut when it is closed. As written the measure is
   * `duration`, the span from the run's start to the end of the segment
   * that closes it; `corrected` measures the run's own span instead.
   */
  predicate CutsRun(current: Segment, seg: Segment, max: real, corrected: bool) {
    if corrected then current.end - current.start > max else seg.end - current.start > max
  }

  function MergeStep(r: Run, seg: Segment, min: real, max: real, corrected: bool): Run {
    if seg.end - r.current.start < min then Run(r.merged, Joined(r.current, seg))
    else if CutsRun(r.current, seg, max, corrected) then Run(r.merged + Halves(r.current), seg)
    else Run(r.merged + [r.current], seg)
  }

  /** The state after the loop has seen `rest`, starting from the run `first`. */
  function MergeRuns(first: Segment, rest: seq<Segment>, min: real, max: real, corrected: bool): Run {
    if rest == [] then Run([], first)
    else MergeStep(MergeRuns(first, rest[..|rest| - 1], min, max, corrected), rest[|rest| - 1], min, max, corrected)
  }

  function MergedBy(segs: seq<Segment>, min: real, max: real, corrected: bool): seq<Segment> {
    if segs == [] then []
    else
      var r := MergeRuns(segs[0], segs[1..], min, max, corrected);
      r.merged + [r.current]
  }

  /** `merge_short_segments` as written. */
  function Merged(segs: seq<Segment>, min: real, max: real): seq<Segment> {
    MergedBy(segs, min, max, false)
  }

  /** `merge_short_segments` with the cut decided by the run's own span. */
  function MergedCorrected(segs: seq<Segment>, min: real, max: real): seq<Segment> {
    MergedBy(segs, min, max, true)
  }

  method MergeShortSegments(segments: seq<Segment>, min: real, max: real) returns (merged: seq<Segment>)
    ensures merged == Merged(segments, min, max)
  {
    if segments == [] {
      return [];
    }
    merged := [];
    var current := segments[0];
    var rest := segments[1..];
    var i := 0;
    while i < |rest|
      invariant 0 <= i <= |rest|
      invariant Run(merged, current) == MergeRuns(segments[0], rest[..i], min, max, false)
    {
      var seg := rest[i];
      assert rest[..i + 1][..i] == rest[..i];
      var duration := seg.end - current.start;
      if duration < min {
        current := Segment(current.start, seg.end, current.text + " " + seg.text);
      } else {
        if duration > max {
          var mid := (current.start + current.end) / 2.0;
          merged := merged + [Segment(current.start, mid, current.text[..|current.text| / 2])];
          merged := merged + [Segment(mid, current.end, current.text[|current.text| / 2..])];
        } else {
          merged := merged + [current];
        }
        current := seg;
      }
      i := i + 1;
    }
    assert rest[..i] == rest;
    merged := merged + [current];
  }

  /** The texts of a list of segments. */
  function Texts(segs: seq<Segment>): seq<string> {
    Map(segs, SegText)
  }

  /** The empty list stays empty, and a single segment comes back unchanged. */
  lemma MergedSmall(segs: seq<Segment>, min: real, max: real, corrected: bool)
    requires |segs| <= 1
    ensures MergedBy(segs, min, max, corrected) == segs
  {
    if segs != [] {
      assert segs[1..] == [];
    }
  }

  /** The output starts where the first segment starts and ends where the last segment ends. */
  lemma {:induction false} MergeRunsEnds(first: Segment, rest: seq<Segment>, min: real, max: real, corrected: bool)
    ensures var r := MergeRuns(first, rest, min, max, corrected);
            r.current.end == (if rest == [] then first.end else rest[|rest| - 1].end) &&
            (r.merged == [] ==> r.current.start == first.start) &&
            (r.merged != [] ==> r.merged[0].start == first.start)
  {
    if rest != [] {
      MergeRunsEnds(first, rest[..|rest| - 1], min, max, corrected);
    }
  }

  lemma MergedEnds(segs: seq<Segment>, min: real, max: real, corrected: bool)
    requires segs != []
    ensures var m := MergedBy(segs, min, max, corrected);
            m != [] && m[0].start == segs[0].start && m[|m| - 1].end == segs[|segs| - 1].end
  {
    MergeRunsEnds(segs[0], segs[1..], min, max, corrected);
  }

  /** Two segments whose joint span is under `min` become one run with both texts. */
  lemma MergedJoinsShort(a: Segment, b: Segment, min: real, max: real, corrected: bool)
    requires b.end - a.start < min
    ensures MergedBy([a, b], min, max, corrected) == [Segment(a.start, b.end, a.text + " " + b.text)]
  {
    assert [a, b][1..] == [b];
    assert [b][..0] == [];
    assert MergeRuns(a, [], min, max, corrected) == Run([], a);
    assert MergeRuns(a, [b], min, max, corrected) == Run([], Joined(a, b));
  }

  /** What the loop keeps: without a cut, the emitted and open runs hold the words seen so far. */
  predicate NoCut(first: Segment, rest: seq<Segment>, min: real, max: real, corrected: bool) {
    forall k :: 0 <= k < |rest| ==>
      var r := MergeRuns(first, rest[..k], min, max, corrected);
      !(rest[k].end - r.current.start >= min && CutsRun(r.current, rest[k], max, corrected))
  }

  /** The condition holds for every prefix of a list it holds for. */
  lemma NoCutPrefix(first: Segment, rest: seq<Segment>, n: nat, min: real, max: real, corrected: bool)
    requires n <= |rest|
    requires NoCut(first, rest, min, max, corrected)
    ensures NoCut(first, rest[..n], min, max, corrected)
  {
    var pre := rest[..n];
    forall k | 0 <= k < |pre|
      ensures var r := MergeRuns(first, pre[..k], min, max, corrected);
              !(pre[k].end - r.current.start >= min && CutsRun(r.current, pre[k], max, corrected))
    {
      assert pre[..k] == rest[..k];
      assert pre[k] == rest[k];
    }
  }

  /** The words of the emitted runs and the open run, joined as the output would join them. */
  function RunText(r: Run): string {
    Join(" ", Texts(r.merged + [r.current]))
  }

  /** A step that does not cut adds the segment's text after one more space. */
  lemma MergeStepText(r: Run, seg: Segment, min: real, max: real, corrected: bool)
    requires !(seg.end - r.current.start >= min && CutsRun(r.current, seg, max, corrected))
    ensures RunText(MergeStep(r, seg, min, max, corrected)) == RunText(r) + " " + seg.text
  {
    if seg.end - r.current.start < min {
      assert Texts(r.merged + [Joined(r.current, seg)]) == Texts(r.merged) + [r.current.text + " " + seg.text];
      assert Texts(r.merged + [r.current]) == Texts(r.merged) + [r.current.text];
      if r.merged == [] {
        assert Texts(r.merged + [r.current]) == [r.current.text];
      } else {
        JoinAppend(" ", Texts(r.merged), r.current.text);
        JoinAppend(" ", Texts(r.merged), r.current.text + " " + seg.text);
      }
    } else {
      var m := r.merged + [r.current];
      assert Texts(m + [seg]) == Texts(m) + [seg.text];
      JoinAppend(" ", Texts(m), seg.text);
    }
  }

  lemma {:induction false} MergeRunsText(first: Segment, rest: seq<Segment>, min: real, max: real, corrected: bool)
    requires NoCut(first, rest, min, max, corrected)
    ensures RunText(MergeRuns(first, rest, min, max, corrected)) == Join(" ", Texts([first] + rest))
  {
    if rest == [] {
      assert [first] + rest == [] + [first];
    } else {
      var n := |rest| - 1;
      var pre := rest[..n];
      var seg := rest[n];
      var r0 := MergeRuns(first, pre, min, max, corrected);
      NoCutPrefix(first, rest, n, min, max, corrected);
      MergeRunsText(first, pre, min, max, corrected);
      assert pre[..n] == pre;
      assert !(seg.end - r0.current.start >= min && CutsRun(r0.current, seg, max, corrected));
      MergeStepText(r0, seg, min, max, corrected);
      var whole := [first] + rest;
      assert whole == ([first] + pre) + [seg];
      assert Texts(whole) == Texts([first] + pre) + [seg.text];
      JoinAppend(" ", Texts([first] + pre), seg.text);
    }
  }

  /**
   * With the cut decided by the run's own span, a list of segments none
   * longer than `max` (and `min <= max`) loses no words: joining the output's
   * texts gives the input's texts joined.
   */
  lemma CorrectedKeepsText(segs: seq<Segment>, min: real, max: real)
    requires min <= max
    requires forall i :: 0 <= i < |segs| ==> segs[i].end - segs[i].start <= max
    ensures Join(" ", Texts(MergedCorrected(segs, min, max))) == Join(" ", Texts(segs))
  {
    if segs != [] {
      var first := segs[0];
      var rest := segs[1..];
      RunSpans(first, rest, min, max);
      assert [first] + rest == segs;
      MergeRunsText(first, rest, min, max, true);
    }
  }

  /** Under the corrected rule a run never spans more than `max` when every segment is that short. */
  lemma {:induction false} RunSpans(first: Segment, rest: seq<Segment>, min: real, max: real)
    requires min <= max
    requires first.end - first.start <= max
    requires forall i :: 0 <= i < |rest| ==> rest[i].end - rest[i].start <= max
    ensures MergeRuns(first, rest, min, max, true).current.end - MergeRuns(first, rest, min, max, true).current.start <= max
    ensures NoCut(first, rest, min, max, true)
  {
    if rest != [] {
      var n := |rest| - 1;
      var pre := rest[..n];
      RunSpans(first, pre, min, max);
      forall k | 0 <= k < |rest|
        ensures var r := MergeRuns(first, rest[..k], min, max, true);
                !(rest[k].end - r.current.start >= min && CutsRun(r.current, rest[k], max, true))
      {
        if k < n {
          assert rest[..k] == pre[..k];
          assert rest[k] == pre[k];
        } else {
          assert rest[..k] == pre;
        }
      }
    }
  }

  /**
   * As written, a four-second run is cut in two because the segment after
   * it ends 40 seconds after the run starts: the texts no longer join back.
   */
  lemma MergeCutsShortRun()
    ensures Merged([Segment(0.0, 4.0, "abcd"), Segment(28.0, 40.0, "x")], 5.0, 30.0) ==
            [Segment(0.0, 2.0, "ab"), Segment(2.0, 4.0, "cd"), Segment(28.0, 40.0, "x")]
    ensures Join(" ", Texts(Merged([Segment(0.0, 4.0, "abcd"), Segment(28.0, 40.0, "x")], 5.0, 30.0))) == "ab cd x"
    ensures Join(" ", Texts([Segment(0.0, 4.0, "abcd"), Segment(28.0, 40.0, "x")])) == "abcd x"
  {
    var a := Segment(0.0, 4.0, "abcd");
    var b := Segment(28.0, 40.0, "x");
    assert [a, b][1..] == [b];
    assert [b][..0] == [];
    assert "abcd"[..2] == "ab" && "abcd"[2..] == "cd";
    var m := [Segment(0.0, 2.0, "ab"), Segment(2.0, 4.0, "cd"), Segment(28.0, 40.0, "x")];
    assert Texts(m) == ["ab", "cd", "x"];
    assert Texts([a, b]) == ["abcd", "x"];
  }

  // =====================================================================
  // `WhisperProcessor._parse_verbose_json`

  /** A segment object of the SDK reply; a missing attribute is `None`. */
  datatype SdkSegment = SdkSegment(start: Option<real>, end: Option<real>, text: Option<string>, repr: string)

  /** One entry of the reply's segments: a dict, an SDK object, or any other value with its `str()`. */
  datatype RawSegment = DictSegment(fields: seq<(string, Json)>) | ObjectSegment(seg: SdkSegment) | OtherSegment(repr: string)

  /**
   * The reply: an object with a `segments` attribute, a decoded dict, or
   * anything else, carried as its `.text` (or `str()` when it has none).
   */
  datatype WhisperReply = WithSegments(items: seq<RawSegment>) | DictReply(fields: seq<(string, Json)>) | OtherReply(text: string)

  /** `value + offset` for a decoded number; a bool counts as 0 or 1, anything else raises `TypeError`. */
  function PlusOffset(v: Json, offset: real): (r: Result<real>)
    ensures r.Success? <==> v.Number? || v.Bool?
    ensures v.Number? ==> r == Success(v.n + offset)
  {
    match v
    case Number(n) => Success(n + offset)
    case Bool(b) => Success((if b then 1.0 else 0.0) + offset)
    case _ => Failure("TypeError")
  }

  /** A dict entry: `start`/`end` (0 when missing) plus the offset, the stripped `text` ("" when missing). */
  function ConvertDict(fields: seq<(string, Json)>, offset: real): Result<Segment> {
    ConvertValues(Get(fields, "start", Number(0.0)), Get(fields, "end", Number(0.0)), Get(fields, "text", Str("")), offset)
  }

  /** The segment made of the three values a dict entry gives. */
  function ConvertValues(startValue: Json, endValue: Json, text: Json, offset: real): Result<Segment> {
    var start := PlusOffset(startValue, offset);
    var end := PlusOffset(endValue, offset);
    if start.Failure? then Failure(start.error)
    else if end.Failure? then Failure(end.error)
    else if !text.Str? then Failure("AttributeError")
    else Success(Segment(start.value, end.value, Strip(text.s)))
  }

  /** An SDK object: a missing `start` reads as the offset, a missing `end` as 60 s after it. */
  function ConvertObject(s: SdkSegment, offset: real): Segment {
    Segment(
      if s.start.Some? then s.start.value + offset else offset,
      if s.end.Some? then s.end.value + offset else offset + 60.0,
      if s.text.Some? then Strip(s.text.value) else s.repr)
  }

  /** The segment one raw entry becomes. */
  function ConvertSegment(raw: RawSegment, offset: real): Result<Segment> {
    match raw
    case DictSegment(fields) => ConvertDict(fields, offset)
    case ObjectSegment(s) => Success(ConvertObject(s, offset))
    case OtherSegment(repr) => Success(Segment(offset, offset + 60.0, repr))
  }

  /** The entries of a decoded `segments` value as the loop visits them. */
  function Entries(v: Json, repr: Json -> string): Result<seq<RawSegment>> {
    match v
    case Arr(items) => Success(Map(items, (j: Json) => if j.Obj? then DictSegment(j.fields) else OtherSegment(repr(j))))
    case Str(s) => Success(Map(s, (c: char) => OtherSegment([c])))
    case Obj(fields) => Success(Map(fields, (f: (string, Json)) => OtherSegment(f.0)))
    case _ => Failure("TypeError")
  }

  /** The loop's result: the converted entries in order, or the first entry's error. */
  function ConvertAll(items: seq<RawSegment>, offset: real): Result<seq<Segment>> {
    MapResult(items, (raw: RawSegment) => ConvertSegment(raw, offset))
  }

  /** The loop over the entries. */
  method ConvertSegments(items: seq<RawSegment>, offset: real) returns (r: Result<seq<Segment>>)
    ensures r == ConvertAll(items, offset)
  {
    var segments: seq<Segment> := [];
    var i := 0;
    while i < |items|
      invariant 0 <= i <= |items|
      invariant ConvertAll(items[..i], offset) == Success(segments)
    {
      var seg := ConvertSegment(items[i], offset);
      if seg.Failure? {
        MapResultStops(items, (raw: RawSegment) => ConvertSegment(raw, offset), i);
        return Failure(seg.error);
      }
      MapResultPrefixSnoc(items, (raw: RawSegment) => ConvertSegment(raw, offset), i, segments);
      segments := segments + [seg.value];
      i := i + 1;
    }
    assert items[..i] == items;
    return Success(segments);
  }

  /** `_parse_verbose_json`; `repr` is Python's `str()` of a decoded value. */
  method ParseVerboseJson(reply: WhisperReply, offset: real, repr: Json -> string) returns (r: Result<seq<Segment>>)
    ensures reply.OtherReply? ==> r == Success([Segment(offset, offset + 60.0, reply.text)])
    ensures reply.WithSegments? ==> r == ConvertAll(reply.items, offset)
    ensures reply.DictReply? ==>
              r == match Entries(Get(reply.fields, "segments", Arr([])), repr)
                   case Failure(e) => Failure(e)
                   case Success(items) => ConvertAll(items, offset)
  {
    match reply {
      case OtherReply(text) =>
        return Success([Segment(offset, offset + 60.0, text)]);
      case WithSegments(raw) =>
        r := ConvertSegments(raw, offset);
      case DictReply(fields) =>
        var entries := Entries(Get(fields, "segments", Arr([])), repr);
        if entries.Failure? {
          return Failure(entries.error);
        }
        r := ConvertSegments(entries.value, offset);
    }
  }

  /** One segment per entry, in order, or the error of the first entry that fails. */
  lemma ConvertAllSpec(items: seq<RawSegment>, offset: real)
    ensures ConvertAll(items, offset).Success? <==> forall i :: 0 <= i < |items| ==> ConvertSegment(items[i], offset).Success?
    ensures ConvertAll(items, offset).Success? ==>
              |ConvertAll(items, offset).value| == |items| &&
              forall i :: 0 <= i < |items| ==> ConvertAll(items, offset).value[i] == ConvertSegment(items[i], offset).value
  {
    MapResultSpec(items, (raw: RawSegment) => ConvertSegment(raw, offset));
  }

  /** A dict entry's times are its fields plus the offset, its text stripped. */
  lemma DictSegmentSpec(fields: seq<(string, Json)>, offset: real, start: real, end: real, text: string)
    requires Get(fields, "start", Number(0.0)) == Number(start)
    requires Get(fields, "end", Number(0.0)) == Number(end)
    requires Get(fields, "text", Str("")) == Str(text)
    ensures ConvertDict(fields, offset) == Success(Segment(start + offset, end + offset, Strip(text)))
  {
    NumbersConvert(start, end, text, offset);
  }

  lemma NumbersConvert(start: real, end: real, text: string, offset: real)
    ensures ConvertValues(Number(start), Number(end), Str(text), offset) == Success(Segment(start + offset, end + offset, Strip(text)))
  {
  }

  /** A dict entry with none of the three keys is an empty segment at the offset. */
  lemma DictSegmentDefaults(fields: seq<(string, Json)>, offset: real)
    requires !Has(fields, "start") && !Has(fields, "end") && !Has(fields, "text")
    ensures ConvertDict(fields, offset) == Success(Segment(offset, offset, ""))
  {
    assert Strip("") == "";
    DictSegmentSpec(fields, offset, 0.0, 0.0, "");
  }

  // =====================================================================
  // `ASRProcessor.process_video`

  /** The placeholder used when transcription fails. */
  function Fallback(): seq<Segment> {
    [Segment(0.0, 60.0, FallbackText)]
  }

  /**
   * `process_video`: `run` is what the chosen processor returned or raised.
   * Any failure, including an unknown provider, gives the placeholder.
   */
  function ProcessVideo(provider: string, run: Result<seq<Segment>>): (r: seq<Segment>)
    ensures r == Fallback() || (run.Success? && r == run.value)
    ensures (provider == "local" || provider == "openai") && run.Success? ==> r == run.value
    ensures provider != "local" && provider != "openai" ==> r == Fallback()
    ensures run.Failure? ==> r == Fallback()
  {
    if provider != "local" && provider != "openai" then Fallback()
    else match run
      case Success(segs) => segs
      case Failure(_) => Fallback()
  }
}
