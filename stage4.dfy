/**
 * Stage 4 (src/video2markdown/stage4_filter.py): the three-gate key frame
 * filter. Candidates are visited in order; one is dropped when it is
 * within `minInterval` of a frame already kept, when its edge density says
 * there is no text on it, or when the transcript around it reads as clear
 * enough without a picture. A kept frame's reason is extended.
 *
 * The frame at a time is `ReadAt(decode, fps, t)`; `edgeRatio` is the
 * share of Canny edge pixels of a frame.
 */
module Stage4Filter {
  import opened Wrappers
  import opened Strings
  import opened Seqs
  import opened Media
  import opened Models
  import opened Stage1Analyze

  const ContextWindow: real := 8.0

  const VisualIndicators: seq<string> := [
    "如图", "如图所示", "看这个", "展示", "屏幕", "页面",
    "这边", "这里", "这个", "界面", "图表", "数据",
    "PPT", "板书", "代码", "演示"
  ]

  const AbstractConcepts: seq<string> := [
    "架构", "流程", "结构", "框架", "模型", "系统",
    "原理", "机制", "算法", "设计", "方案"
  ]

  // =====================================================================
  // Gate 2: `_detect_text_content`

  datatype TextContent = TextContent(hasText: bool, ratio: real)

  /** An unreadable frame has no text and density 0; otherwise text means a density strictly between 5% and 50%. */
  function DetectText(decode: int -> Option<Frame>, fps: real, edgeRatio: Frame -> real, t: real): (r: TextContent)
    ensures r.hasText <==> ReadAt(decode, fps, t).Some? && 0.05 < r.ratio < 0.50
    ensures ReadAt(decode, fps, t).None? ==> r.ratio == 0.0
    ensures ReadAt(decode, fps, t).Some? ==> r.ratio == edgeRatio(ReadAt(decode, fps, t).value)
  {
    match ReadAt(decode, fps, t)
    case None => TextContent(false, 0.0)
    case Some(f) =>
      var ratio := edgeRatio(f);
      TextContent(0.05 < ratio < 0.50, ratio)
  }

  /** The frame survives `if not has_text and text_ratio < 0.02: continue`. */
  predicate TextGate(tc: TextContent) {
    !(!tc.hasText && tc.ratio < 0.02)
  }

  /**
   * The text gate depends on the density alone: a frame passes exactly when
   * its density is at least 2%, so frames denser than 50% pass too, and an
   * unreadable frame never does.
   */
  lemma TextGateExact(decode: int -> Option<Frame>, fps: real, edgeRatio: Frame -> real, t: real)
    ensures TextGate(DetectText(decode, fps, edgeRatio, t)) <==> DetectText(decode, fps, edgeRatio, t).ratio >= 0.02
    ensures ReadAt(decode, fps, t).None? ==> !TextGate(DetectText(decode, fps, edgeRatio, t))
  {
  }

  // =====================================================================
  // Gate 3: `_check_transcript_context`

  datatype Verdict = Verdict(needsVisual: bool, reason: string)

  /** The decision on the transcript text around the frame. */
  function ContextVerdict(text: string): Verdict {
    if text == [] || |Strip(text)| < 10 then Verdict(true, "文字稿过短，需要图片补充")
    else if ContainsAny(text, VisualIndicators) then Verdict(true, "检测到视觉引用")
    else if ContainsAny(text, AbstractConcepts) then Verdict(true, "包含抽象概念，图片有助于理解")
    else if |text| > 200 then Verdict(false, "文字稿已详细")
    else Verdict(true, "默认需要配图辅助")
  }

  /**
   * A picture is judged unnecessary exactly when the text has at least 10
   * characters once stripped, is longer than 200 characters and mentions
   * neither a visual indicator nor an abstract concept.
   */
  lemma ContextVerdictFalse(text: string)
    ensures !ContextVerdict(text).needsVisual <==>
              |Strip(text)| >= 10 && |text| > 200 &&
              !ContainsAny(text, VisualIndicators) && !ContainsAny(text, AbstractConcepts)
    ensures |Strip(text)| < 10 ==> ContextVerdict(text) == Verdict(true, "文字稿过短，需要图片补充")
    ensures |Strip(text)| >= 10 && ContainsAny(text, VisualIndicators) ==> ContextVerdict(text).reason == "检测到视觉引用"
  {
    if text == [] {
      assert Strip(text) == [];
    }
  }

  /** The text the gate reads: the transcript within 8 s of the frame. */
  function ContextText(tr: VideoTranscript, t: real): string {
    Join(" ", TextsAround(tr.segments, t, ContextWindow))
  }

  method CheckTranscriptContext(t: real, tr: VideoTranscript) returns (v: Verdict)
    ensures v == ContextVerdict(ContextText(tr, t))
  {
    var text := GetTextAround(tr, t, ContextWindow);
    v := ContextVerdict(text);
  }

  // =====================================================================
  // Gate 1: `_is_too_close`

  predicate TooCloseTo(selected: seq<KeyFrame>, t: real, minInterval: real) {
    exists k :: 0 <= k < |selected| && Abs(selected[k].timestamp - t) < minInterval
  }

  method IsTooClose(t: real, selected: seq<KeyFrame>, minInterval: real) returns (r: bool)
    ensures r == TooCloseTo(selected, t, minInterval)
  {
    var k := 0;
    while k < |selected|
      invariant 0 <= k <= |selected|
      invariant forall j :: 0 <= j < k ==> Abs(selected[j].timestamp - t) >= minInterval
    {
      if Abs(selected[k].timestamp - t) < minInterval {
        return true;
      }
      k := k + 1;
    }
    return false;
  }

  // =====================================================================
  // `filter_keyframes`

  /** Everything the filter consults besides the candidates: the video, its edge metric, the transcript. */
  datatype Probe = Probe(decode: int -> Option<Frame>, fps: real, edgeRatio: Frame -> real, transcript: VideoTranscript)

  function TextOf(p: Probe, t: real): TextContent {
    DetectText(p.decode, p.fps, p.edgeRatio, t)
  }

  function VerdictOf(p: Probe, t: real): Verdict {
    ContextVerdict(ContextText(p.transcript, t))
  }

  /**
   * What the filter learns about a time from gates 2 and 3. The loop's
   * bookkeeping does not depend on how these are computed, so the filter is
   * specified over any `Gates` and instantiated with `GatesOf(p)`.
   */
  datatype Gates = Gates(text: real -> TextContent, verdict: real -> Verdict)

  function GatesOf(p: Probe): Gates {
    Gates(t => TextOf(p, t), t => VerdictOf(p, t))
  }

  /** The candidate passes the three gates, in order, given the frames kept before it. */
  predicate Passes(g: Gates, kept: seq<KeyFrame>, c: KeyFrame, minInterval: real) {
    !TooCloseTo(kept, c.timestamp, minInterval) && TextGate(g.text(c.timestamp)) && g.verdict(c.timestamp).needsVisual
  }

  /** The kept frame: the reason gains the context verdict and the density to two decimals. */
  function Annotate(c: KeyFrame, verdict: string, ratio: real): (r: KeyFrame)
    ensures r.timestamp == c.timestamp && r.source == c.source
    ensures StartsWith(r.reason, c.reason + " | ")
  {
    var head := c.reason + " | ";
    var reason := head + (verdict + " | 文字密度=" + Fixed(ratio, 2));
    StartsWithConcat(head, verdict + " | 文字密度=" + Fixed(ratio, 2));
    c.(reason := reason)
  }

  /** The frame as kept by the filter. */
  function Kept(g: Gates, c: KeyFrame): KeyFrame {
    Annotate(c, g.verdict(c.timestamp).reason, g.text(c.timestamp).ratio)
  }

  /** The frames the loop keeps from `cands`. */
  function Filtered(g: Gates, cands: seq<KeyFrame>, minInterval: real): seq<KeyFrame> {
    if cands == [] then []
    else
      var kept := Filtered(g, cands[..|cands| - 1], minInterval);
      var c := cands[|cands| - 1];
      if Passes(g, kept, c, minInterval) then kept + [Kept(g, c)] else kept
  }

  /** The positions, among the candidates, of the frames kept. */
  function KeptIndices(g: Gates, cands: seq<KeyFrame>, minInterval: real): seq<nat> {
    if cands == [] then []
    else
      var kept := Filtered(g, cands[..|cands| - 1], minInterval);
      var idx := KeptIndices(g, cands[..|cands| - 1], minInterval);
      if Passes(g, kept, cands[|cands| - 1], minInterval) then idx + [|cands| - 1] else idx
  }

  method FilterKeyframes(p: Probe, cands: seq<KeyFrame>, minInterval: real) returns (filtered: seq<KeyFrame>)
    ensures filtered == Filtered(GatesOf(p), cands, minInterval)
  {
    ghost var g := GatesOf(p);
    filtered := [];
    var i := 0;
    while i < |cands|
      invariant 0 <= i <= |cands|
      invariant filtered == Filtered(g, cands[..i], minInterval)
    {
      var frame := cands[i];
      FilteredStep(g, cands, i, minInterval);
      var tooClose := IsTooClose(frame.timestamp, filtered, minInterval);
      if tooClose {
        i := i + 1;
        continue;
      }
      var tc := DetectText(p.decode, p.fps, p.edgeRatio, frame.timestamp);
      assert tc == g.text(frame.timestamp);
      if !tc.hasText && tc.ratio < 0.02 {
        i := i + 1;
        continue;
      }
      var verdict := CheckTranscriptContext(frame.timestamp, p.transcript);
      assert verdict == g.verdict(frame.timestamp);
      if !verdict.needsVisual {
        i := i + 1;
        continue;
      }
      filtered := filtered + [Annotate(frame, verdict.reason, tc.ratio)];
      i := i + 1;
    }
    assert cands[..i] == cands;
  }

  /** The loop's step: candidate `i` is kept, annotated, exactly when it passes the gates. */
  lemma FilteredStep(g: Gates, cands: seq<KeyFrame>, i: nat, minInterval: real)
    requires i < |cands|
    ensures Filtered(g, cands[..i + 1], minInterval) ==
              if Passes(g, Filtered(g, cands[..i], minInterval), cands[i], minInterval)
              then Filtered(g, cands[..i], minInterval) + [Kept(g, cands[i])]
              else Filtered(g, cands[..i], minInterval)
  {
    assert cands[..i + 1][..i] == cands[..i];
  }

  /** `Kept` as a function value. */
  function KeptBy(g: Gates): KeyFrame -> KeyFrame {
    c => Kept(g, c)
  }

  /**
   * The output is a subsequence of the candidates, in their order: the kept
   * frame at `k` is the annotated candidate at position `KeptIndices(..)[k]`,
   * with the same time and source and an extended reason.
   */
  lemma {:induction false} FilteredSubsequence(g: Gates, cands: seq<KeyFrame>, minInterval: real)
    ensures Traced(Filtered(g, cands, minInterval), KeptIndices(g, cands, minInterval), cands, KeptBy(g))
  {
    if cands != [] {
      var init := cands[..|cands| - 1];
      var c := cands[|cands| - 1];
      FilteredSubsequence(g, init, minInterval);
      var kept := Filtered(g, init, minInterval);
      var idx0 := KeptIndices(g, init, minInterval);
      if Passes(g, kept, c, minInterval) {
        TracedKeep(kept, idx0, cands, KeptBy(g));
        assert KeptBy(g)(c) == Kept(g, c);
      } else {
        TracedDrop(kept, idx0, cands, KeptBy(g));
      }
    }
  }

  /** Any two frames of `s` are at least `minInterval` apart. */
  predicate Apart(s: seq<KeyFrame>, minInterval: real) {
    forall a, b :: 0 <= a < b < |s| ==> Abs(s[a].timestamp - s[b].timestamp) >= minInterval
  }

  /** A frame far enough from every frame of a spaced list extends it. */
  lemma ApartSnoc(s: seq<KeyFrame>, x: KeyFrame, minInterval: real)
    requires Apart(s, minInterval)
    requires forall a :: 0 <= a < |s| ==> Abs(s[a].timestamp - x.timestamp) >= minInterval
    ensures Apart(s + [x], minInterval)
  {
    var r := s + [x];
    forall a, b | 0 <= a < b < |r|
      ensures Abs(r[a].timestamp - r[b].timestamp) >= minInterval
    {
      if b < |s| {
        assert r[a] == s[a] && r[b] == s[b];
      } else {
        assert r[a] == s[a] && r[b] == x;
      }
    }
  }

  /** Any two kept frames are at least `minInterval` apart. */
  lemma {:induction false} FilteredMinGap(g: Gates, cands: seq<KeyFrame>, minInterval: real)
    ensures Apart(Filtered(g, cands, minInterval), minInterval)
  {
    if cands != [] {
      var init := cands[..|cands| - 1];
      var c := cands[|cands| - 1];
      FilteredMinGap(g, init, minInterval);
      var kept := Filtered(g, init, minInterval);
      if Passes(g, kept, c, minInterval) {
        assert Filtered(g, cands, minInterval) == kept + [Kept(g, c)];
        assert Kept(g, c).timestamp == c.timestamp;
        ApartSnoc(kept, Kept(g, c), minInterval);
      } else {
        assert Filtered(g, cands, minInterval) == kept;
      }
    }
  }

  /** Every kept frame passed the text gate and the context gate at its own time. */
  lemma {:induction false} FilteredPassedGates(g: Gates, cands: seq<KeyFrame>, minInterval: real)
    ensures forall k :: 0 <= k < |Filtered(g, cands, minInterval)| ==>
              TextGate(g.text(Filtered(g, cands, minInterval)[k].timestamp)) &&
              g.verdict(Filtered(g, cands, minInterval)[k].timestamp).needsVisual
  {
    if cands != [] {
      var init := cands[..|cands| - 1];
      FilteredPassedGates(g, init, minInterval);
      var kept := Filtered(g, init, minInterval);
      var r := Filtered(g, cands, minInterval);
      forall k | 0 <= k < |r|
        ensures TextGate(g.text(r[k].timestamp)) && g.verdict(r[k].timestamp).needsVisual
      {
        if k < |kept| {
          assert r[k] == kept[k];
        }
      }
    }
  }

  /** A candidate whose frame cannot be read is never kept. */
  lemma {:induction false} UnreadableDropped(p: Probe, cands: seq<KeyFrame>, minInterval: real)
    ensures forall k :: 0 <= k < |Filtered(GatesOf(p), cands, minInterval)| ==>
              ReadAt(p.decode, p.fps, Filtered(GatesOf(p), cands, minInterval)[k].timestamp).Some?
  {
    var g := GatesOf(p);
    var r := Filtered(g, cands, minInterval);
    FilteredPassedGates(g, cands, minInterval);
    forall k | 0 <= k < |r|
      ensures ReadAt(p.decode, p.fps, r[k].timestamp).Some?
    {
      assert g.text(r[k].timestamp) == DetectText(p.decode, p.fps, p.edgeRatio, r[k].timestamp);
      TextGateExact(p.decode, p.fps, p.edgeRatio, r[k].timestamp);
    }
  }
}
