/**
 * Image understanding (src/video2markdown/vision.py): whether a picture
 * deserves a vision-model call, the transcript text sent along with it,
 * the parsing of the model's reply and the bookkeeping of a batch.
 *
 * A picture file is known by the three shares the source computes from
 * its pixels, `None` when it cannot be read. The model's reply, and the
 * JSON value found in it, are inputs.
 */
module Vision {
  import opened Wrappers
  import opened Strings
  import opened Seqs
  import opened Json
  import opened Models
  import opened Stage4Filter

  /** Shares of near-white pixels, near-black pixels and Canny edge pixels. */
  datatype ImageStats = ImageStats(whiteRatio: real, darkRatio: real, edgeRatio: real)

  const TranscriptWindow: real := 8.0
  const ContextLimit: nat := 600

  const VisionIndicators: seq<string> := [
    "如图所示", "如图", "看这个", "展示", "屏幕", "页面",
    "这边", "这里", "这个", "界面", "图表", "数据"
  ]

  const IrrelevantKeywords: seq<string> := ["[无关]", "不相关", "黑屏", "过渡画面", "纯装饰", "无实质内容"]

  // =====================================================================
  // Picture heuristics

  /** `detect_text_in_image` */
  function DetectTextInImage(img: Option<ImageStats>): (r: TextContent)
    ensures r.hasText <==> img.Some? && 0.05 < img.value.edgeRatio < 0.50
    ensures r.ratio == if img.Some? then img.value.edgeRatio else 0.0
  {
    match img
    case None => TextContent(false, 0.0)
    case Some(s) => TextContent(0.05 < s.edgeRatio < 0.50, s.edgeRatio)
  }

  /** `is_likely_ppt_or_whiteboard` */
  function IsLikelyPpt(img: Option<ImageStats>): bool {
    match img
    case None => false
    case Some(s) => if s.whiteRatio > 0.40 || s.darkRatio > 0.40 then true else DetectTextInImage(img).hasText
  }

  /** A slide or board: a plain background over 40% of the picture, else the 5%-50% edge band; never an unreadable file. */
  lemma IsLikelyPptIff(img: Option<ImageStats>)
    ensures IsLikelyPpt(img) <==>
              img.Some? && (img.value.whiteRatio > 0.40 || img.value.darkRatio > 0.40 || 0.05 < img.value.edgeRatio < 0.50)
  {
  }

  // =====================================================================
  // Transcript heuristic

  /** `analyze_transcript_need_for_image` */
  function TranscriptNeed(text: string): Verdict {
    if text == [] || |Strip(text)| < 10 then Verdict(true, "文字稿过短，需要图片补充")
    else if |text| > 200 && !ContainsAny(text, VisionIndicators) then Verdict(false, "文字稿已详细且无明显视觉引用")
    else if ContainsAny(text, AbstractConcepts) then Verdict(true, "包含抽象概念，图片可能有助于理解")
    else Verdict(true, "默认需要图片辅助")
  }

  /**
   * No picture is needed exactly when the text has at least 10 characters
   * once stripped, is longer than 200 characters and has no visual
   * indicator, whatever abstract concepts it mentions.
   */
  lemma TranscriptNeedFalse(text: string)
    ensures !TranscriptNeed(text).needsVisual <==>
              |Strip(text)| >= 10 && |text| > 200 && !ContainsAny(text, VisionIndicators)
    ensures |Strip(text)| < 10 ==> TranscriptNeed(text) == Verdict(true, "文字稿过短，需要图片补充")
  {
    if text == [] {
      assert Strip(text) == [];
    }
  }

  /**
   * The two transcript heuristics disagree: a long text naming an abstract
   * concept and no visual indicator needs a picture for the frame filter
   * but not for the vision step, which checks length before concepts.
   */
  lemma HeuristicsDiffer(text: string)
    requires |Strip(text)| >= 10 && |text| > 200
    requires !ContainsAny(text, VisualIndicators) && !ContainsAny(text, VisionIndicators)
    requires ContainsAny(text, AbstractConcepts)
    ensures ContextVerdict(text).needsVisual && !TranscriptNeed(text).needsVisual
  {
    ContextVerdictFalse(text);
    TranscriptNeedFalse(text);
  }

  // =====================================================================
  // `VisionProcessor.should_analyze_image`

  /** Python's truthiness of an optional string. */
  predicate Present(s: Option<string>) {
    s.Some? && s.value != ""
  }

  function ShouldAnalyze(img: Option<ImageStats>, context: Option<string>): Verdict {
    if IsLikelyPpt(img) then Verdict(true, "检测到PPT/板书类图片，值得分析")
    else if Present(context) && !TranscriptNeed(context.value).needsVisual then
      Verdict(false, "文字稿已足够清晰，跳过: " + TranscriptNeed(context.value).reason)
    else if !TextGate(DetectTextInImage(img)) then Verdict(false, "图片无显著文字内容，可能是过渡画面")
    else Verdict(true, "图片可能有价值，需要API分析确认")
  }

  /**
   * A slide is always analysed; otherwise a picture is analysed exactly when
   * the transcript, if any, does not make it redundant and the edge density
   * is at least 2%.
   */
  lemma ShouldAnalyzeIff(img: Option<ImageStats>, context: Option<string>)
    ensures ShouldAnalyze(img, context).needsVisual <==>
              IsLikelyPpt(img) ||
              ((!Present(context) || TranscriptNeed(context.value).needsVisual) && DetectTextInImage(img).ratio >= 0.02)
  {
  }

  // =====================================================================
  // `VisionProcessor._find_transcript_context`

  /** Consecutive repeats dropped: `if not unique or text != unique[-1]: unique.append(text)`. */
  function Dedup(s: seq<string>): (r: seq<string>)
    ensures |r| <= |s| && (r == [] <==> s == [])
  {
    if s == [] then []
    else
      var u := Dedup(s[..|s| - 1]);
      if u == [] || s[|s| - 1] != u[|u| - 1] then u + [s[|s| - 1]] else u
  }

  /** No two neighbours of the result are equal, and it holds exactly the input's texts. */
  lemma {:induction false} DedupSpec(s: seq<string>)
    ensures forall i :: 0 <= i < |Dedup(s)| - 1 ==> Dedup(s)[i] != Dedup(s)[i + 1]
    ensures forall x :: x in Dedup(s) <==> x in s
    ensures s != [] ==> Dedup(s)[|Dedup(s)| - 1] == s[|s| - 1]
  {
    if s != [] {
      var init := s[..|s| - 1];
      DedupSpec(init);
      assert s == init + [s[|s| - 1]];
    }
  }

  /** What `_find_transcript_context` returns. */
  function TranscriptContext(segs: seq<Segment>, t: real, w: real): Option<string> {
    var unique := Dedup(TextsAround(segs, t, w));
    if unique == [] then None else Some(Take(Join(" ", unique), ContextLimit))
  }

  /**
   * There is a context exactly when some segment overlaps the window; it
   * is a prefix, at most 600 characters long, of the deduplicated texts
   * joined with spaces.
   */
  lemma TranscriptContextSpec(segs: seq<Segment>, t: real, w: real)
    ensures TranscriptContext(segs, t, w).None? <==> forall i :: 0 <= i < |segs| ==> !Overlaps(segs[i], t, w)
    ensures TranscriptContext(segs, t, w).Some? ==>
              |TranscriptContext(segs, t, w).value| <= ContextLimit &&
              StartsWith(Join(" ", Dedup(TextsAround(segs, t, w))), TranscriptContext(segs, t, w).value)
  {
    var p := (seg: Segment) => Overlaps(seg, t, w);
    var f := Filter(segs, p);
    FilterComplete(segs, p);
    assert |TextsAround(segs, t, w)| == |f|;
    if f != [] {
      assert f[0] in f;
      assert f[0] in segs && Overlaps(f[0], t, w);
      var i :| 0 <= i < |segs| && segs[i] == f[0];
      assert Dedup(TextsAround(segs, t, w)) != [];
    } else {
      forall i | 0 <= i < |segs|
        ensures !Overlaps(segs[i], t, w)
      {
        assert segs[i] !in f;
      }
    }
  }

  /** The deduplication loop of `_find_transcript_context`. */
  method DedupTexts(relevant: seq<string>) returns (unique: seq<string>)
    ensures unique == Dedup(relevant)
  {
    unique := [];
    var k := 0;
    while k < |relevant|
      invariant 0 <= k <= |relevant|
      invariant unique == Dedup(relevant[..k])
    {
      assert relevant[..k + 1][..k] == relevant[..k];
      var text := relevant[k];
      if unique == [] || text != unique[|unique| - 1] {
        unique := unique + [text];
      }
      k := k + 1;
    }
    assert relevant[..k] == relevant;
  }

  method FindTranscriptContext(t: real, segs: seq<Segment>, w: real) returns (r: Option<string>)
    ensures r == TranscriptContext(segs, t, w)
  {
    var relevant := CollectTextsAround(segs, t, w);
    var unique := DedupTexts(relevant);
    if unique == [] {
      return None;
    }
    return Some(Take(Join(" ", unique), ContextLimit));
  }

  // =====================================================================
  // `VisionProcessor._parse_description`

  /** vision.py's own description record. */
  datatype VisionDescription = VisionDescription(
    timestamp: real,
    imagePath: string,
    description: Json,
    keyElements: seq<Json>,
    isRelevant: bool,
    analysisReason: string)

  /** What the reply's JSON search gave: nothing found, a decoding error, or a decoded object. */
  datatype Found = NotFound | DecodeError | Decoded(fields: seq<(string, Json)>)

  /**
   * `any(kw in description for kw in irrelevant_keywords)`: a substring test
   * on a string, a membership test on a list or an object's keys. Any other
   * value makes `in` raise `TypeError`.
   */
  function MentionsIrrelevant(d: Json): Result<bool> {
    match d
    case Str(s) => Success(ContainsAny(s, IrrelevantKeywords))
    case Arr(items) => Success(exists i :: 0 <= i < |IrrelevantKeywords| && Str(IrrelevantKeywords[i]) in items)
    case Obj(fields) => Success(exists i :: 0 <= i < |IrrelevantKeywords| && Has(fields, IrrelevantKeywords[i]))
    case _ => Failure("argument of type is not iterable")
  }

  function ParseDescription(content: string, found: Found, timestamp: real, imagePath: string, reason: string)
    : (r: Result<VisionDescription>)
    ensures r.Success? ==> r.value.timestamp == timestamp && r.value.imagePath == imagePath && r.value.analysisReason == reason
    // without a decoded object the description is the reply itself, stripped only after a decoding error
    ensures found.NotFound? ==> r == Success(VisionDescription(timestamp, imagePath, Str(content), [],
                                              !ContainsAny(content, IrrelevantKeywords), reason))
    ensures found.DecodeError? ==> r == Success(VisionDescription(timestamp, imagePath, Str(Strip(content)), [],
                                                 !ContainsAny(Strip(content), IrrelevantKeywords), reason))
    // a decoded `key_elements` that is not a list is wrapped in one
    ensures found.Decoded? && r.Success? ==>
              r.value.keyElements == (match Get(found.fields, "key_elements", Arr([]))
                                      case Arr(items) => items
                                      case v => [v])
    ensures found.Decoded? ==>
              (r.Success? <==> Get(found.fields, "description", Str(content)).Str? ||
                               Get(found.fields, "description", Str(content)).Arr? ||
                               Get(found.fields, "description", Str(content)).Obj?)
  {
    var description := match found
      case NotFound => Str(content)
      case DecodeError => Str(Strip(content))
      case Decoded(fields) => Get(fields, "description", Str(content));
    var keyElements := if found.Decoded? then Get(found.fields, "key_elements", Arr([])) else Arr([]);
    match MentionsIrrelevant(description)
    case Failure(e) => Failure(e)
    case Success(irrelevant) =>
      Success(VisionDescription(timestamp, imagePath, description, AsList(keyElements), !irrelevant, reason))
  }

  // =====================================================================
  // `VisionProcessor.describe_image` and `describe_images_batch`

  /**
   * How the work after the decision went: the picture could not be resized
   * or read (before the call is counted), the API call raised, or the model
   * replied with `content`, in which the JSON search found `found`.
   */
  datatype Reply = ReadFailed | CallFailed | Replied(content: string, found: Found)

  /** The picture gets as far as the API call, which is counted. */
  predicate CallsApi(img: Option<ImageStats>, context: Option<string>, reply: Reply) {
    ShouldAnalyze(img, context).needsVisual && !reply.ReadFailed?
  }

  /** `describe_image`: `None` when skipped, `Failure` for an exception. */
  function Describe(img: Option<ImageStats>, path: string, context: Option<string>, reply: Reply)
    : Result<Option<VisionDescription>>
  {
    var v := ShouldAnalyze(img, context);
    if !v.needsVisual then Success(None)
    else match reply
      case ReadFailed => Failure("cannot read image")
      case CallFailed => Failure("API call failed")
      case Replied(content, found) =>
        match ParseDescription(content, found, 0.0, path, v.reason)
        case Failure(e) => Failure(e)
        case Success(d) => Success(Some(d))
  }

  /** One entry of the `keyframes` list. */
  datatype BatchFrame = BatchFrame(timestamp: real, path: string, isBlurry: bool, image: Option<ImageStats>)

  /**
   * The context sent with a frame; an empty transcript list is falsy and
   * sends none.
   */
  function FrameContext(f: BatchFrame, transcripts: seq<Segment>): Option<string> {
    if transcripts != [] then TranscriptContext(transcripts, f.timestamp, TranscriptWindow) else None
  }

  /** What one frame contributes: a relevant description, stamped with the frame's time, or nothing. */
  function FrameResult(f: BatchFrame, transcripts: seq<Segment>, reply: Reply): seq<VisionDescription> {
    if f.isBlurry then []
    else match Describe(f.image, f.path, FrameContext(f, transcripts), reply)
      case Success(Some(d)) => if d.isRelevant then [d.(timestamp := f.timestamp)] else []
      case _ => []
  }

  /** One API call for the frame, or none. */
  function FrameCalls(f: BatchFrame, transcripts: seq<Segment>, reply: Reply): nat {
    if !f.isBlurry && CallsApi(f.image, FrameContext(f, transcripts), reply) then 1 else 0
  }

  /** The descriptions of the batch; `replies(i)` is how frame `i` went. */
  function BatchDescriptions(frames: seq<BatchFrame>, transcripts: seq<Segment>, replies: nat -> Reply)
    : (r: seq<VisionDescription>)
    ensures |r| <= |frames|
  {
    if frames == [] then []
    else
      var n := |frames| - 1;
      BatchDescriptions(frames[..n], transcripts, replies) + FrameResult(frames[n], transcripts, replies(n))
  }

  function BatchCalls(frames: seq<BatchFrame>, transcripts: seq<Segment>, replies: nat -> Reply): (r: nat)
    ensures r <= |frames|
  {
    if frames == [] then 0
    else
      var n := |frames| - 1;
      BatchCalls(frames[..n], transcripts, replies) + FrameCalls(frames[n], transcripts, replies(n))
  }

  /** The batch of one more frame: the earlier results, then the frame's own. */
  lemma BatchSnoc(frames: seq<BatchFrame>, i: nat, transcripts: seq<Segment>, replies: nat -> Reply)
    requires i < |frames|
    ensures BatchDescriptions(frames[..i + 1], transcripts, replies) ==
            BatchDescriptions(frames[..i], transcripts, replies) + FrameResult(frames[i], transcripts, replies(i))
    ensures BatchCalls(frames[..i + 1], transcripts, replies) ==
            BatchCalls(frames[..i], transcripts, replies) + FrameCalls(frames[i], transcripts, replies(i))
  {
    assert frames[..i + 1][..i] == frames[..i];
  }

  /** Every description kept is relevant and carries the time of one of the frames, none of them blurry. */
  lemma {:induction false} BatchDescriptionsSpec(frames: seq<BatchFrame>, transcripts: seq<Segment>, replies: nat -> Reply)
    ensures forall k :: 0 <= k < |BatchDescriptions(frames, transcripts, replies)| ==>
              BatchDescriptions(frames, transcripts, replies)[k].isRelevant &&
              exists i :: 0 <= i < |frames| && !frames[i].isBlurry &&
                BatchDescriptions(frames, transcripts, replies)[k].timestamp == frames[i].timestamp
  {
    if frames != [] {
      var n := |frames| - 1;
      BatchDescriptionsSpec(frames[..n], transcripts, replies);
      var a := BatchDescriptions(frames[..n], transcripts, replies);
      var r := BatchDescriptions(frames, transcripts, replies);
      forall k | 0 <= k < |r|
        ensures r[k].isRelevant && exists i :: 0 <= i < |frames| && !frames[i].isBlurry && r[k].timestamp == frames[i].timestamp
      {
        if k < |a| {
          assert r[k] == a[k];
          var i :| 0 <= i < n && !frames[..n][i].isBlurry && a[k].timestamp == frames[..n][i].timestamp;
          assert frames[..n][i] == frames[i];
        } else {
          assert r[k] == FrameResult(frames[n], transcripts, replies(n))[k - |a|];
        }
      }
    }
  }

  class VisionProcessor {
    var apiCallCount: nat
    const model: string

    constructor(model: string)
      ensures apiCallCount == 0 && this.model == model
    {
      this.model := model;
      apiCallCount := 0;
    }

    method ShouldAnalyzeImage(img: Option<ImageStats>, context: Option<string>) returns (v: Verdict)
      ensures v == ShouldAnalyze(img, context)
    {
      var isPpt := IsLikelyPpt(img);
      if isPpt {
        return Verdict(true, "检测到PPT/板书类图片，值得分析");
      }
      if context.Some? && context.value != "" {
        var need := TranscriptNeed(context.value);
        if !need.needsVisual {
          return Verdict(false, "文字稿已足够清晰，跳过: " + need.reason);
        }
      }
      var tc := DetectTextInImage(img);
      if !tc.hasText && tc.ratio < 0.02 {
        return Verdict(false, "图片无显著文字内容，可能是过渡画面");
      }
      return Verdict(true, "图片可能有价值，需要API分析确认");
    }

    method DescribeImage(img: Option<ImageStats>, path: string, context: Option<string>, reply: Reply)
      returns (r: Result<Option<VisionDescription>>)
      modifies this
      ensures r == Describe(img, path, context, reply)
      ensures apiCallCount == old(apiCallCount) + (if CallsApi(img, context, reply) then 1 else 0)
    {
      var v := ShouldAnalyzeImage(img, context);
      if !v.needsVisual {
        return Success(None);
      }
      if reply.ReadFailed? {
        return Failure("cannot read image");
      }
      apiCallCount := apiCallCount + 1;
      if reply.CallFailed? {
        return Failure("API call failed");
      }
      var parsed := ParseDescription(reply.content, reply.found, 0.0, path, v.reason);
      if parsed.Failure? {
        return Failure(parsed.error);
      }
      return Success(Some(parsed.value));
    }

    /** Every frame ends up described or counted as skipped. */
    method DescribeImagesBatch(frames: seq<BatchFrame>, transcripts: seq<Segment>, replies: nat -> Reply)
      returns (descriptions: seq<VisionDescription>, skippedCount: nat)
      modifies this
      ensures descriptions == BatchDescriptions(frames, transcripts, replies)
      ensures |descriptions| + skippedCount == |frames|
      ensures apiCallCount == old(apiCallCount) + BatchCalls(frames, transcripts, replies)
    {
      descriptions := [];
      skippedCount := 0;
      var i := 0;
      while i < |frames|
        invariant 0 <= i <= |frames|
        invariant descriptions == BatchDescriptions(frames[..i], transcripts, replies)
        invariant |descriptions| + skippedCount == i
        invariant apiCallCount == old(apiCallCount) + BatchCalls(frames[..i], transcripts, replies)
      {
        var frame := frames[i];
        BatchSnoc(frames, i, transcripts, replies);
        if frame.isBlurry {
          skippedCount := skippedCount + 1;
          i := i + 1;
          continue;
        }
        var context: Option<string> := None;
        if transcripts != [] {
          context := FindTranscriptContext(frame.timestamp, transcripts, TranscriptWindow);
        }
        var desc := DescribeImage(frame.image, frame.path, context, replies(i));
        if desc.Success? && desc.value.Some? {
          var d := desc.value.value.(timestamp := frame.timestamp);
          if d.isRelevant {
            descriptions := descriptions + [d];
          } else {
            skippedCount := skippedCount + 1;
          }
        } else {
          skippedCount := skippedCount + 1;
        }
        i := i + 1;
      }
      assert frames[..i] == frames;
    }
  }
}
