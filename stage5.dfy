/**
 * Stage 5 of the pipeline (src/video2markdown/stage5_analyze_images.py):
 * every kept keyframe is saved under a numbered file name, described by the
 * vision model together with the transcript around it, and the model's
 * reply is turned into an image description with at most five key elements.
 *
 * Reading video frames, resizing and writing images and the model call are
 * not modelled: whether the frame at a time can be read and what the model
 * replies for an image and a prompt are inputs.
 */
module Stage5 {
  import opened Wrappers
  import opened Strings
  import opened Seqs
  import opened Models

  // =====================================================================
  // `_extract_key_elements`

  /** A stripped line that is a list item: it starts with "-" or "•". */
  predicate IsListItem(line: string) {
    StartsWith(line, "-") || StartsWith(line, "•")
  }

  /** `line[1:].strip()` */
  function ItemText(line: string): string {
    Strip(Slice(line, 1, |line|))
  }

  /** What one line contributes: the text after the marker when its stripped form is a list item. */
  function LineItem(line: string): Option<string> {
    var stripped := Strip(line);
    if IsListItem(stripped) then Some(ItemText(stripped)) else None
  }

  /** The item text of every list line, in order. */
  function ListItems(lines: seq<string>): seq<string> {
    Somes(Map(lines, LineItem))
  }

  /** `elements[:5]` */
  function FirstFive(s: seq<string>): seq<string> {
    if |s| <= 5 then s else s[..5]
  }

  /** At most five, from the front, and all of them when there are no more than five. */
  lemma FirstFiveSpec(s: seq<string>)
    ensures |FirstFive(s)| <= 5 && FirstFive(s) == s[..|FirstFive(s)|]
    ensures |s| <= 5 ==> FirstFive(s) == s
  {
  }

  /** What `_extract_key_elements` returns for a reply. */
  function KeyElements(text: string): seq<string> {
    FirstFive(ListItems(Split(text, "\n")))
  }

  /** One more line adds its item exactly when its stripped form is a list item. */
  lemma ListItemsSnoc(lines: seq<string>, i: nat)
    requires i < |lines|
    ensures ListItems(lines[..i + 1]) ==
            ListItems(lines[..i]) + (if LineItem(lines[i]).Some? then [LineItem(lines[i]).value] else [])
  {
    MapPrefixSnoc(lines, i, LineItem);
    SomesSnoc(Map(lines[..i], LineItem), LineItem(lines[i]));
  }

  /** The loop of `_extract_key_elements` over the reply's lines. */
  method CollectListItems(lines: seq<string>) returns (items: seq<string>)
    ensures items == ListItems(lines)
  {
    items := [];
    var i := 0;
    while i < |lines|
      invariant 0 <= i <= |lines|
      invariant items == ListItems(lines[..i])
    {
      ListItemsSnoc(lines, i);
      var line := Strip(lines[i]);
      if IsListItem(line) {
        items := items + [ItemText(line)];
      }
      i := i + 1;
    }
    assert lines[..i] == lines;
  }

  /** `_extract_key_elements`: the list items of the reply's lines, at most five. */
  method ExtractKeyElements(text: string) returns (elements: seq<string>)
    ensures elements == KeyElements(text)
    ensures |elements| <= 5
  {
    var items := CollectListItems(Split(text, "\n"));
    elements := FirstFive(items);
  }

  /**
   * The items are exactly what the list lines contribute: every item is the
   * text after the marker of some list line, and every list line's item is
   * among the items.
   */
  lemma ListItemsSpec(lines: seq<string>)
    ensures forall e :: e in ListItems(lines) <==> exists j :: 0 <= j < |lines| && LineItem(lines[j]) == Some(e)
  {
    var found := Map(lines, LineItem);
    SomesMembers(found);
    forall e
      ensures Some(e) in found <==> exists j :: 0 <= j < |lines| && LineItem(lines[j]) == Some(e)
    {
      if Some(e) in found {
        var j :| 0 <= j < |found| && found[j] == Some(e);
        assert LineItem(lines[j]) == Some(e);
      }
    }
  }

  /** A line contributes exactly when its stripped form starts with a marker, and then the rest, stripped. */
  lemma LineItemSpec(line: string)
    ensures LineItem(line).Some? <==> StartsWith(Strip(line), "-") || StartsWith(Strip(line), "•")
    ensures LineItem(line).Some? ==> LineItem(line).value == Strip(Strip(line)[1..])
  {
    var s := Strip(line);
    if IsListItem(s) {
      assert |s| >= 1;
      assert Slice(s, 1, |s|) == s[1..];
    }
  }

  /** Without list lines there are no items. */
  lemma {:induction false} NoListNoItems(lines: seq<string>)
    requires forall j :: 0 <= j < |lines| ==> LineItem(lines[j]).None?
    ensures ListItems(lines) == []
  {
    if lines != [] {
      var n := |lines| - 1;
      NoListNoItems(lines[..n]);
      ListItemsSnoc(lines, n);
      assert lines[..n + 1] == lines;
    }
  }

  /**
   * The key elements are the first (at most five) list items of the
   * reply's lines, all of them when there are at most five, and none for a
   * reply without list lines.
   */
  lemma KeyElementsSpec(text: string)
    ensures var items := ListItems(Split(text, "\n"));
            |KeyElements(text)| <= 5 &&
            KeyElements(text) == items[..|KeyElements(text)|] &&
            (|items| <= 5 ==> KeyElements(text) == items) &&
            ((forall j :: 0 <= j < |Split(text, "\n")| ==> LineItem(Split(text, "\n")[j]).None?) ==> KeyElements(text) == [])
  {
    var lines := Split(text, "\n");
    var items := ListItems(lines);
    assert KeyElements(text) == FirstFive(items);
    FirstFiveSpec(items);
    if forall j :: 0 <= j < |lines| ==> LineItem(lines[j]).None? {
      NoListNoItems(lines);
    }
  }

  // =====================================================================
  // `analyze_images`

  /** The outside world of one run: the output folder, the readable frames, the model and `str` of a float. */
  datatype Env = Env(
    outputDir: string,
    readable: real -> bool,
    vision: (string, string) -> string,
    show: real -> string)

  /** `f"frame_{i:04d}_{frame.timestamp:.1f}s.jpg"` */
  function FrameName(i: nat, ts: real): string {
    "frame_" + PadNat(i, 4) + "_" + Fixed(ts, 1) + "s.jpg"
  }

  /** The shrunk copy sent to the model: the frame's stem followed by `_api.jpg`. */
  function ApiName(i: nat, ts: real): string {
    "frame_" + PadNat(i, 4) + "_" + Fixed(ts, 1) + "s_api.jpg"
  }

  /** The user prompt: the first 500 characters of the context. */
  function UserContent(context: string): string {
    "视频上下文（该截图出现在以下内容的时段）:\n" + Take(context, 500) + "\n\n请分析这张截图与上述内容的关联。"
  }

  /** `transcript.get_text_around(frame.timestamp, window=10.0)` */
  function FrameContext(tr: VideoTranscript, ts: real): string {
    Join(" ", TextsAround(tr.segments, ts, 10.0))
  }

  /** The description `_analyze_single_image` builds from the model's reply. */
  function DescriptionOf(ts: real, path: string, content: string, context: string): ImageDescription {
    ImageDescription(ts, path, Strip(content), KeyElements(content), context)
  }

  /** Where the `i`-th frame is saved, and its shrunk copy for the model. */
  function FramePath(env: Env, i: nat, ts: real): string {
    env.outputDir + "/" + FrameName(i, ts)
  }

  function ApiPath(env: Env, i: nat, ts: real): string {
    env.outputDir + "/" + ApiName(i, ts)
  }

  /** The model's reply for the `i`-th frame. */
  function Reply(env: Env, tr: VideoTranscript, i: nat, ts: real): string {
    env.vision(ApiPath(env, i, ts), UserContent(FrameContext(tr, ts)))
  }

  /** The `i`-th frame (from 1): an error if it cannot be read, else its description. */
  function AnalyzeFrame(env: Env, tr: VideoTranscript, i: nat, ts: real): Result<ImageDescription> {
    if !env.readable(ts) then Failure(UnreadableError(env, ts))
    else Success(DescriptionOf(ts, FramePath(env, i, ts), Reply(env, tr, i, ts), FrameContext(tr, ts)))
  }

  /** `_analyze_single_image` and the steps before it, as one function of the numbered frame. */
  function Analyzer(env: Env, tr: VideoTranscript): ((nat, KeyFrame)) -> Result<ImageDescription> {
    (p: (nat, KeyFrame)) => AnalyzeFrame(env, tr, p.0, p.1.timestamp)
  }

  /** `RuntimeError(f"无法读取 {timestamp}s 的帧")` */
  function UnreadableError(env: Env, ts: real): string {
    "无法读取 " + env.show(ts) + "s 的帧"
  }

  /** `enumerate(frames, 1)` */
  function Numbered(frames: seq<KeyFrame>): (r: seq<(nat, KeyFrame)>)
    ensures |r| == |frames| && forall k :: 0 <= k < |r| ==> r[k] == (k + 1, frames[k])
  {
    seq(|frames|, k requires 0 <= k < |frames| => (k + 1, frames[k]))
  }

  /** All descriptions in frame order, or the error of the first frame that cannot be read. */
  function Analysis(env: Env, tr: VideoTranscript, frames: seq<KeyFrame>): Result<seq<ImageDescription>> {
    MapResult(Numbered(frames), Analyzer(env, tr))
  }

  /**
   * One iteration of `analyze_images`: save the frame (an error if it
   * cannot be read), ask the model about its shrunk copy with the
   * transcript around it, and keep the stripped reply and its key elements.
   */
  method AnalyzeOne(env: Env, tr: VideoTranscript, i: nat, ts: real) returns (r: Result<ImageDescription>)
    ensures r == AnalyzeFrame(env, tr, i, ts)
  {
    var framePath := FramePath(env, i, ts);
    if !env.readable(ts) {
      return Failure(UnreadableError(env, ts));
    }
    var apiImage := ApiPath(env, i, ts);
    var context := GetTextAround(tr, ts, 10.0);
    var content := env.vision(apiImage, UserContent(context));
    var keyElements := ExtractKeyElements(content);
    return Success(ImageDescription(ts, framePath, Strip(content), keyElements, context));
  }

  /** `analyze_images`: one model call per keyframe, in order. */
  method AnalyzeImages(env: Env, frames: seq<KeyFrame>, tr: VideoTranscript) returns (r: Result<seq<ImageDescription>>)
    ensures r == Analysis(env, tr, frames)
  {
    var numbered := Numbered(frames);
    var f := Analyzer(env, tr);
    var descriptions: seq<ImageDescription> := [];
    var i := 0;
    while i < |frames|
      invariant 0 <= i <= |frames|
      invariant MapResult(numbered[..i], f) == Success(descriptions)
    {
      var desc := AnalyzeOne(env, tr, i + 1, frames[i].timestamp);
      assert f(numbered[i]) == desc;
      if desc.Failure? {
        MapResultStops(numbered, f, i);
        return Failure(desc.error);
      }
      MapResultPrefixSnoc(numbered, f, i, descriptions);
      descriptions := descriptions + [desc.value];
      i := i + 1;
    }
    assert numbered[..i] == numbered;
    return Success(descriptions);
  }

  /**
   * With every frame readable there is exactly one description per
   * keyframe, in order: it carries the frame's time, the path of the saved
   * full-size frame `frame_{i:04d}_{t:.1f}s.jpg` (numbered from 1), the
   * stripped reply and the transcript within 10 s of the frame.
   */
  lemma AnalysisSpec(env: Env, tr: VideoTranscript, frames: seq<KeyFrame>)
    ensures Analysis(env, tr, frames).Success? <==> forall k :: 0 <= k < |frames| ==> env.readable(frames[k].timestamp)
    ensures Analysis(env, tr, frames).Success? ==>
              var descs := Analysis(env, tr, frames).value;
              |descs| == |frames| &&
              forall k :: 0 <= k < |frames| ==>
                var ts := frames[k].timestamp;
                descs[k].timestamp == ts &&
                descs[k].imagePath == FramePath(env, k + 1, ts) &&
                descs[k].relatedTranscript == Join(" ", TextsAround(tr.segments, ts, 10.0)) &&
                descs[k].description == Strip(Reply(env, tr, k + 1, ts)) &&
                descs[k].keyElements == KeyElements(Reply(env, tr, k + 1, ts))
  {
    var f := Analyzer(env, tr);
    var ns := Numbered(frames);
    MapResultSpec(ns, f);
    forall k | 0 <= k < |frames|
      ensures f(ns[k]) == AnalyzeFrame(env, tr, k + 1, frames[k].timestamp)
    {
      assert ns[k] == (k + 1, frames[k]);
    }
    if Analysis(env, tr, frames).Success? {
      var descs := Analysis(env, tr, frames).value;
      forall k | 0 <= k < |frames|
        ensures descs[k] == DescriptionOf(frames[k].timestamp, FramePath(env, k + 1, frames[k].timestamp),
                                          Reply(env, tr, k + 1, frames[k].timestamp), FrameContext(tr, frames[k].timestamp))
      {
        assert descs[k] == f(ns[k]).value;
      }
    }
  }

  /** The first unreadable frame stops the run with its error, whatever follows. */
  lemma AnalysisStops(env: Env, tr: VideoTranscript, frames: seq<KeyFrame>, k: nat)
    requires k < |frames| && !env.readable(frames[k].timestamp)
    requires forall j :: 0 <= j < k ==> env.readable(frames[j].timestamp)
    ensures Analysis(env, tr, frames) == Failure(UnreadableError(env, frames[k].timestamp))
  {
    var f := Analyzer(env, tr);
    var ns := Numbered(frames);
    MapResultSpec(ns[..k], f);
    MapResultStops(ns, f, k);
  }
}
