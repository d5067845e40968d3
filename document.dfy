/**
 * The chapter document of src/video2markdown/document.py: the JSON text cut
 * out of a model reply, the chapter records built from the decoded reply,
 * the Markdown page rendered from them and the legacy plain summary.
 *
 * Decoding the JSON text is not modelled: the decoded reply is an input in
 * which every key is either absent (`None`) or holds a value of the type the
 * prompt asks for.
 */
module Document {
  import opened Wrappers
  import opened Strings
  import opened Seqs
  import opened Models
  import Asr

  // =====================================================================
  // `_extract_json`

  /** The text between the first `open` fence and the next "```" after it, stripped. */
  function Fenced(c: string, open: string): string
    requires Contains(c, open)
  {
    var start := Find(c, open, 0) + |open|;
    var end := Find(c, "```", start);
    Strip(Slice(c, start, end))
  }

  /**
   * `_extract_json`: a ```` ```json ```` fence first, then a plain fence,
   * else the stripped reply. Without a closing fence `find` gives -1 and the
   * slice drops the last character.
   */
  function ExtractJson(content: string): string {
    var c := Strip(content);
    if Contains(c, "```json") then Fenced(c, "```json")
    else if Contains(c, "```") then Fenced(c, "```")
    else c
  }

  predicate NoBacktick(s: string) {
    forall i :: 0 <= i < |s| ==> s[i] != '`'
  }

  /** The reply starts with its opening fence. */
  lemma FenceOpens(c: string, fence: string)
    requires |fence| <= |c| && c[..|fence|] == fence
    ensures Find(c, fence, 0) == 0
  {
    assert c[0..|fence|] == fence;
    FindIs(c, fence, 0, 0);
  }

  /** The closing fence is found right after a body without backticks. */
  lemma FenceCloses(c: string, start: nat, body: string)
    requires NoBacktick(body) && start + |body| + 3 <= |c|
    requires c[start..start + |body|] == body && c[start + |body|..start + |body| + 3] == "```"
    ensures Find(c, "```", start) == start + |body|
  {
    var end := start + |body|;
    forall k | start <= k < end
      ensures c[k] != "```"[0]
    {
      assert c[k] == c[start..end][k - start];
    }
    NoOccurrence(c, "```", start, end);
    FindIs(c, "```", start, end);
  }

  /** No fence at all after `start`. */
  lemma FenceMissing(c: string, start: nat)
    requires start <= |c| && NoBacktick(c[start..])
    ensures Find(c, "```", start) == -1
  {
    forall k | start <= k < |c|
      ensures c[k] != "```"[0]
    {
      assert c[k] == c[start..][k - start];
    }
    NoOccurrence(c, "```", start, |c|);
  }

  /** A ```` ```json ```` fence is also a plain fence. */
  lemma TaggedFenceIsFence(c: string)
    requires Contains(c, "```json")
    ensures Contains(c, "```")
  {
    var k := Find(c, "```json", 0);
    assert c[k..k + 3] == c[k..k + 7][..3];
    assert OccursAt(c, "```", k);
  }

  /** What `_extract_json` does with a stripped reply that opens with a known fence. */
  lemma ExtractFenced(c: string, open: string, end: int, body: string)
    requires IsStripped(c) && (open == "```json" || (open == "```" && !Contains(c, "```json")))
    requires |open| <= |c| && Find(c, open, 0) == 0
    requires Find(c, "```", |open|) == end && Slice(c, |open|, end) == body
    ensures ExtractJson(c) == Strip(body)
  {
    StripOfStripped(c);
  }

  /** A reply that is exactly a ```` ```json ```` block gives the stripped body. */
  lemma ExtractJsonFenced(body: string)
    requires NoBacktick(body)
    ensures ExtractJson("```json" + body + "```") == Strip(body)
  {
    var c := "```json" + body + "```";
    var end := 7 + |body|;
    assert c[0] == '`' && c[|c| - 1] == '`';
    assert c[..7] == "```json";
    FenceOpens(c, "```json");
    assert c[7..end] == body;
    assert c[end..end + 3] == "```";
    FenceCloses(c, 7, body);
    assert Slice(c, 7, end) == body;
    ExtractFenced(c, "```json", end, body);
  }

  /** `"```json"` does not occur in a plain fenced block whose body does not start with `json`. */
  lemma NoJsonTag(body: string)
    requires NoBacktick(body) && !StartsWith(body, "json")
    ensures !Contains("```" + body + "```", "```json")
  {
    var c := "```" + body + "```";
    var end := 3 + |body|;
    forall k | 3 <= k < end
      ensures c[k] != "```json"[0]
    {
      assert c[k] == body[k - 3];
    }
    NoOccurrence(c, "```json", 3, end);
    forall k | 0 <= k < 3 || end <= k
      ensures !OccursAt(c, "```json", k)
    {
      if k == 0 && |body| < 4 {
        Mismatch(c, "```json", 0, end);
      } else if k == 0 {
        var i :| 0 <= i < 4 && body[i] != "json"[i];
        assert c[3 + i] == body[i];
        Mismatch(c, "```json", 0, 3 + i);
      } else if k < 3 && body != [] {
        assert c[3] == body[0];
        Mismatch(c, "```json", k, 3 - k);
      }
    }
  }

  /** A plain fenced block whose body does not start with `json` gives the stripped body. */
  lemma ExtractJsonPlainFence(body: string)
    requires NoBacktick(body) && !StartsWith(body, "json")
    ensures ExtractJson("```" + body + "```") == Strip(body)
  {
    var c := "```" + body + "```";
    var end := 3 + |body|;
    assert c[0] == '`' && c[|c| - 1] == '`';
    NoJsonTag(body);
    assert c[..3] == "```";
    FenceOpens(c, "```");
    assert c[3..end] == body;
    assert c[end..end + 3] == "```";
    FenceCloses(c, 3, body);
    assert Slice(c, 3, end) == body;
    ExtractFenced(c, "```", end, body);
  }

  /** A reply without any fence comes back stripped. */
  lemma ExtractJsonUnfenced(content: string)
    requires !Contains(Strip(content), "```")
    ensures ExtractJson(content) == Strip(content)
  {
    if Contains(Strip(content), "```json") {
      TaggedFenceIsFence(Strip(content));
    }
  }

  /** With no closing fence the last character of the reply is cut off. */
  lemma ExtractJsonUnclosed(body: string)
    requires NoBacktick(body) && body != [] && !IsSpace(body[|body| - 1])
    ensures ExtractJson("```json" + body) == Strip(body[..|body| - 1])
  {
    var c := "```json" + body;
    assert c[0] == '`' && c[|c| - 1] == body[|body| - 1];
    assert c[..7] == "```json";
    FenceOpens(c, "```json");
    assert c[7..] == body;
    FenceMissing(c, 7);
    assert c[7..|c| - 1] == body[..|body| - 1];
    assert Slice(c, 7, -1) == body[..|body| - 1];
    ExtractFenced(c, "```json", -1, body[..|body| - 1]);
  }

  // =====================================================================
  // `_parse_document_structure`

  /** A chapter entry of the decoded reply (`None`: the key is missing). */
  datatype ChapterData = ChapterData(
    id: Option<int>,
    title: Option<string>,
    startTime: Option<string>,
    endTime: Option<string>,
    summary: Option<string>,
    keyPoints: Option<seq<string>>,
    cleanedTranscript: Option<string>,
    needsVisual: Option<bool>,
    visualTimestamp: Option<real>,
    visualReason: Option<string>)

  /** The decoded reply: its `title` and `chapters` keys. */
  datatype DocData = DocData(title: Option<string>, chapters: Option<seq<ChapterData>>)

  /** The `Chapter` dataclass of document.py (times are the reply's strings). */
  datatype DocChapter = DocChapter(
    id: int,
    title: string,
    startTime: string,
    endTime: string,
    summary: string,
    keyPoints: seq<string>,
    cleanedTranscript: string,
    needsVisual: bool,
    visualTimestamp: Option<real>,
    visualReason: Option<string>)

  datatype DocumentStructure = DocumentStructure(title: string, chapters: seq<DocChapter>)

  /** One chapter, each missing key replaced by its default. */
  function ChapterOf(d: ChapterData): DocChapter {
    DocChapter(
      d.id.GetOr(0), d.title.GetOr(""), d.startTime.GetOr("00:00:00"), d.endTime.GetOr("00:00:00"),
      d.summary.GetOr(""), d.keyPoints.GetOr([]), d.cleanedTranscript.GetOr(""), d.needsVisual.GetOr(false),
      d.visualTimestamp, d.visualReason)
  }

  /** The document built from a decoded reply. */
  function Structure(data: DocData): DocumentStructure {
    DocumentStructure(data.title.GetOr("Untitled"), Map(data.chapters.GetOr([]), ChapterOf))
  }

  /** `_parse_document_structure`: one chapter per entry, in the reply's order. */
  method ParseDocumentStructure(data: DocData) returns (doc: DocumentStructure)
    ensures doc == Structure(data)
  {
    var entries := data.chapters.GetOr([]);
    var chapters: seq<DocChapter> := [];
    var i := 0;
    while i < |entries|
      invariant 0 <= i <= |entries|
      invariant chapters == Map(entries[..i], ChapterOf)
    {
      MapPrefixSnoc(entries, i, ChapterOf);
      chapters := chapters + [ChapterOf(entries[i])];
      i := i + 1;
    }
    assert entries[..i] == entries;
    doc := DocumentStructure(data.title.GetOr("Untitled"), chapters);
  }

  /** An entry with no keys at all: id 0, empty texts, `00:00:00` times, no visual. */
  const EmptyChapter := ChapterData(None, None, None, None, None, None, None, None, None, None)

  /**
   * Chapters follow the entries one for one; a key that is present is
   * taken as it is, a missing one takes its default; a reply without a
   * title is "Untitled" and one without chapters has none.
   */
  lemma StructureSpec(data: DocData)
    ensures |Structure(data).chapters| == (if data.chapters.Some? then |data.chapters.value| else 0)
    ensures data.title.Some? ==> Structure(data).title == data.title.value
    ensures data.title.None? ==> Structure(data).title == "Untitled"
    ensures forall i :: 0 <= i < |Structure(data).chapters| ==>
              var e := data.chapters.value[i];
              var c := Structure(data).chapters[i];
              (e.id.Some? ==> c.id == e.id.value) && (e.title.Some? ==> c.title == e.title.value) &&
              (e.needsVisual.Some? ==> c.needsVisual == e.needsVisual.value) &&
              c.visualTimestamp == e.visualTimestamp
    ensures ChapterOf(EmptyChapter) == DocChapter(0, "", "00:00:00", "00:00:00", "", [], "", false, None, None)
  {
  }

  // =====================================================================
  // `render_markdown`

  /** Where the chapter pictures are: `frames_dir` (if given), `frame_mappings` and `str` of a float. */
  datatype Visuals = Visuals(framesDir: Option<string>, frameMappings: map<int, string>, show: real -> string)

  function TocLine(ch: DocChapter): string {
    IntText(ch.id) + ". [" + ch.title + "](#section-" + IntText(ch.id) + ")"
  }

  function HeaderLines(title: string): seq<string> {
    ["# " + title, "", "*AI整理的视频内容*", "", "## 目录"]
  }

  const TocEnd: seq<string> := ["", "---", ""]

  function HeadLines(ch: DocChapter): seq<string> {
    ["<a id='section-" + IntText(ch.id) + "'></a>", "## " + IntText(ch.id) + ". " + ch.title, "",
     "**时间:** [" + ch.startTime + " - " + ch.endTime + "]", "",
     "### 内容摘要", ch.summary, ""]
  }

  function Bullet(point: string): string {
    "- " + point
  }

  function KeyPointLines(ch: DocChapter): seq<string> {
    if ch.keyPoints == [] then [] else ["### 关键要点"] + Map(ch.keyPoints, Bullet) + [""]
  }

  /** `chapter.needs_visual and frame_mappings and chapter.id in frame_mappings` */
  predicate ShowsImage(ch: DocChapter, v: Visuals) {
    ch.needsVisual && |v.frameMappings| > 0 && ch.id in v.frameMappings
  }

  /** `chapter.visual_timestamp or ''`: a missing or zero time prints nothing. */
  function AltText(ch: DocChapter, v: Visuals): string {
    match ch.visualTimestamp
    case Some(t) => if t != 0.0 then v.show(t) else ""
    case None => ""
  }

  function ImageLines(ch: DocChapter, v: Visuals): seq<string> {
    if !ShowsImage(ch, v) then []
    else
      var file := v.frameMappings[ch.id];
      var path := if v.framesDir.Some? then v.framesDir.value + "/" + file else file;
      ["### 相关画面", "![" + AltText(ch, v) + "](" + path + ")", "<details>", "<summary>🖼️ 画面内容</summary>", "",
       "*图片分析内容将在此处显示*", "</details>", ""]
  }

  function TranscriptLines(ch: DocChapter): seq<string> {
    if ch.cleanedTranscript == "" then []
    else ["### 原文记录", "<details>", "<summary>📄 查看原始转录</summary>", "", ch.cleanedTranscript, "</details>", ""]
  }

  /** One chapter's section. */
  function ChapterLines(ch: DocChapter, v: Visuals): seq<string> {
    HeadLines(ch) + KeyPointLines(ch) + ImageLines(ch, v) + TranscriptLines(ch) + ["---", ""]
  }

  /** Each chapter's section, in chapter order. */
  function Sections(chs: seq<DocChapter>, v: Visuals): seq<seq<string>> {
    seq(|chs|, i requires 0 <= i < |chs| => ChapterLines(chs[i], v))
  }

  /** The lines `render_markdown` joins with "\n". */
  function MarkdownLines(doc: DocumentStructure, v: Visuals): seq<string> {
    HeaderLines(doc.title) + Map(doc.chapters, TocLine) + TocEnd + Flatten(Sections(doc.chapters, v))
  }

  /** One chapter's lines, appended one by one. */
  method RenderChapter(ch: DocChapter, v: Visuals) returns (lines: seq<string>)
    ensures lines == ChapterLines(ch, v)
  {
    lines := ["<a id='section-" + IntText(ch.id) + "'></a>", "## " + IntText(ch.id) + ". " + ch.title, "",
              "**时间:** [" + ch.startTime + " - " + ch.endTime + "]", "", "### 内容摘要", ch.summary, ""];
    var keyPoints: seq<string> := [];
    if ch.keyPoints != [] {
      keyPoints := ["### 关键要点"];
      var j := 0;
      while j < |ch.keyPoints|
        invariant 0 <= j <= |ch.keyPoints|
        invariant keyPoints == ["### 关键要点"] + Map(ch.keyPoints[..j], Bullet)
      {
        MapPrefixSnoc(ch.keyPoints, j, Bullet);
        keyPoints := keyPoints + ["- " + ch.keyPoints[j]];
        j := j + 1;
      }
      assert ch.keyPoints[..j] == ch.keyPoints;
      keyPoints := keyPoints + [""];
    }
    lines := lines + keyPoints;
    var image: seq<string> := [];
    if ch.needsVisual && |v.frameMappings| > 0 && ch.id in v.frameMappings {
      var frameFile := v.frameMappings[ch.id];
      var framePath := frameFile;
      if v.framesDir.Some? {
        framePath := v.framesDir.value + "/" + frameFile;
      }
      image := ["### 相关画面", "![" + AltText(ch, v) + "](" + framePath + ")", "<details>",
                "<summary>🖼️ 画面内容</summary>", "", "*图片分析内容将在此处显示*", "</details>", ""];
    }
    lines := lines + image;
    var transcript: seq<string> := [];
    if ch.cleanedTranscript != "" {
      transcript := ["### 原文记录", "<details>", "<summary>📄 查看原始转录</summary>", "",
                     ch.cleanedTranscript, "</details>", ""];
    }
    lines := lines + transcript;
    lines := lines + ["---", ""];
  }

  /** `render_markdown` */
  method RenderMarkdown(doc: DocumentStructure, v: Visuals) returns (md: string)
    ensures md == Join("\n", MarkdownLines(doc, v))
  {
    var chs := doc.chapters;
    var lines := ["# " + doc.title, "", "*AI整理的视频内容*", ""];
    lines := lines + ["## 目录"];
    assert lines == HeaderLines(doc.title);
    var i := 0;
    while i < |chs|
      invariant 0 <= i <= |chs|
      invariant lines == HeaderLines(doc.title) + Map(chs[..i], TocLine)
    {
      MapPrefixSnoc(chs, i, TocLine);
      lines := lines + [IntText(chs[i].id) + ". [" + chs[i].title + "](#section-" + IntText(chs[i].id) + ")"];
      i := i + 1;
    }
    assert chs[..i] == chs;
    lines := lines + ["", "---", ""];
    ghost var top := lines;
    ghost var blocks := Sections(chs, v);
    i := 0;
    while i < |chs|
      invariant 0 <= i <= |chs|
      invariant lines == top + Flatten(blocks[..i])
    {
      FlattenSnoc(blocks, i);
      var block := RenderChapter(chs[i], v);
      PlaceAfter(top, Flatten(blocks[..i]), block);
      lines := lines + block;
      i := i + 1;
    }
    assert blocks[..i] == blocks;
    md := Join("\n", lines);
  }

  /** The page opens with the title and lists one table-of-contents line per chapter, in order. */
  lemma MarkdownToc(doc: DocumentStructure, v: Visuals)
    ensures var lines := MarkdownLines(doc, v);
            var n := |doc.chapters|;
            |lines| >= 8 + n && lines[0] == "# " + doc.title && lines[4] == "## 目录" &&
            (forall i :: 0 <= i < n ==>
               lines[5 + i] == IntText(doc.chapters[i].id) + ". [" + doc.chapters[i].title + "](#section-" +
                               IntText(doc.chapters[i].id) + ")") &&
            lines[5 + n..8 + n] == ["", "---", ""]
  {
    var toc := Map(doc.chapters, TocLine);
    var body := Flatten(Sections(doc.chapters, v));
    PlaceAfter(HeaderLines(doc.title), toc, TocEnd + body);
    PlaceAfter(HeaderLines(doc.title) + toc, TocEnd, body);
  }

  /** The four block headings and the closing rule are different lines. */
  lemma HeadingsDistinct()
    ensures "### 关键要点" != "### 相关画面" && "### 关键要点" != "### 原文记录" && "### 相关画面" != "### 原文记录"
    ensures "### 关键要点" != "---" && "### 相关画面" != "---" && "### 原文记录" != "---"
  {
    assert "### 关键要点"[4] == '关' && "### 相关画面"[4] == '相' && "### 原文记录"[4] == '原';
    assert |"---"| == 3 && |"### 关键要点"| == 8;
  }

  function KeyPointCount(ch: DocChapter): nat {
    if ch.keyPoints == [] then 0 else |ch.keyPoints| + 2
  }

  function ImageCount(ch: DocChapter, v: Visuals): nat {
    if ShowsImage(ch, v) then 8 else 0
  }

  /**
   * A chapter section opens with its anchor and its `## {id}. {title}`
   * heading, has eight head lines, then the optional key-point (two lines
   * plus one bullet per point), picture (eight lines) and transcript
   * (seven lines) blocks, and ends with "---" and an empty line.
   */
  lemma ChapterLinesFrame(ch: DocChapter, v: Visuals)
    ensures var b := ChapterLines(ch, v);
            |b| == 10 + KeyPointCount(ch) + ImageCount(ch, v) + (if ch.cleanedTranscript == "" then 0 else 7) &&
            b[0] == "<a id='section-" + IntText(ch.id) + "'></a>" &&
            b[1] == "## " + IntText(ch.id) + ". " + ch.title &&
            b[3] == "**时间:** [" + ch.startTime + " - " + ch.endTime + "]" &&
            b[6] == ch.summary &&
            b[|b| - 2..] == ["---", ""]
  {
    assert |HeadLines(ch)| == 8;
  }

  /** The key-point heading follows the head lines exactly when there are key points. */
  lemma ChapterKeyPoints(ch: DocChapter, v: Visuals)
    ensures var b := ChapterLines(ch, v);
            |b| > 8 && (b[8] == "### 关键要点" <==> ch.keyPoints != [])
  {
    assert |HeadLines(ch)| == 8;
    HeadingsDistinct();
  }

  /** After the key-point heading come the bullets, one per key point and in order. */
  lemma ChapterBullets(ch: DocChapter, v: Visuals)
    ensures var b := ChapterLines(ch, v);
            |b| > 8 + |ch.keyPoints| &&
            forall j :: 0 <= j < |ch.keyPoints| ==> b[9 + j] == "- " + ch.keyPoints[j]
  {
    var b := ChapterLines(ch, v);
    var top := HeadLines(ch) + KeyPointLines(ch);
    assert |HeadLines(ch)| == 8;
    forall j | 0 <= j < |ch.keyPoints|
      ensures b[9 + j] == "- " + ch.keyPoints[j]
    {
      PrefixIndex(top, ImageLines(ch, v), 9 + j);
      PrefixIndex(top + ImageLines(ch, v), TranscriptLines(ch), 9 + j);
      PrefixIndex(top + ImageLines(ch, v) + TranscriptLines(ch), ["---", ""], 9 + j);
      assert top[9 + j] == KeyPointLines(ch)[1 + j];
    }
  }

  /** The picture heading follows the key points exactly when the chapter needs a visual that has a mapped frame. */
  lemma ChapterImage(ch: DocChapter, v: Visuals)
    ensures var b := ChapterLines(ch, v);
            |b| > 8 + KeyPointCount(ch) &&
            (b[8 + KeyPointCount(ch)] == "### 相关画面" <==> ShowsImage(ch, v))
  {
    assert |HeadLines(ch)| == 8;
    HeadingsDistinct();
  }

  /** The transcript heading follows the picture block exactly when the transcript is not empty. */
  lemma ChapterTranscript(ch: DocChapter, v: Visuals)
    ensures var b := ChapterLines(ch, v);
            var at := 8 + KeyPointCount(ch) + ImageCount(ch, v);
            |b| > at && (b[at] == "### 原文记录" <==> ch.cleanedTranscript != "") &&
            (ch.cleanedTranscript != "" ==> b[at + 4] == ch.cleanedTranscript)
  {
    var x := HeadLines(ch) + KeyPointLines(ch) + ImageLines(ch, v);
    var t := TranscriptLines(ch);
    assert |x| == 8 + KeyPointCount(ch) + ImageCount(ch, v);
    HeadingsDistinct();
    if t != [] {
      PrefixIndex(x + t, ["---", ""], |x|);
      PrefixIndex(x + t, ["---", ""], |x| + 4);
    }
  }

  // =====================================================================
  // `generate_summary` (legacy)

  function SummaryBullet(seg: Segment, i: nat): string {
    IntText(i + 1) + ". " + Take(seg.text, 50) + "...\n"
  }

  /** `transcripts[-1].end if transcripts else 0` */
  function TotalDuration(segs: seq<Segment>): real {
    if segs == [] then 0.0 else segs[|segs| - 1].end
  }

  function SummaryHeader(segs: seq<Segment>, imageCount: nat): seq<string> {
    ["# 视频摘要\n", "\n", "**时长：** " + Asr.FormatTimestamp(TotalDuration(segs)) + "\n",
     "**关键画面：** " + IntText(imageCount) + " 张\n", "\n", "## 内容要点\n", "\n"]
  }

  /** The pieces `generate_summary` writes, in order. */
  function SummaryLines(segs: seq<Segment>, imageCount: nat): seq<string> {
    SummaryHeader(segs, imageCount) + MapIndexed(Take5(segs), SummaryBullet)
  }

  function Take5(segs: seq<Segment>): seq<Segment> {
    if |segs| <= 5 then segs else segs[..5]
  }

  /** `generate_summary`: the file's text; the image list only contributes its length. */
  method GenerateSummary(transcripts: seq<Segment>, imageCount: nat) returns (content: string)
    ensures content == Concat(SummaryLines(transcripts, imageCount))
  {
    var total := if transcripts == [] then 0.0 else transcripts[|transcripts| - 1].end;
    var lines := ["# 视频摘要\n", "\n", "**时长：** " + Asr.FormatTimestamp(total) + "\n",
                  "**关键画面：** " + IntText(imageCount) + " 张\n", "\n", "## 内容要点\n", "\n"];
    var first := Take5(transcripts);
    var i := 0;
    while i < |first|
      invariant 0 <= i <= |first|
      invariant lines == SummaryHeader(transcripts, imageCount) + MapIndexed(first[..i], SummaryBullet)
    {
      MapIndexedPrefix(first[..i + 1], SummaryBullet, i);
      assert first[..i + 1][..i] == first[..i];
      lines := lines + [IntText(i + 1) + ". " + Take(first[i].text, 50) + "...\n"];
      i := i + 1;
    }
    assert first[..i] == first;
    content := Concat(lines);
  }

  /**
   * At most five bullets, for the first five segments in order, each with at
   * most 50 characters of the segment's text; the duration shown is the last
   * segment's end, or 0 without segments.
   */
  lemma SummarySpec(segs: seq<Segment>, imageCount: nat)
    ensures var lines := SummaryLines(segs, imageCount);
            |lines| == 7 + (if |segs| < 5 then |segs| else 5) &&
            lines[2] == "**时长：** " + Asr.FormatTimestamp(if segs == [] then 0.0 else segs[|segs| - 1].end) + "\n" &&
            forall i :: 0 <= i < |lines| - 7 ==>
              lines[7 + i] == IntText(i + 1) + ". " + Take(segs[i].text, 50) + "...\n" &&
              |Take(segs[i].text, 50)| <= 50
  {
  }
}
