/**
 * Stage 7 of the pipeline (src/video2markdown/stage7_render.py): the
 * document becomes the main Markdown page, each chapter picture being the
 * image description found within 1 s of the chapter's visual time, and the
 * described frames are copied next to a text file that explains them.
 *
 * Writing files is not modelled: the page is the returned text, and the
 * copies are the list of (image, text file, text) writes in order. Whether
 * a saved image exists and Python's `str` of a float are inputs.
 */
module Stage7 {
  import opened Wrappers
  import opened Strings
  import opened Seqs
  import opened Models

  // =====================================================================
  // `_render_main_document`

  /** The descriptions to pick pictures from and `str` of a float. */
  datatype Gallery = Gallery(descs: seq<ImageDescription>, show: real -> string)

  /** `ch.visual_timestamp` is truthy: present and not 0.0. */
  predicate HasVisualTime(ch: Chapter) {
    ch.visualTimestamp.Some? && ch.visualTimestamp.value != 0.0
  }

  /** The description shown for a chapter: the first within 1 s of its visual time. */
  function PictureOf(ch: Chapter, g: Gallery): Option<ImageDescription> {
    if HasVisualTime(ch) then FirstNear(g.descs, ch.visualTimestamp.value, 1.0) else None
  }

  function TocLine(ch: Chapter): string {
    IntText(ch.id) + ". [" + ch.title + "](#chapter-" + IntText(ch.id) + ")"
  }

  function HeaderLines(title: string): seq<string> {
    ["# " + title, "", "*AI 整理的视频内容*", "", "## 目录"]
  }

  function HeadLines(ch: Chapter): seq<string> {
    ["<a id='chapter-" + IntText(ch.id) + "'></a>", "## " + IntText(ch.id) + ". " + ch.title, "",
     "**时间:** [" + ch.startTime + " - " + ch.endTime + "]", "",
     "### 内容摘要", ch.summary, ""]
  }

  function Bullet(point: string): string {
    "- " + point
  }

  function KeyPointLines(ch: Chapter): seq<string> {
    if ch.keyPoints == [] then [] else ["### 关键要点"] + Map(ch.keyPoints, Bullet) + [""]
  }

  function ElementLines(d: ImageDescription): seq<string> {
    if d.keyElements == [] then [] else ["**关键元素:** " + Join(", ", d.keyElements), ""]
  }

  function PictureLines(ch: Chapter, g: Gallery): seq<string> {
    match PictureOf(ch, g)
    case None => []
    case Some(d) =>
      ["### 相关画面", "![" + g.show(ch.visualTimestamp.value) + "s](images/" + BaseName(d.imagePath) + ")", "",
       "**画面内容:**", "> " + d.description, ""] + ElementLines(d)
  }

  function TranscriptLines(ch: Chapter): seq<string> {
    if ch.cleanedTranscript == "" then []
    else ["### 原文记录", "<details>", "<summary>📄 查看原始转录</summary>", "", ch.cleanedTranscript, "</details>", ""]
  }

  /** One chapter's section. */
  function ChapterLines(ch: Chapter, g: Gallery): seq<string> {
    HeadLines(ch) + KeyPointLines(ch) + PictureLines(ch, g) + TranscriptLines(ch) + ["---", ""]
  }

  function Sections(chs: seq<Chapter>, g: Gallery): seq<seq<string>> {
    seq(|chs|, i requires 0 <= i < |chs| => ChapterLines(chs[i], g))
  }

  /** The lines `_render_main_document` joins with "\n". */
  function MainLines(doc: Document, g: Gallery): seq<string> {
    HeaderLines(doc.title) + Map(doc.chapters, TocLine) + ["", "---", ""] + Flatten(Sections(doc.chapters, g))
  }

  /** The picture block of one chapter, looked up with `get_by_timestamp`. */
  method RenderPicture(ch: Chapter, g: Gallery) returns (lines: seq<string>)
    ensures lines == PictureLines(ch, g)
  {
    lines := [];
    if ch.visualTimestamp.Some? && ch.visualTimestamp.value != 0.0 {
      var desc := GetByTimestamp(g.descs, ch.visualTimestamp.value, 1.0);
      if desc.Some? {
        var d := desc.value;
        lines := ["### 相关画面", "![" + g.show(ch.visualTimestamp.value) + "s](images/" + BaseName(d.imagePath) + ")", "",
                  "**画面内容:**", "> " + d.description, ""];
        var elements: seq<string> := [];
        if d.keyElements != [] {
          elements := ["**关键元素:** " + Join(", ", d.keyElements), ""];
        }
        lines := lines + elements;
      }
    }
  }

  /** One chapter's lines, appended block by block. */
  method RenderChapter(ch: Chapter, g: Gallery) returns (lines: seq<string>)
    ensures lines == ChapterLines(ch, g)
  {
    lines := ["<a id='chapter-" + IntText(ch.id) + "'></a>", "## " + IntText(ch.id) + ". " + ch.title, "",
              "**时间:** [" + ch.startTime + " - " + ch.endTime + "]", "", "### 内容摘要", ch.summary, ""];
    var keyPoints: seq<string> := [];
    if ch.keyPoints != [] {
      keyPoints := ["### 关键要点"];
      var j := 0;
      while j < |ch.keyPoints|
        invariant 0 <= j <= |ch.keyPoints|
        invariant keyPoints == ["### 关键要点"] + Map(ch.keyPoints[..j], Bullet)
      {
        MapPrefixSnoc(ch.keyPoints, j, Bullet);
        keyPoints := keyPoints + ["- " + ch.keyPoints[j]];
        j := j + 1;
      }
      assert ch.keyPoints[..j] == ch.keyPoints;
      keyPoints := keyPoints + [""];
    }
    var picture := RenderPicture(ch, g);
    var transcript: seq<string> := [];
    if ch.cleanedTranscript != "" {
      transcript := ["### 原文记录", "<details>", "<summary>📄 查看原始转录</summary>", "", ch.cleanedTranscript,
                     "</details>", ""];
    }
    lines := lines + keyPoints;
    lines := lines + picture;
    lines := lines + transcript;
    lines := lines + ["---", ""];
  }

  /** `_render_main_document` */
  method RenderMainDocument(doc: Document, g: Gallery) returns (md: string)
    ensures md == Join("\n", MainLines(doc, g))
  {
    var chs := doc.chapters;
    var lines := ["# " + doc.title, "", "*AI 整理的视频内容*", "", "## 目录"];
    assert lines == HeaderLines(doc.title);
    var i := 0;
    while i < |chs|
      invariant 0 <= i <= |chs|
      invariant lines == HeaderLines(doc.title) + Map(chs[..i], TocLine)
    {
      MapPrefixSnoc(chs, i, TocLine);
      lines := lines + [IntText(chs[i].id) + ". [" + chs[i].title + "](#chapter-" + IntText(chs[i].id) + ")"];
      i := i + 1;
    }
    assert chs[..i] == chs;
    lines := lines + ["", "---", ""];
    ghost var top := lines;
    ghost var blocks := Sections(chs, g);
    i := 0;
    while i < |chs|
      invariant 0 <= i <= |chs|
      invariant lines == top + Flatten(blocks[..i])
    {
      FlattenSnoc(blocks, i);
      var block := RenderChapter(chs[i], g);
      PlaceAfter(top, Flatten(blocks[..i]), block);
      lines := lines + block;
      i := i + 1;
    }
    assert blocks[..i] == blocks;
    md := Join("\n", lines);
  }

  /** The page opens with the title and lists one `chapter-{id}` line per chapter, in order. */
  lemma MainToc(doc: Document, g: Gallery)
    ensures var lines := MainLines(doc, g);
            var n := |doc.chapters|;
            |lines| >= 8 + n && lines[0] == "# " + doc.title && lines[4] == "## 目录" &&
            (forall i :: 0 <= i < n ==>
               lines[5 + i] == IntText(doc.chapters[i].id) + ". [" + doc.chapters[i].title + "](#chapter-" +
                               IntText(doc.chapters[i].id) + ")") &&
            lines[5 + n..8 + n] == ["", "---", ""]
  {
    var toc := Map(doc.chapters, TocLine);
    var body := Flatten(Sections(doc.chapters, g));
    PlaceAfter(HeaderLines(doc.title), toc, ["", "---", ""] + body);
    PlaceAfter(HeaderLines(doc.title) + toc, ["", "---", ""], body);
  }

  /** The block headings are different lines. */
  lemma HeadingsDistinct()
    ensures "### 关键要点" != "### 相关画面" && "### 相关画面" != "### 原文记录" && "### 相关画面" != "---"
    ensures "### 原文记录" != "---" && "### 关键要点" != "### 原文记录"
  {
    assert "### 关键要点"[4] == '关' && "### 相关画面"[4] == '相' && "### 原文记录"[4] == '原';
    assert |"---"| == 3 && |"### 相关画面"| == 8;
  }

  function KeyPointCount(ch: Chapter): nat {
    if ch.keyPoints == [] then 0 else |ch.keyPoints| + 2
  }

  function PictureCount(ch: Chapter, g: Gallery): nat {
    match PictureOf(ch, g)
    case None => 0
    case Some(d) => if d.keyElements == [] then 6 else 8
  }

  /**
   * A section opens with its `chapter-{id}` anchor and its heading, has
   * eight head lines and the optional blocks, and ends with "---" and an empty line.
   */
  lemma ChapterFrame(ch: Chapter, g: Gallery)
    ensures var b := ChapterLines(ch, g);
            |b| == 10 + KeyPointCount(ch) + PictureCount(ch, g) + (if ch.cleanedTranscript == "" then 0 else 7) &&
            b[0] == "<a id='chapter-" + IntText(ch.id) + "'></a>" &&
            b[1] == "## " + IntText(ch.id) + ". " + ch.title &&
            b[|b| - 2..] == ["---", ""]
  {
    var x := HeadLines(ch) + KeyPointLines(ch) + PictureLines(ch, g) + TranscriptLines(ch);
    assert |HeadLines(ch)| == 8 && |KeyPointLines(ch)| == KeyPointCount(ch) && |PictureLines(ch, g)| == PictureCount(ch, g);
    assert ChapterLines(ch, g) == x + ["---", ""];
    PrefixIndex(HeadLines(ch), KeyPointLines(ch) + PictureLines(ch, g) + TranscriptLines(ch) + ["---", ""], 0);
    PrefixIndex(HeadLines(ch), KeyPointLines(ch) + PictureLines(ch, g) + TranscriptLines(ch) + ["---", ""], 1);
  }

  /**
   * The picture heading follows the key points exactly when the chapter's
   * visual time is truthy and a description lies within 1 s of it; the
   * picture then links `images/` and the file name of the first such description.
   */
  lemma ChapterPicture(ch: Chapter, g: Gallery)
    ensures var b := ChapterLines(ch, g);
            var at := 8 + KeyPointCount(ch);
            |b| > at + 1 &&
            (b[at] == "### 相关画面" <==>
               HasVisualTime(ch) && exists i :: 0 <= i < |g.descs| && DescriptionNear(g.descs[i], ch.visualTimestamp.value, 1.0)) &&
            (PictureOf(ch, g).Some? ==>
               b[at + 1] == "![" + g.show(ch.visualTimestamp.value) + "s](images/" + BaseName(PictureOf(ch, g).value.imagePath) + ")")
  {
    var x := HeadLines(ch) + KeyPointLines(ch);
    assert |x| == 8 + KeyPointCount(ch);
    HeadingsDistinct();
    var p := PictureLines(ch, g);
    var rest := TranscriptLines(ch) + ["---", ""];
    assert ChapterLines(ch, g) == x + p + rest;
    if p != [] {
      PrefixIndex(x + p, rest, |x|);
      PrefixIndex(x + p, rest, |x| + 1);
    }
  }

  /** The key-elements line appears only for a picture with key elements, joined by ", ". */
  lemma ChapterElements(ch: Chapter, g: Gallery)
    requires PictureOf(ch, g).Some?
    ensures var b := ChapterLines(ch, g);
            var d := PictureOf(ch, g).value;
            var at := 8 + KeyPointCount(ch);
            |b| > at + 6 &&
            b[at + 4] == "> " + d.description &&
            (d.keyElements != [] ==> b[at + 6] == "**关键元素:** " + Join(", ", d.keyElements))
  {
    var x := HeadLines(ch) + KeyPointLines(ch);
    assert |x| == 8 + KeyPointCount(ch);
    var p := PictureLines(ch, g);
    var rest := TranscriptLines(ch) + ["---", ""];
    assert ChapterLines(ch, g) == x + p + rest;
    PrefixIndex(x + p, rest, |x| + 4);
    if PictureOf(ch, g).value.keyElements != [] {
      PrefixIndex(x + p, rest, |x| + 6);
    }
  }

  /** The transcript heading follows the picture block exactly when the transcript is not empty. */
  lemma ChapterTranscript(ch: Chapter, g: Gallery)
    ensures var b := ChapterLines(ch, g);
            var at := 8 + KeyPointCount(ch) + PictureCount(ch, g);
            |b| > at && (b[at] == "### 原文记录" <==> ch.cleanedTranscript != "")
  {
    var x := HeadLines(ch) + KeyPointLines(ch) + PictureLines(ch, g);
    assert |x| == 8 + KeyPointCount(ch) + PictureCount(ch, g);
    HeadingsDistinct();
    var t := TranscriptLines(ch);
    if t != [] {
      PrefixIndex(x + t, ["---", ""], |x|);
    }
  }

  // =====================================================================
  // `_copy_frames_with_descriptions`

  /** One copied frame: the image's destination, the text file and its text. */
  datatype Written = Written(image: string, textFile: string, text: string)

  /** The explanation saved next to a frame; the transcript excerpt is cut to 500 characters. */
  function DescriptionText(d: ImageDescription, show: real -> string): string {
    "时间戳: " + show(d.timestamp) + "s\n\n" + "描述: " + d.description + "\n\n" +
    "关键元素: " + Join(", ", d.keyElements) + "\n\n" + "相关文字稿:\n" + Take(d.relatedTranscript, 500) + "..."
  }

  function WrittenFor(d: ImageDescription, framesDir: string, show: real -> string): Written {
    Written(framesDir + "/" + BaseName(d.imagePath), framesDir + "/" + Stem(BaseName(d.imagePath)) + ".txt",
            DescriptionText(d, show))
  }

  /** What the loop writes: one entry per description whose image exists, in order. */
  function Copies(descs: seq<ImageDescription>, framesDir: string, exists_: string -> bool, show: real -> string): seq<Written> {
    Map(Filter(descs, (d: ImageDescription) => exists_(d.imagePath)), (d: ImageDescription) => WrittenFor(d, framesDir, show))
  }

  /** `_copy_frames_with_descriptions`: descriptions whose image is missing are skipped. */
  method CopyFramesWithDescriptions(descs: seq<ImageDescription>, framesDir: string, exists_: string -> bool,
                                    show: real -> string)
    returns (written: seq<Written>)
    ensures written == Copies(descs, framesDir, exists_, show)
  {
    var p := (d: ImageDescription) => exists_(d.imagePath);
    var w := (d: ImageDescription) => WrittenFor(d, framesDir, show);
    written := [];
    var i := 0;
    while i < |descs|
      invariant 0 <= i <= |descs|
      invariant written == Map(Filter(descs[..i], p), w)
    {
      var desc := descs[i];
      assert descs[..i + 1] == descs[..i] + [desc];
      FilterSnoc(descs[..i], desc, p);
      if exists_(desc.imagePath) {
        MapSnoc(Filter(descs[..i], p), desc, w);
        var name := BaseName(desc.imagePath);
        var text := DescriptionText(desc, show);
        written := written + [Written(framesDir + "/" + name, framesDir + "/" + Stem(name) + ".txt", text)];
      }
      i := i + 1;
    }
    assert descs[..i] == descs;
  }

  /**
   * Exactly the descriptions whose image exists are written, each next to
   * its image under the image's stem with a `.txt` suffix, and the
   * transcript excerpt in the text is a prefix of at most 500 characters.
   */
  lemma CopiesSpec(descs: seq<ImageDescription>, framesDir: string, exists_: string -> bool, show: real -> string)
    ensures forall d :: d in descs && exists_(d.imagePath) ==> WrittenFor(d, framesDir, show) in Copies(descs, framesDir, exists_, show)
    ensures forall c :: c in Copies(descs, framesDir, exists_, show) ==>
              exists d :: d in descs && exists_(d.imagePath) && c == WrittenFor(d, framesDir, show)
    ensures forall d: ImageDescription ::
              |Take(d.relatedTranscript, 500)| <= 500 &&
              Take(d.relatedTranscript, 500) <= d.relatedTranscript
  {
    var p := (d: ImageDescription) => exists_(d.imagePath);
    var w := (d: ImageDescription) => WrittenFor(d, framesDir, show);
    var kept := Filter(descs, p);
    FilterComplete(descs, p);
    forall d | d in descs && exists_(d.imagePath)
      ensures WrittenFor(d, framesDir, show) in Copies(descs, framesDir, exists_, show)
    {
      assert d in kept;
      var k :| 0 <= k < |kept| && kept[k] == d;
      assert Map(kept, w)[k] == w(d);
    }
    forall c | c in Copies(descs, framesDir, exists_, show)
      ensures exists d :: d in descs && exists_(d.imagePath) && c == WrittenFor(d, framesDir, show)
    {
      var k :| 0 <= k < |kept| && c == w(kept[k]);
      assert kept[k] in kept;
    }
  }
}
