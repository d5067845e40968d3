/**
 * The V3 document generator of src/video2markdown/document_v3.py. Its
 * fence stripping, chapter parsing and Markdown rendering are copies of
 * document.py's, so they are modelled by the `Document` definitions; the
 * members here state the V3 promises on them, and the convenience entry
 * point renders without frame mappings.
 */
module DocumentV3 {
  import opened Wrappers
  import opened Strings
  import opened Seqs
  import opened Document

  /**
   * `DocumentGeneratorV3._extract_json` is the document.py function line
   * for line: a fenced reply gives back its stripped body whether the fence
   * carries the `json` tag or not, and a reply without any fence is only stripped.
   */
  lemma ExtractJsonV3(body: string, content: string)
    requires NoBacktick(body)
    ensures Document.ExtractJson("```json" + body + "```") == Strip(body)
    ensures !StartsWith(body, "json") ==> Document.ExtractJson("```" + body + "```") == Strip(body)
    ensures !Contains(Strip(content), "```") ==> Document.ExtractJson(content) == Strip(content)
  {
    ExtractJsonFenced(body);
    if !StartsWith(body, "json") {
      ExtractJsonPlainFence(body);
    }
    if !Contains(Strip(content), "```") {
      ExtractJsonUnfenced(content);
    }
  }

  /** `DocumentGeneratorV3._parse_document_structure`: one chapter per entry, in order, with the same defaults. */
  method ParseDocumentStructureV3(data: DocData) returns (doc: DocumentStructure)
    ensures doc == Structure(data)
    ensures |doc.chapters| == |data.chapters.GetOr([])|
    ensures doc.title == data.title.GetOr("Untitled")
    ensures forall i :: 0 <= i < |doc.chapters| ==>
              var e := data.chapters.value[i];
              doc.chapters[i] ==
                DocChapter(e.id.GetOr(0), e.title.GetOr(""), e.startTime.GetOr("00:00:00"), e.endTime.GetOr("00:00:00"),
                           e.summary.GetOr(""), e.keyPoints.GetOr([]), e.cleanedTranscript.GetOr(""),
                           e.needsVisual.GetOr(false), e.visualTimestamp, e.visualReason)
  {
    doc := ParseDocumentStructure(data);
  }

  /**
   * `DocumentGeneratorV3.render_markdown`: the document.py page, which
   * opens with the title and lists one `section-{id}` entry per chapter, in order.
   */
  method RenderMarkdownV3(doc: DocumentStructure, v: Visuals) returns (md: string)
    ensures md == Join("\n", MarkdownLines(doc, v))
    ensures var lines := MarkdownLines(doc, v);
            |lines| >= 8 + |doc.chapters| && lines[0] == "# " + doc.title &&
            forall i :: 0 <= i < |doc.chapters| ==>
              lines[5 + i] == IntText(doc.chapters[i].id) + ". [" + doc.chapters[i].title + "](#section-" +
                              IntText(doc.chapters[i].id) + ")"
  {
    md := RenderMarkdown(doc, v);
    MarkdownToc(doc, v);
  }

  /** The visuals `generate_document_v3` renders with: a frame folder but no `frame_mappings`. */
  function NoMappings(framesDir: Option<string>, show: real -> string): (v: Visuals)
    ensures v.frameMappings == map[] && v.framesDir == framesDir
  {
    Visuals(framesDir, map[], show)
  }

  /**
   * `generate_document_v3` after the model call: the page of the returned
   * structure, rendered without frame mappings.
   */
  method GenerateDocumentV3(doc: DocumentStructure, framesDir: Option<string>, show: real -> string)
    returns (markdown: string, structure: DocumentStructure)
    ensures structure == doc
    ensures markdown == Join("\n", MarkdownLines(doc, NoMappings(framesDir, show)))
  {
    markdown := RenderMarkdown(doc, NoMappings(framesDir, show));
    structure := doc;
  }

  /**
   * Without frame mappings no chapter shows a picture, whatever it asks
   * for: every section is its head, its key points, its transcript and the
   * closing rule, and the line after the key points is never the picture heading.
   */
  lemma {:induction false} NoMappingsNoPictures(doc: DocumentStructure, framesDir: Option<string>, show: real -> string)
    ensures forall i :: 0 <= i < |doc.chapters| ==>
              Sections(doc.chapters, NoMappings(framesDir, show))[i] ==
              HeadLines(doc.chapters[i]) + KeyPointLines(doc.chapters[i]) + TranscriptLines(doc.chapters[i]) + ["---", ""]
    ensures forall ch: DocChapter ::
              |ChapterLines(ch, NoMappings(framesDir, show))| > 8 + KeyPointCount(ch) &&
              ChapterLines(ch, NoMappings(framesDir, show))[8 + KeyPointCount(ch)] != "### 相关画面"
  {
    var v := NoMappings(framesDir, show);
    forall i | 0 <= i < |doc.chapters|
      ensures Sections(doc.chapters, v)[i] ==
              HeadLines(doc.chapters[i]) + KeyPointLines(doc.chapters[i]) + TranscriptLines(doc.chapters[i]) + ["---", ""]
    {
      assert ImageLines(doc.chapters[i], v) == [];
      assert HeadLines(doc.chapters[i]) + KeyPointLines(doc.chapters[i]) + [] == HeadLines(doc.chapters[i]) + KeyPointLines(doc.chapters[i]);
    }
    forall ch: DocChapter
      ensures |ChapterLines(ch, v)| > 8 + KeyPointCount(ch)
      ensures ChapterLines(ch, v)[8 + KeyPointCount(ch)] != "### 相关画面"
    {
      ChapterImage(ch, v);
    }
  }
}
