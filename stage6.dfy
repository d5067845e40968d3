/**
 * Stage 6 of the pipeline (src/video2markdown/stage6_generate.py): the
 * optimised transcript and the image descriptions are handed to the
 * language model, and the chapters of its JSON reply become the document,
 * renumbered from 1 and with defaults for missing keys.
 *
 * The model call and `json.loads` are not modelled: the reply text is an
 * input and decoding is a parameter that may fail.
 */
module Stage6 {
  import opened Wrappers
  import opened Strings
  import opened Seqs
  import opened Models
  import opened Document

  // =====================================================================
  // `_prepare_input`

  /** One entry of the `images` list sent to the model. */
  datatype ImageEntry = ImageEntry(timestamp: real, description: string, keyElements: seq<string>)

  /** The dictionary sent to the model: the title, the optimised text and the images. */
  datatype InputData = InputData(title: string, m1Text: string, images: seq<ImageEntry>)

  function EntryOf(d: ImageDescription): ImageEntry {
    ImageEntry(d.timestamp, d.description, d.keyElements)
  }

  /**
   * `_prepare_input`: one image entry per description, in order, and the
   * optimised text as `m1_text`; the keyframes argument is not used.
   */
  method PrepareInput(tr: VideoTranscript, keyframes: seq<KeyFrame>, descriptions: seq<ImageDescription>)
    returns (input: InputData)
    ensures input.title == tr.title && input.m1Text == tr.optimizedText
    ensures |input.images| == |descriptions|
    ensures forall k :: 0 <= k < |descriptions| ==>
              input.images[k].timestamp == descriptions[k].timestamp &&
              input.images[k].description == descriptions[k].description &&
              input.images[k].keyElements == descriptions[k].keyElements
  {
    var images: seq<ImageEntry> := [];
    var i := 0;
    while i < |descriptions|
      invariant 0 <= i <= |descriptions|
      invariant images == Map(descriptions[..i], EntryOf)
    {
      MapPrefixSnoc(descriptions, i, EntryOf);
      var desc := descriptions[i];
      images := images + [ImageEntry(desc.timestamp, desc.description, desc.keyElements)];
      i := i + 1;
    }
    assert descriptions[..i] == descriptions;
    input := InputData(tr.title, tr.optimizedText, images);
  }

  // =====================================================================
  // `_parse_response`

  /**
   * `_parse_response`: the reply with a ```` ```json ```` or plain code fence
   * stripped (the same cut as document.py's `_extract_json`), then decoded.
   */
  function ParseResponse(content: string, decode: string -> Result<DocData>): Result<DocData> {
    decode(ExtractJson(content))
  }

  /** A fenced reply is decoded from its stripped body; an unfenced one from the stripped reply. */
  lemma ParseResponseSpec(body: string, content: string, decode: string -> Result<DocData>)
    requires NoBacktick(body)
    ensures ParseResponse("```json" + body + "```", decode) == decode(Strip(body))
    ensures !StartsWith(body, "json") ==> ParseResponse("```" + body + "```", decode) == decode(Strip(body))
    ensures !Contains(Strip(content), "```") ==> ParseResponse(content, decode) == decode(Strip(content))
  {
    ExtractJsonFenced(body);
    if !StartsWith(body, "json") {
      ExtractJsonPlainFence(body);
    }
    if !Contains(Strip(content), "```") {
      ExtractJsonUnfenced(content);
    }
  }

  // =====================================================================
  // `generate_document`

  /** The `i`-th chapter (from 1): numbered `i` whatever the reply says, `章节 {i}` without a title. */
  function NumberedChapter(e: ChapterData, i: nat): Chapter {
    Chapter(
      i, e.title.GetOr("章节 " + IntText(i)), e.startTime.GetOr("00:00:00"), e.endTime.GetOr("00:00:00"),
      e.summary.GetOr(""), e.keyPoints.GetOr([]), e.cleanedTranscript.GetOr(""), e.visualTimestamp, e.visualReason)
  }

  /** `enumerate(doc_data.get("chapters", []), 1)` */
  function ChapterAt(e: ChapterData, k: nat): Chapter {
    NumberedChapter(e, k + 1)
  }

  /** `title or transcript.title`: a missing or empty title falls back to the transcript's. */
  function FallbackTitle(title: Option<string>, tr: VideoTranscript): string {
    if title.Some? && title.value != "" then title.value else tr.title
  }

  /** The document built from a decoded reply. */
  function DocumentOf(data: DocData, title: Option<string>, tr: VideoTranscript): Models.Document {
    Models.Document(data.title.GetOr(FallbackTitle(title, tr)), MapIndexed(data.chapters.GetOr([]), ChapterAt))
  }

  /** The loop that numbers the chapters. */
  method NumberChapters(entries: seq<ChapterData>) returns (chapters: seq<Chapter>)
    ensures chapters == MapIndexed(entries, ChapterAt)
  {
    chapters := [];
    var i := 0;
    while i < |entries|
      invariant 0 <= i <= |entries|
      invariant chapters == MapIndexed(entries[..i], ChapterAt)
    {
      MapIndexedPrefix(entries[..i + 1], ChapterAt, i);
      assert entries[..i + 1][..i] == entries[..i];
      chapters := chapters + [NumberedChapter(entries[i], i + 1)];
      i := i + 1;
    }
    assert entries[..i] == entries;
  }

  /**
   * `generate_document` after the model call: the reply is cut and decoded
   * (a reply that does not decode is an error), and its chapters are numbered.
   */
  method GenerateDocument(tr: VideoTranscript, title: Option<string>, reply: string, decode: string -> Result<DocData>)
    returns (r: Result<Models.Document>)
    ensures ParseResponse(reply, decode).Failure? ==> r == Failure(ParseResponse(reply, decode).error)
    ensures ParseResponse(reply, decode).Success? ==> r == Success(DocumentOf(ParseResponse(reply, decode).value, title, tr))
  {
    var docTitle := FallbackTitle(title, tr);
    var docData := ParseResponse(reply, decode);
    if docData.Failure? {
      return Failure(docData.error);
    }
    var chapters := NumberChapters(docData.value.chapters.GetOr([]));
    return Success(Models.Document(docData.value.title.GetOr(docTitle), chapters));
  }

  /**
   * Chapters follow the reply's entries one for one and are numbered 1..n
   * in that order, whatever ids the reply gives; a missing title becomes
   * `章节 {i}`; the document title is the reply's, else the argument when
   * it is not empty, else the transcript's.
   */
  lemma DocumentOfSpec(data: DocData, title: Option<string>, tr: VideoTranscript)
    ensures var doc := DocumentOf(data, title, tr);
            |doc.chapters| == |data.chapters.GetOr([])| &&
            (forall k :: 0 <= k < |doc.chapters| ==>
               doc.chapters[k].id == k + 1 &&
               (data.chapters.value[k].title.None? ==> doc.chapters[k].title == "章节 " + IntText(k + 1)) &&
               (data.chapters.value[k].title.Some? ==> doc.chapters[k].title == data.chapters.value[k].title.value) &&
               doc.chapters[k].visualTimestamp == data.chapters.value[k].visualTimestamp) &&
            (data.title.Some? ==> doc.title == data.title.value) &&
            (data.title.None? && title.Some? && title.value != "" ==> doc.title == title.value) &&
            (data.title.None? && (title.None? || title.value == "") ==> doc.title == tr.title)
  {
  }

  /** The ids are distinct and increasing, so chapter anchors never collide. */
  lemma ChapterIdsIncrease(data: DocData, title: Option<string>, tr: VideoTranscript)
    ensures var chs := DocumentOf(data, title, tr).chapters;
            forall a, b :: 0 <= a < b < |chs| ==> chs[a].id < chs[b].id
  {
  }
}
