/**
 * The records passed between pipeline stages (src/video2markdown/models.py)
 * and their text formatters: SRT time stamps and entries, the plain
 * transcript document, and the time-window lookups.
 */
module Models {
  import opened Wrappers
  import opened Strings
  import opened Seqs

  /** A `(start, end)` pair of seconds. */
  datatype Interval = Interval(start: real, end: real)

  /**
   * Stage 1 output. The Python dataclass has no stable or unstable interval
   * fields, but the analyser assigns them and stage 3 reads them; they are
   * fields here.
   */
  datatype VideoInfo = VideoInfo(
    path: string,
    duration: real,
    width: int,
    height: int,
    fps: real,
    audioCodec: string,
    videoCodec: string,
    sceneChanges: seq<real>,
    stableIntervals: seq<Interval>,
    unstableIntervals: seq<Interval>)

  datatype Segment = Segment(start: real, end: real, text: string)

  datatype VideoTranscript = VideoTranscript(
    videoPath: string,
    title: string,
    language: string,
    segments: seq<Segment>,
    optimizedText: string)

  datatype KeyFrame = KeyFrame(timestamp: real, source: string, reason: string)

  datatype ImageDescription = ImageDescription(
    timestamp: real,
    imagePath: string,
    description: string,
    keyElements: seq<string>,
    relatedTranscript: string)

  /** Start and end are the strings the generator fills in ("00:00:00"). */
  datatype Chapter = Chapter(
    id: int,
    title: string,
    startTime: string,
    endTime: string,
    summary: string,
    keyPoints: seq<string>,
    cleanedTranscript: string,
    visualTimestamp: Option<real>,
    visualReason: Option<string>)

  datatype Document = Document(title: string, chapters: seq<Chapter>)

  // ---------------------------------------------------------------------
  // Python float arithmetic on exact values

  /** `a // b` for a positive divisor. */
  function FloorDiv(a: real, b: real): int
    requires b > 0.0
  {
    (a / b).Floor
  }

  /** `a % b` for a positive divisor: the remainder takes the divisor's sign. */
  function FloorMod(a: real, b: real): real
    requires b > 0.0
  {
    a - b * FloorDiv(a, b) as real
  }

  /** `int(x)`: truncation toward zero. */
  function Trunc(x: real): int {
    if x >= 0.0 then x.Floor else -((-x).Floor)
  }

  lemma MulLess(a: real, c: real, b: real)
    requires b > 0.0 && a < c
    ensures a * b < c * b
  {
    assert (c - a) * b > 0.0;
  }

  lemma BetweenByProduct(x: real, b: real, y: real, lo: real, hi: real)
    requires b > 0.0 && y * b == x && lo * b <= x < hi * b
    ensures lo <= y < hi
  {
    if y < lo {
      MulLess(y, lo, b);
    }
    if hi <= y {
      if hi < y {
        MulLess(hi, y, b);
      }
    }
  }

  lemma FloorOfQuotient(x: real, b: real, q: int)
    requires b > 0.0 && (q as real) * b <= x < ((q + 1) as real) * b
    ensures (x / b).Floor == q
  {
    BetweenByProduct(x, b, x / b, q as real, (q + 1) as real);
  }

  /** The floor of a quotient by a positive integer is the integer quotient of the floor. */
  lemma FloorDivFloor(x: real, b: int)
    requires b > 0
    ensures FloorDiv(x, b as real) == x.Floor / b
  {
    var w := x.Floor;
    var q := w / b;
    var r := w % b;
    assert w == q * b + r && 0 <= r < b;
    assert (q * b) as real == q as real * b as real;
    assert ((q + 1) * b) as real == (q + 1) as real * b as real;
    FloorOfQuotient(x, b as real, q);
  }

  /** The hour, minute, second and millisecond fields, each computed as the source does. */
  function Hours(seconds: real): int {
    Trunc(FloorDiv(seconds, 3600.0) as real)
  }

  function Minutes(seconds: real): int {
    Trunc(FloorDiv(FloorMod(seconds, 3600.0), 60.0) as real)
  }

  function Secs(seconds: real): int {
    Trunc(FloorMod(seconds, 60.0))
  }

  function Millis(seconds: real): int {
    Trunc(FloorMod(seconds, 1.0) * 1000.0)
  }

  /** `{:02d}:{:02d}:{:02d}<sep>{:03d}` */
  function ClockText(h: int, m: int, s: int, ms: int, sep: char): string {
    PadInt(h, 2) + ":" + PadInt(m, 2) + ":" + PadInt(s, 2) + [sep] + PadInt(ms, 3)
  }

  /**
   * `HH:MM:SS<sep>mmm` as both `TranscriptSegment.to_srt_time` (separator
   * ",") and `asr.format_timestamp` (separator ".") compute it.
   */
  function Clock(seconds: real, sep: char): string {
    ClockText(Hours(seconds), Minutes(seconds), Secs(seconds), Millis(seconds), sep)
  }

  /** For a non-negative time the fields are integer arithmetic on the whole seconds. */
  lemma ClockFields(seconds: real)
    requires seconds >= 0.0
    ensures var w := seconds.Floor;
            Hours(seconds) == w / 3600 && Minutes(seconds) == (w % 3600) / 60 &&
            Secs(seconds) == w % 60 && Millis(seconds) == ((seconds - w as real) * 1000.0).Floor
  {
    var w := seconds.Floor;
    FloorDivFloor(seconds, 3600);
    FloorDivFloor(seconds, 60);
    FloorDivFloor(seconds, 1);
    var m := FloorMod(seconds, 3600.0);
    assert m == (w % 3600) as real + (seconds - w as real) by {
      assert FloorDiv(seconds, 3600.0) == w / 3600;
      assert w == (w / 3600) * 3600 + w % 3600;
    }
    assert m.Floor == w % 3600;
    FloorDivFloor(m, 60);
    assert FloorMod(seconds, 60.0) == (w % 60) as real + (seconds - w as real) by {
      assert w == (w / 60) * 60 + w % 60;
    }
  }

  /** Fields below 100, 60, 60 and 1000 print as two, two, two and three digits that read back. */
  lemma ClockTextShape(h: int, m: int, s: int, ms: int, sep: char)
    requires 0 <= h < 100 && 0 <= m < 100 && 0 <= s < 100 && 0 <= ms < 1000
    ensures var c := ClockText(h, m, s, ms, sep);
            |c| == 12 && c[2] == ':' && c[5] == ':' && c[8] == sep &&
            AllDigits(c[..2]) && AllDigits(c[3..5]) && AllDigits(c[6..8]) && AllDigits(c[9..]) &&
            DigitsValue(c[..2]) == h && DigitsValue(c[3..5]) == m &&
            DigitsValue(c[6..8]) == s && DigitsValue(c[9..]) == ms
  {
    PadNatExact(h, 2);
    PadNatExact(m, 2);
    PadNatExact(s, 2);
    PadNatExact(ms, 3);
    var c := ClockText(h, m, s, ms, sep);
    var hh, mm, ss, mmm := PadNat(h, 2), PadNat(m, 2), PadNat(s, 2), PadNat(ms, 3);
    var front := hh + ":" + mm + ":" + ss + [sep];
    assert c == front + mmm;
    assert |front| == 9;
    assert c[9..] == mmm;
    assert c[..9] == front;
    assert front[..2] == hh && front[3..5] == mm && front[6..8] == ss;
    assert c[..2] == hh && c[3..5] == mm && c[6..8] == ss;
  }

  /** `TranscriptSegment.to_srt_time` */
  function SrtTime(seconds: real): string {
    Clock(seconds, ',')
  }

  /** `TranscriptSegment.to_srt_entry` */
  function SrtEntry(seg: Segment, index: int): string {
    IntText(index) + "\n" + SrtTime(seg.start) + " --> " + SrtTime(seg.end) + "\n" + seg.text + "\n"
  }

  /** The entry of the segment at position `i`, numbered `i + 1`. */
  function EntryAt(seg: Segment, i: nat): string {
    SrtEntry(seg, i + 1)
  }

  /** The entries of `VideoTranscript.to_srt`, numbered from 1. */
  function SrtEntries(segs: seq<Segment>): seq<string> {
    MapIndexed(segs, EntryAt)
  }

  /** `VideoTranscript.to_srt` */
  function ToSrt(t: VideoTranscript): string {
    Join("\n", SrtEntries(t.segments))
  }

  /** The padded fields the clock examples print. */
  lemma PadFacts()
    ensures PadInt(0, 2) == "00" && PadInt(1, 2) == "01" && PadInt(2, 2) == "02" && PadInt(5, 2) == "05"
    ensures PadInt(10, 2) == "10" && PadInt(45, 2) == "45"
    ensures PadInt(0, 3) == "000" && PadInt(123, 3) == "123" && PadInt(500, 3) == "500"
  {
    PadOneDigit(0, 2);
    PadOneDigit(1, 2);
    PadOneDigit(2, 2);
    PadOneDigit(5, 2);
    PadOneDigit(0, 3);
    assert NatText(10) == "10" && NatText(45) == "45";
    assert NatText(123) == "123" && NatText(500) == "500";
  }

  /** A single digit padded to width 2 or 3. */
  lemma PadOneDigit(d: nat, w: nat)
    requires d < 10 && 2 <= w <= 3
    ensures PadInt(d, w) == Zeros(w - 1) + [DigitChar(d)]
  {
  }

  /** The clock text for given field values of a non-negative time. */
  lemma ClockAt(seconds: real, h: int, m: int, sec: int, ms: int, sep: char)
    requires 0.0 <= seconds
    requires seconds.Floor / 3600 == h && (seconds.Floor % 3600) / 60 == m && seconds.Floor % 60 == sec
    requires ((seconds - seconds.Floor as real) * 1000.0).Floor == ms
    ensures Clock(seconds, sep) == ClockText(h, m, sec, ms, sep)
  {
    ClockFields(seconds);
  }

  lemma SrtSecondsText()
    ensures ClockText(0, 0, 5, 500, ',') == "00:00:05,500"
  {
    PadFacts();
  }

  lemma SrtHoursText()
    ensures ClockText(1, 1, 1, 123, ',') == "01:01:01,123"
  {
    PadFacts();
  }

  lemma SrtTimeExample()
    ensures SrtTime(5.5) == "00:00:05,500"
    ensures SrtTime(3661.123) == "01:01:01,123"
  {
    SrtSecondsText();
    SrtHoursText();
    assert (5.5).Floor == 5;
    ClockAt(5.5, 0, 0, 5, 500, ',');
    assert (3661.123).Floor == 3661;
    assert ((3661.123 - 3661.0) * 1000.0).Floor == 123;
    ClockAt(3661.123, 1, 1, 1, 123, ',');
  }

  // ---------------------------------------------------------------------
  // Word document

  /** The `[MM:SS]` tag: minutes are `start // 60` and are not reduced modulo 60. */
  function MinuteTag(start: real): string {
    "[" + PadInt(Trunc(FloorDiv(start, 60.0) as real), 2) + ":" + PadInt(Trunc(FloorMod(start, 60.0)), 2) + "]"
  }

  function WordLine(seg: Segment): string {
    MinuteTag(seg.start) + " " + seg.text
  }

  function WordHeader(t: VideoTranscript): seq<string> {
    ["# " + t.title, "", "视频文稿 | 语言: " + t.language, ""]
  }

  /** The lines of `to_word_document`: four header lines, then one line per segment in order. */
  function WordLines(t: VideoTranscript): (r: seq<string>)
    ensures |r| == 4 + |t.segments|
    ensures r[..4] == WordHeader(t)
    ensures forall i :: 0 <= i < |t.segments| ==> r[4 + i] == WordLine(t.segments[i])
  {
    WordHeader(t) + Map(t.segments, WordLine)
  }

  /** `VideoTranscript.to_word_document` */
  method ToWordDocument(t: VideoTranscript) returns (doc: string)
    ensures doc == Join("\n", WordLines(t))
  {
    var lines := WordHeader(t);
    var i := 0;
    while i < |t.segments|
      invariant 0 <= i <= |t.segments|
      invariant lines == WordHeader(t) + Map(t.segments[..i], WordLine)
    {
      MapPrefixSnoc(t.segments, i, WordLine);
      lines := lines + [WordLine(t.segments[i])];
      i := i + 1;
    }
    assert t.segments[..i] == t.segments;
    doc := Join("\n", lines);
  }

  lemma MinuteTagExample()
    ensures MinuteTag(5.0) == "[00:05]"
    ensures MinuteTag(3725.0) == "[62:05]"
  {
    assert FloorDiv(5.0, 60.0) == 0 && FloorMod(5.0, 60.0) == 5.0;
    assert FloorDiv(3725.0, 60.0) == 62 && FloorMod(3725.0, 60.0) == 5.0;
    assert Trunc(0.0) == 0 && Trunc(5.0) == 5 && Trunc(62.0) == 62;
    assert NatText(62) == "62";
    PadFacts();
  }

  // ---------------------------------------------------------------------
  // Time-window text

  /** The segment overlaps the closed window `[t - w, t + w]`. */
  predicate Overlaps(seg: Segment, t: real, w: real) {
    seg.start <= t + w && seg.end >= t - w
  }

  function SegText(seg: Segment): string {
    seg.text
  }

  /** The texts of the segments overlapping the window, in order. */
  function TextsAround(segs: seq<Segment>, t: real, w: real): seq<string> {
    Map(Filter(segs, seg => Overlaps(seg, t, w)), SegText)
  }

  /** One more segment adds its text exactly when it overlaps the window. */
  lemma TextsAroundSnoc(segs: seq<Segment>, seg: Segment, t: real, w: real)
    ensures TextsAround(segs + [seg], t, w) ==
            TextsAround(segs, t, w) + (if Overlaps(seg, t, w) then [seg.text] else [])
  {
    var p := (s: Segment) => Overlaps(s, t, w);
    FilterSnoc(segs, seg, p);
    MapSnoc(Filter(segs, p), seg, SegText);
  }

  /** The loop shared by `get_text_around` and `_find_transcript_context`. */
  method CollectTextsAround(segs: seq<Segment>, t: real, w: real) returns (relevant: seq<string>)
    ensures relevant == TextsAround(segs, t, w)
  {
    relevant := [];
    var i := 0;
    while i < |segs|
      invariant 0 <= i <= |segs|
      invariant relevant == TextsAround(segs[..i], t, w)
    {
      var seg := segs[i];
      TextsAroundSnoc(segs[..i], seg, t, w);
      assert segs[..i + 1] == segs[..i] + [seg];
      if seg.start <= t + w && seg.end >= t - w {
        relevant := relevant + [seg.text];
      }
      i := i + 1;
    }
    assert segs[..i] == segs;
  }

  /** `VideoTranscript.get_text_around` (window 10 by default). */
  method GetTextAround(tr: VideoTranscript, t: real, w: real) returns (text: string)
    ensures text == Join(" ", TextsAround(tr.segments, t, w))
  {
    var relevant := CollectTextsAround(tr.segments, t, w);
    text := Join(" ", relevant);
  }

  /** A segment's text is selected exactly when the segment overlaps the window. */
  lemma TextsAroundMembers(segs: seq<Segment>, t: real, w: real, seg: Segment)
    requires seg in segs
    ensures seg.text in TextsAround(segs, t, w) <== Overlaps(seg, t, w)
    ensures forall x :: x in TextsAround(segs, t, w) ==>
              exists s :: s in segs && Overlaps(s, t, w) && s.text == x
  {
    var p := (s: Segment) => Overlaps(s, t, w);
    var f := Filter(segs, p);
    FilterComplete(segs, p);
    if Overlaps(seg, t, w) {
      var k :| 0 <= k < |f| && f[k] == seg;
      assert TextsAround(segs, t, w)[k] == seg.text;
    }
    forall x | x in TextsAround(segs, t, w)
      ensures exists s :: s in segs && Overlaps(s, t, w) && s.text == x
    {
      var k :| 0 <= k < |f| && TextsAround(segs, t, w)[k] == x;
      assert f[k] in f;
    }
  }

  /** Sample from the test suite: a window of 3 s around 7 s picks the second of three 5 s segments. */
  lemma TextsAroundExample()
    ensures TextsAround([Segment(0.0, 3.0, "第一段"), Segment(5.0, 8.0, "第二段"), Segment(12.0, 15.0, "第三段")], 7.0, 3.0)
            == ["第二段"]
  {
    var segs := [Segment(0.0, 3.0, "第一段"), Segment(5.0, 8.0, "第二段"), Segment(12.0, 15.0, "第三段")];
    var p := (s: Segment) => Overlaps(s, 7.0, 3.0);
    assert segs[..2] == [Segment(0.0, 3.0, "第一段"), Segment(5.0, 8.0, "第二段")];
    assert segs[..1] == [Segment(0.0, 3.0, "第一段")];
    assert Filter(segs[..1], p) == [];
    assert Filter(segs[..2], p) == [Segment(5.0, 8.0, "第二段")];
  }

  // ---------------------------------------------------------------------
  // Lookups

  function FrameTimestamp(f: KeyFrame): real {
    f.timestamp
  }

  /** `KeyFrames.get_timestamps` */
  function GetTimestamps(frames: seq<KeyFrame>): (r: seq<real>)
    ensures |r| == |frames|
    ensures forall i :: 0 <= i < |frames| ==> r[i] == frames[i].timestamp
  {
    Map(frames, FrameTimestamp)
  }

  function Abs(x: real): real {
    if x < 0.0 then -x else x
  }

  predicate DescriptionNear(d: ImageDescription, t: real, tol: real) {
    Abs(d.timestamp - t) <= tol
  }

  /** The first description within the tolerance of `t`, if any. */
  function FirstNear(descs: seq<ImageDescription>, t: real, tol: real): (r: Option<ImageDescription>)
    ensures r.None? <==> forall i :: 0 <= i < |descs| ==> !DescriptionNear(descs[i], t, tol)
    ensures r.Some? ==> exists i :: 0 <= i < |descs| && descs[i] == r.value && DescriptionNear(descs[i], t, tol) &&
                          forall j :: 0 <= j < i ==> !DescriptionNear(descs[j], t, tol)
  {
    if descs == [] then None
    else if DescriptionNear(descs[0], t, tol) then Some(descs[0])
    else
      var r := FirstNear(descs[1..], t, tol);
      assert forall i :: 0 < i < |descs| ==> descs[1..][i - 1] == descs[i];
      assert r.Some? ==> exists i :: 0 < i < |descs| && descs[i] == r.value && DescriptionNear(descs[i], t, tol) &&
                           forall j :: 0 <= j < i ==> !DescriptionNear(descs[j], t, tol);
      r
  }

  /** `ImageDescriptions.get_by_timestamp` (tolerance 1.0 by default): a first-match loop. */
  method GetByTimestamp(descs: seq<ImageDescription>, t: real, tol: real) returns (r: Option<ImageDescription>)
    ensures r == FirstNear(descs, t, tol)
    ensures r.None? <==> forall i :: 0 <= i < |descs| ==> !DescriptionNear(descs[i], t, tol)
    ensures r.Some? ==> exists i :: 0 <= i < |descs| && descs[i] == r.value && DescriptionNear(descs[i], t, tol) &&
                          forall j :: 0 <= j < i ==> !DescriptionNear(descs[j], t, tol)
  {
    var i := 0;
    while i < |descs|
      invariant 0 <= i <= |descs|
      invariant forall j :: 0 <= j < i ==> !DescriptionNear(descs[j], t, tol)
      invariant FirstNear(descs[i..], t, tol) == FirstNear(descs, t, tol)
    {
      assert descs[i..][1..] == descs[i + 1..];
      if Abs(descs[i].timestamp - t) <= tol {
        return Some(descs[i]);
      }
      i := i + 1;
    }
    return None;
  }

  /**
   * The chapter's picture is within tolerance. Python's truthiness test
   * rejects a `visual_timestamp` of 0.0 as well as `None`.
   */
  predicate ChapterNear(ch: Chapter, t: real, tol: real) {
    ch.visualTimestamp.Some? && ch.visualTimestamp.value != 0.0 && Abs(ch.visualTimestamp.value - t) <= tol
  }

  /** `Document.get_chapter_with_visual` (tolerance 1.0 by default): a first-match loop. */
  method GetChapterWithVisual(doc: Document, t: real, tol: real) returns (r: Option<Chapter>)
    ensures r.None? <==> forall i :: 0 <= i < |doc.chapters| ==> !ChapterNear(doc.chapters[i], t, tol)
    ensures r.Some? ==> exists i :: 0 <= i < |doc.chapters| && doc.chapters[i] == r.value && ChapterNear(doc.chapters[i], t, tol) &&
                          forall j :: 0 <= j < i ==> !ChapterNear(doc.chapters[j], t, tol)
  {
    var i := 0;
    while i < |doc.chapters|
      invariant 0 <= i <= |doc.chapters|
      invariant forall j :: 0 <= j < i ==> !ChapterNear(doc.chapters[j], t, tol)
    {
      var ch := doc.chapters[i];
      if ch.visualTimestamp.Some? && ch.visualTimestamp.value != 0.0 && Abs(ch.visualTimestamp.value - t) <= tol {
        return Some(ch);
      }
      i := i + 1;
    }
    return None;
  }

  /** A chapter whose picture sits at 0.0 s is never found, whatever the tolerance. */
  lemma ZeroVisualNeverMatches(ch: Chapter, t: real, tol: real)
    requires ch.visualTimestamp == Some(0.0)
    ensures !ChapterNear(ch, t, tol)
  {
  }
}
