/**
 * `parse_srt` of test_document_v3.py: an SRT file becomes a list of
 * segments. The file is cut into blocks at blank lines, and a block counts
 * when it has at least three lines and its second line is a time range
 * `HH:MM:SS,mmm --> HH:MM:SS,mmm`. The text is the remaining lines joined
 * with spaces.
 *
 * Reading the file is not modelled: its content is the input.
 */
module Srt {
  import opened Wrappers
  import opened Strings
  import opened Seqs
  import opened Models

  // =====================================================================
  // `re.split(r'\n\s*\n', content.strip())`

  /** The last newline of `s[lo..hi]`. */
  function LastNewline(s: string, lo: nat, hi: nat): (r: Option<nat>)
    requires lo <= hi <= |s|
    ensures r.Some? ==> lo <= r.value < hi && s[r.value] == '\n'
    ensures r.None? ==> forall j :: lo <= j < hi ==> s[j] != '\n'
    decreases hi - lo
  {
    if hi == lo then None
    else if s[hi - 1] == '\n' then Some(hi - 1)
    else LastNewline(s, lo, hi - 1)
  }

  /**
   * The end of a match of `\n\s*\n` starting at `p`: the greedy `\s*` takes
   * the whitespace after the newline and gives back down to its last newline.
   */
  function BlankEnd(s: string, p: nat): (r: Option<nat>)
    requires p < |s|
    ensures r.Some? ==> p + 2 <= r.value <= |s|
  {
    if s[p] != '\n' then None
    else
      match LastNewline(s, p + 1, p + 1 + SpaceRun(s, p + 1))
      case None => None
      case Some(q) => Some(q + 1)
  }

  /** The leftmost match at or after `p`: where it starts and where it ends. */
  function NextBlank(s: string, p: nat): (r: Option<(nat, nat)>)
    requires p <= |s|
    ensures r.Some? ==> p <= r.value.0 < |s| && BlankEnd(s, r.value.0) == Some(r.value.1) &&
                        forall j :: p <= j < r.value.0 ==> BlankEnd(s, j).None?
    ensures r.None? ==> forall j :: p <= j < |s| ==> BlankEnd(s, j).None?
    decreases |s| - p
  {
    if p == |s| then None
    else
      match BlankEnd(s, p)
      case Some(e) => Some((p, e))
      case None => NextBlank(s, p + 1)
  }

  /** `re.split(r'\n\s*\n', s)`: the pieces between the blank-line separators, in order. */
  function Blocks(s: string): (r: seq<string>)
    ensures |r| >= 1
    decreases |s|
  {
    match NextBlank(s, 0)
    case None => [s]
    case Some(m) => [s[..m.0]] + Blocks(s[m.1..])
  }

  // =====================================================================
  // The time line

  /** `h*3600 + m*60 + s + ms/1000` */
  function ClockValue(h: nat, m: nat, s: nat, ms: nat): real {
    (h * 3600 + m * 60 + s) as real + ms as real / 1000.0
  }

  /** `(\d{2}):(\d{2}):(\d{2}),(\d{3})` at position `i` of `s`, read as seconds. */
  function StampAt(s: string, i: nat): (r: Option<real>)
    ensures r.Some? ==> i + 12 <= |s|
  {
    if i + 12 <= |s| && AllDigits(s[i..i + 2]) && s[i + 2] == ':' && AllDigits(s[i + 3..i + 5]) &&
       s[i + 5] == ':' && AllDigits(s[i + 6..i + 8]) && s[i + 8] == ',' && AllDigits(s[i + 9..i + 12])
    then Some(ClockValue(DigitsValue(s[i..i + 2]), DigitsValue(s[i + 3..i + 5]),
                         DigitsValue(s[i + 6..i + 8]), DigitsValue(s[i + 9..i + 12])))
    else None
  }

  /**
   * `re.match(r'(\d{2}):(\d{2}):(\d{2}),(\d{3})\s*-->\s*(\d{2}):(\d{2}):(\d{2}),(\d{3})', line)`:
   * the start and end, when the line begins with such a range.
   */
  function TimeRange(line: string): Option<(real, real)> {
    match StampAt(line, 0)
    case None => None
    case Some(start) =>
      var k := 12 + SpaceRun(line, 12);
      if k + 3 <= |line| && line[k..k + 3] == "-->" then
        match StampAt(line, k + 3 + SpaceRun(line, k + 3))
        case None => None
        case Some(end) => Some((start, end))
      else None
  }

  // =====================================================================
  // Blocks to segments

  /** The segment a block gives, if any. */
  function BlockSegment(block: string): Option<Segment> {
    var lines := Split(Strip(block), "\n");
    if |lines| < 3 then None
    else
      match TimeRange(lines[1])
      case None => None
      case Some(range) => Some(Segment(range.0, range.1, Strip(Join(" ", lines[2..]))))
  }

  /** The segments of the blocks that give one, in block order. */
  function Segments(blocks: seq<string>): seq<Segment> {
    Somes(Map(blocks, BlockSegment))
  }

  /** The segments of an SRT text. */
  function Parsed(content: string): seq<Segment> {
    Segments(Blocks(Strip(content)))
  }

  /** `parse_srt` on the file's content. */
  method ParseSrt(content: string) returns (segments: seq<Segment>)
    ensures segments == Parsed(content)
  {
    var blocks := Blocks(Strip(content));
    segments := [];
    var i := 0;
    while i < |blocks|
      invariant 0 <= i <= |blocks|
      invariant segments == Segments(blocks[..i])
    {
      MapPrefixSnoc(blocks, i, BlockSegment);
      SomesSnoc(Map(blocks[..i], BlockSegment), BlockSegment(blocks[i]));
      var seg := ReadBlock(blocks[i]);
      if seg.Some? {
        segments := segments + [seg.value];
      }
      i := i + 1;
    }
    assert blocks[..i] == blocks;
  }

  /** One turn of the `parse_srt` loop: the lines of the stripped block, its time line and its text. */
  method ReadBlock(block: string) returns (seg: Option<Segment>)
    ensures seg == BlockSegment(block)
  {
    var lines := Split(Strip(block), "\n");
    seg := None;
    if |lines| >= 3 {
      var timeLine := lines[1];
      var text := Join(" ", lines[2..]);
      var range := TimeRange(timeLine);
      if range.Some? {
        seg := Some(Segment(range.value.0, range.value.1, Strip(text)));
      }
    }
  }

  // =====================================================================
  // Properties

  /** Segments keep file order: the segments of two runs of blocks are those of the first, then the second. */
  lemma SegmentsAppend(a: seq<string>, b: seq<string>)
    ensures Segments(a + b) == Segments(a) + Segments(b)
  {
    MapAppend(a, b, BlockSegment);
    SomesAppend(Map(a, BlockSegment), Map(b, BlockSegment));
  }

  /** A segment comes from a block, and every block that gives one is represented. */
  lemma SegmentsFromBlocks(blocks: seq<string>)
    ensures forall seg :: seg in Segments(blocks) <==>
              exists k :: 0 <= k < |blocks| && BlockSegment(blocks[k]) == Some(seg)
  {
    var found := Map(blocks, BlockSegment);
    SomesMembers(found);
    forall seg
      ensures Some(seg) in found <==> exists k :: 0 <= k < |blocks| && BlockSegment(blocks[k]) == Some(seg)
    {
      if Some(seg) in found {
        var k :| 0 <= k < |found| && found[k] == Some(seg);
        assert BlockSegment(blocks[k]) == Some(seg);
      }
    }
  }

  /** Blocks of fewer than three lines, or whose second line is no time range, give nothing. */
  lemma SkippedBlocks(block: string)
    ensures |Split(Strip(block), "\n")| < 3 ==> BlockSegment(block).None?
    ensures |Split(Strip(block), "\n")| >= 3 && TimeRange(Split(Strip(block), "\n")[1]).None? ==> BlockSegment(block).None?
  {
  }

  /** No block holds a blank line: a newline is never followed straight by another. */
  lemma {:induction false} BlocksHaveNoBlankLine(s: string)
    ensures forall k :: 0 <= k < |Blocks(s)| ==> !Contains(Blocks(s)[k], "\n\n")
    decreases |s|
  {
    match NextBlank(s, 0)
    case None =>
      NoDoubleNewline(s, |s|);
      assert s[..|s|] == s;
    case Some(m) =>
      NoDoubleNewline(s, m.0);
      BlocksHaveNoBlankLine(s[m.1..]);
      assert Blocks(s) == [s[..m.0]] + Blocks(s[m.1..]);
  }

  /** Before the first match there are no two newlines in a row. */
  lemma NoDoubleNewline(s: string, a: nat)
    requires a <= |s|
    requires forall j :: 0 <= j < a ==> BlankEnd(s, j).None?
    ensures !Contains(s[..a], "\n\n")
  {
    ContainsIff(s[..a], "\n\n");
    forall k | 0 <= k < a - 1
      ensures !OccursAt(s[..a], "\n\n", k)
    {
      if s[k] == '\n' {
        assert BlankEnd(s, k).None?;
        assert s[k + 1] != '\n';
        Mismatch(s[..a], "\n\n", k, 1);
      } else {
        Mismatch(s[..a], "\n\n", k, 0);
      }
    }
  }

  // =====================================================================
  // Reading back what `to_srt` writes

  /** Division by 60 from the quotient and remainder. */
  lemma DivMod60(w: int, q: int, r: int)
    requires 0 <= r < 60 && w == q * 60 + r
    ensures w / 60 == q && w % 60 == r
  {
  }

  /** The clock fields of a time in whole milliseconds under 100 hours add back up to it. */
  lemma MillisReadBack(x: real, n: nat)
    requires n < 360000000 && x == n as real / 1000.0
    ensures 0 <= Hours(x) < 100 && 0 <= Minutes(x) < 60 && 0 <= Secs(x) < 60 && 0 <= Millis(x) < 1000
    ensures ClockValue(Hours(x), Minutes(x), Secs(x), Millis(x)) == x
  {
    var w := n / 1000;
    var r := n % 1000;
    assert (w as real) * 1000.0 <= n as real < ((w + 1) as real) * 1000.0;
    FloorOfQuotient(n as real, 1000.0, w);
    assert x.Floor == w;
    ClockFields(x);
    assert x - w as real == r as real / 1000.0;
    assert Millis(x) == r;
    var h := w / 3600;
    var rem := w % 3600;
    var m := rem / 60;
    var sec := rem % 60;
    assert rem == m * 60 + sec;
    assert w == (h * 60 + m) * 60 + sec;
    DivMod60(w, h * 60 + m, sec);
    assert h * 3600 + m * 60 + sec == w;
  }

  /** A clock printed with a comma reads back, wherever it stands in a line. */
  lemma StampReadBack(pre: string, post: string, h: int, m: int, s: int, ms: int)
    requires 0 <= h < 100 && 0 <= m < 100 && 0 <= s < 100 && 0 <= ms < 1000
    ensures StampAt(pre + ClockText(h, m, s, ms, ',') + post, |pre|) == Some(ClockValue(h, m, s, ms))
  {
    var c := ClockText(h, m, s, ms, ',');
    ClockTextShape(h, m, s, ms, ',');
    var line := pre + c + post;
    var i := |pre|;
    assert line[i..i + 12] == c;
    SliceOfSlice(line, i, i + 12, 0, 2);
    SliceOfSlice(line, i, i + 12, 3, 5);
    SliceOfSlice(line, i, i + 12, 6, 8);
    SliceOfSlice(line, i, i + 12, 9, 12);
  }

  /** The spaces and arrow between two printed clocks are read over. */
  lemma ArrowRead(c1: string, c2: string)
    requires |c1| == 12 && c2 != [] && IsDigit(c2[0])
    ensures var line := c1 + " --> " + c2;
            12 + SpaceRun(line, 12) == 13 && line[13..16] == "-->" && 16 + SpaceRun(line, 16) == 17
  {
    var line := c1 + " --> " + c2;
    assert line[12] == ' ' && line[13] == '-' && line[16] == ' ' && line[17] == c2[0];
    assert SpaceRun(line, 13) == 0;
    assert SpaceRun(line, 17) == 0;
    assert line[13..16] == "-->";
  }

  /** A time line printed from clock fields reads back as those fields' values. */
  lemma ClockLineReadBack(h1: int, m1: int, s1: int, ms1: int, h2: int, m2: int, s2: int, ms2: int)
    requires 0 <= h1 < 100 && 0 <= m1 < 100 && 0 <= s1 < 100 && 0 <= ms1 < 1000
    requires 0 <= h2 < 100 && 0 <= m2 < 100 && 0 <= s2 < 100 && 0 <= ms2 < 1000
    ensures TimeRange(ClockText(h1, m1, s1, ms1, ',') + " --> " + ClockText(h2, m2, s2, ms2, ',')) ==
            Some((ClockValue(h1, m1, s1, ms1), ClockValue(h2, m2, s2, ms2)))
  {
    var c1 := ClockText(h1, m1, s1, ms1, ',');
    var c2 := ClockText(h2, m2, s2, ms2, ',');
    ClockTextShape(h1, m1, s1, ms1, ',');
    ClockTextShape(h2, m2, s2, ms2, ',');
    assert c2[..2][0] == c2[0];
    var line := c1 + " --> " + c2;
    StampReadBack([], " --> " + c2, h1, m1, s1, ms1);
    assert [] + c1 + (" --> " + c2) == line;
    StampReadBack(c1 + " --> ", [], h2, m2, s2, ms2);
    assert c1 + " --> " + c2 + [] == line;
    ArrowRead(c1, c2);
  }

  /** `to_srt_time` and the time-line pattern are inverse on whole milliseconds under 100 hours. */
  lemma SrtTimeReadBack(x: real, y: real, a: nat, b: nat)
    requires a < 360000000 && b < 360000000
    requires x == a as real / 1000.0 && y == b as real / 1000.0
    ensures TimeRange(SrtTime(x) + " --> " + SrtTime(y)) == Some((x, y))
  {
    MillisReadBack(x, a);
    MillisReadBack(y, b);
    assert SrtTime(x) == ClockText(Hours(x), Minutes(x), Secs(x), Millis(x), ',');
    assert SrtTime(y) == ClockText(Hours(y), Minutes(y), Secs(y), Millis(y), ',');
    ClockLineReadBack(Hours(x), Minutes(x), Secs(x), Millis(x), Hours(y), Minutes(y), Secs(y), Millis(y));
  }

  /** A printed clock holds no newline. */
  lemma ClockAvoidsNewline(h: int, m: int, s: int, ms: int)
    requires 0 <= h < 100 && 0 <= m < 100 && 0 <= s < 100 && 0 <= ms < 1000
    ensures Avoids(ClockText(h, m, s, ms, ','), '\n')
  {
    var c := ClockText(h, m, s, ms, ',');
    ClockTextShape(h, m, s, ms, ',');
    forall i | 0 <= i < 12
      ensures c[i] != '\n'
    {
      if i < 2 {
        assert c[..2][i] == c[i];
      } else if 3 <= i < 5 {
        assert c[3..5][i - 3] == c[i];
      } else if 6 <= i < 8 {
        assert c[6..8][i - 6] == c[i];
      } else if 9 <= i {
        assert c[9..][i - 9] == c[i];
      }
    }
  }

  /** Two clocks and the arrow between them make one line. */
  lemma ArrowLineAvoidsNewline(c1: string, c2: string)
    requires Avoids(c1, '\n') && Avoids(c2, '\n')
    ensures Avoids(c1 + " --> " + c2, '\n')
  {
    var line := c1 + " --> " + c2;
    forall i | 0 <= i < |line|
      ensures line[i] != '\n'
    {
      if i < |c1| {
        assert line[i] == c1[i];
      } else if i >= |c1| + 5 {
        assert line[i] == c2[i - |c1| - 5];
      }
    }
  }

  /** `strip()` takes only the final newline off a line that is otherwise stripped. */
  lemma StripNewlineEnded(core: string)
    requires core != [] && IsStripped(core)
    ensures Strip(core + "\n") == core
  {
    var s := core + "\n";
    assert LStrip(s) == s;
    assert s[..|s| - 1] == core;
    assert RStrip(s) == RStrip(core);
  }

  /** Three newline-free lines, the last one stripped and ending in a newline, split back apart. */
  lemma ThreeLines(n: string, line: string, text: string)
    requires n != [] && !IsSpace(n[0]) && Avoids(n, '\n') && Avoids(line, '\n')
    requires text != [] && IsStripped(text) && Avoids(text, '\n')
    ensures Split(Strip(n + "\n" + line + "\n" + text + "\n"), "\n") == [n, line, text]
  {
    var parts := [n, line, text];
    CharAbsent(n, '\n');
    CharAbsent(line, '\n');
    CharAbsent(text, '\n');
    var core := n + "\n" + line + "\n" + text;
    assert Join("\n", parts) == core by {
      JoinCons("\n", n, [line, text]);
      JoinCons("\n", line, [text]);
      assert parts[1..] == [line, text];
    }
    assert core[0] == n[0] && core[|core| - 1] == text[|text| - 1];
    StripNewlineEnded(core);
    assert n + "\n" + line + "\n" + text + "\n" == core + "\n";
    NoStraddleSingle(n, '\n');
    NoStraddleSingle(line, '\n');
    SplitJoin(parts, "\n");
  }

  /** The time line `to_srt` writes holds no newline. */
  lemma TimeLineAvoidsNewline(x: real, y: real, a: nat, b: nat)
    requires a < 360000000 && b < 360000000
    requires x == a as real / 1000.0 && y == b as real / 1000.0
    ensures Avoids(SrtTime(x) + " --> " + SrtTime(y), '\n')
  {
    MillisReadBack(x, a);
    MillisReadBack(y, b);
    ClockAvoidsNewline(Hours(x), Minutes(x), Secs(x), Millis(x));
    ClockAvoidsNewline(Hours(y), Minutes(y), Secs(y), Millis(y));
    ArrowLineAvoidsNewline(SrtTime(x), SrtTime(y));
  }

  /** The lines of a printed number: one digit string. */
  lemma NumberLine(index: nat)
    ensures IntText(index) != [] && !IsSpace(IntText(index)[0]) && Avoids(IntText(index), '\n')
  {
    var n := IntText(index);
    assert IsDigit(n[0]);
  }

  /** The three lines of a printed entry: the number, the time line and the text. */
  lemma EntryLines(seg: Segment, index: nat, a: nat, b: nat)
    requires a < 360000000 && b < 360000000
    requires seg.start == a as real / 1000.0 && seg.end == b as real / 1000.0
    requires seg.text != [] && IsStripped(seg.text) && !Contains(seg.text, "\n")
    ensures Split(Strip(SrtEntry(seg, index)), "\n") ==
            [IntText(index), SrtTime(seg.start) + " --> " + SrtTime(seg.end), seg.text]
  {
    var n := IntText(index);
    var line := SrtTime(seg.start) + " --> " + SrtTime(seg.end);
    assert SrtEntry(seg, index) == n + "\n" + line + "\n" + seg.text + "\n";
    TimeLineAvoidsNewline(seg.start, seg.end, a, b);
    NumberLine(index);
    CharFree(seg.text, '\n');
    ThreeLines(n, line, seg.text);
  }

  /**
   * An entry `to_srt` writes for a segment reads back as that segment, when
   * its times are whole milliseconds under 100 hours and its text is one
   * non-empty stripped line.
   */
  lemma EntryReadBack(seg: Segment, index: nat, a: nat, b: nat)
    requires a < 360000000 && b < 360000000
    requires seg.start == a as real / 1000.0 && seg.end == b as real / 1000.0
    requires seg.text != [] && IsStripped(seg.text) && !Contains(seg.text, "\n")
    ensures BlockSegment(SrtEntry(seg, index)) == Some(seg)
  {
    var line := SrtTime(seg.start) + " --> " + SrtTime(seg.end);
    SrtTimeReadBack(seg.start, seg.end, a, b);
    EntryLines(seg, index, a, b);
    ThreeLineBlock(SrtEntry(seg, index), IntText(index), line, seg);
  }

  /** A block of three lines whose second is a time range gives the segment of that range and the third line. */
  lemma ThreeLineBlock(block: string, n: string, line: string, seg: Segment)
    requires Split(Strip(block), "\n") == [n, line, seg.text]
    requires TimeRange(line) == Some((seg.start, seg.end)) && IsStripped(seg.text)
    ensures BlockSegment(block) == Some(seg)
  {
    var lines := [n, line, seg.text];
    assert lines[1] == line && lines[2..] == [seg.text];
    assert Join(" ", lines[2..]) == seg.text;
    StripOfStripped(seg.text);
  }
}
