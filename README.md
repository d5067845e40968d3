# video2markdown, modelled in Dafny

video2markdown turns a lecture or screen-recording video into a Markdown
document. Its pipeline goes through these stages:

1. Find stable and unstable stretches of the timeline (`stage1_analyze.py`).
2. Transcribe the audio in overlapping chunks (`audio.py`, `asr.py`).
3. Sample candidate keyframes from the stable stretches and at scene changes (`stage3_keyframes.py`).
4. Thin the candidates through three gates: proximity, text content and transcript context (`stage4_filter.py`).
5. Describe the kept frames with a vision model (`stage5_analyze_images.py`, `vision.py`).
6. Ask a language model for a chapter structure (`stage6_generate.py`, `document.py`, `document_v3.py`).
7. Render the Markdown (`stage7_render.py`).

Around the stages sit the record types and their text formats
(`models.py`), the frame helpers (`video.py`), the prompt-file loader
(`prompts.py`), the API usage counters (`stats.py`), and the SRT reader in
`test_document_v3.py`.

This project models the decision logic of each of those files:

- the interval arithmetic and the timestamp schedules;
- the gate order of the filters;
- the text each renderer writes, line by line;
- the defaults applied to model replies;
- the candidate order of the prompt loader;
- the counters.

Its Dafny modules follow the source files one to one: `Stage1Analyze`,
`Stage3Keyframes`, `Stage4Filter`, `Stage5`, `Stage6`, `Stage7`, `Asr`,
`Audio`, `Models`, `Video`, `Vision`, `Document`, `DocumentV3`, `Prompts`,
`Stats` and `Srt`. Shared helpers sit in their own modules:

- `Wrappers` holds `Option` and `Result`;
- `Strings` holds Python's `strip`, `find`, `split`, `join`, slicing and `%d`/`.Nf` formatting;
- `Grid` holds the arithmetic progressions behind every `x += step` loop;
- `Json` holds the decoded JSON/YAML values;
- `Seqs` holds sequence utilities and the in-place sort used for `list.sort(key=...)`;
- `Media` holds the shared frame and interval records.

Conventions of the model:

- **Time.** Times are exact `real` numbers. `.Nf` formatting rounds the
  exact value half to even. `str(float)` is an injected function `show`.
- **Frames and pixels.** Every frame read is an injected decoder that returns
  an `Option`, and every OpenCV quantity is an injected function: mean
  absolute difference, edge ratio, dark and white ratios, and the
  Laplacian variance.
- **External replies.** Replies from the speech, vision and language APIs
  are arbitrary inputs given as parameters. So is the file tree the prompt
  loader searches. Where the code probes the decoded value itself (the
  transcription reply, the image description, the prompt frontmatter), the
  result of `json.loads` or `yaml.safe_load` is a `Json` value with `null`,
  numbers, strings, lists and objects. The chapter replies and the usage
  record are typed records instead: each key is either absent or holds a
  value of the expected type.
- **Imperative code.** Loops that append to lists become methods with loop
  invariants, each proved equal to a recursive specification function. The
  in-place sorts and list mutations of `_build_intervals` and
  `extract_candidate_frames` act on arrays. The stateful objects
  (`UsageStats`, `PromptLoader`, `VisionProcessor` and the module-level
  singletons) are classes.
- **Proved properties.** These are stated about the specification functions.
  They include:
  - the sorted, separated, cover-preserving merge of unstable intervals;
  - stable gaps of at least the minimum length;
  - the strides of the keyframe samples, and their ordering;
  - the minimum gap between kept frames;
  - that the boundary-refinement fallback is unreachable;
  - the exact text of every renderer;
  - read-back of the SRT and timestamp formats;
  - the overlapping audio-chunk schedule.

## Model

| member | source | states |
|---|---|---|
| Stage1Analyze.AnalyzeVideo | src/video2markdown/stage1_analyze.py:36-69 | a missing file fails; an audio-only file gets no scene changes, no unstable intervals and one stable interval `(0, duration)` exactly when the duration is positive; a video fails exactly when the capture does not open or `int(fps)` is 0, and otherwise carries the scene changes and intervals `_analyze_video_stability` promises (`StabilityFacts`); apart from those three fields the metadata is returned unchanged |
| Stage1Analyze.AnalyzeStability | src/video2markdown/stage1_analyze.py:159-191 | fails exactly when the capture does not open or `int(fps)` is 0; on success (`StabilityFacts`) scene changes are the midpoints of the unstable intervals, no coarse change means one stable interval `(0, duration)`, and otherwise every `_build_intervals` promise holds of the refined boundaries of the coarse changes, completeness of the stable gaps included |
| Stage1Analyze.RangeCountSpec | src/video2markdown/stage1_analyze.py:200 | `range(0, total, step)` has a k-th element exactly when `k*step < total` |
| Stage1Analyze.RoughChanges | src/video2markdown/stage1_analyze.py:194-224 | fails exactly when `int(fps)` is 0 (Python's `range` rejects a zero step); otherwise returns the recursive scan `Scan` of the frames `0, step, 2*step, ...`, which stops at the first unreadable frame |
| Stage1Analyze.ScanStep | src/video2markdown/stage1_analyze.py:201-217 | one loop iteration: an unreadable frame ends the scan; a readable one records its time when it differs by more than 15 from the previous frame and lies at least 1 s after the last recorded change |
| Stage1Analyze.ScanAdvance | src/video2markdown/stage1_analyze.py:200-217 | after one readable sample, what is recorded plus what the rest of the scan records is unchanged (the loop invariant of `RoughChanges`) |
| Stage1Analyze.ScanSpaced | src/video2markdown/stage1_analyze.py:212-215 | every recorded change is at least 1 s after the one before it (and after the starting time) |
| Stage1Analyze.RoughChangesSpaced | src/video2markdown/stage1_analyze.py:198-215 | the coarse changes increase and any two are at least one second apart |
| Stage1Analyze.SpacedApart | src/video2markdown/stage1_analyze.py:213 | in a spaced list the `j`-th change is at least `j - i` seconds after the `i`-th |
| Stage1Analyze.ScanWitness | src/video2markdown/stage1_analyze.py:200-215 | every recorded time is the time of some sample that differed by more than 15 from the readable sample before it |
| Stage1Analyze.RoughChangeWitness | src/video2markdown/stage1_analyze.py:200-215 | each coarse change is at `j*step/fps` for some `j >= 1` with `j*step < total_frames`, every sample up to `j` was readable, and the difference between samples `j-1` and `j` exceeds 15 |
| Stage1Analyze.SampleAt | src/video2markdown/stage1_analyze.py:247-251 | at most one sample, at the time asked for, present when the frame at `int(ts*fps)` is readable |
| Stage1Analyze.Readable | src/video2markdown/stage1_analyze.py:244-252 | the readable samples are no more than the times tried and each is at one of those times |
| Stage1Analyze.SampleWindow | src/video2markdown/stage1_analyze.py:240-252 | the 100 ms sampling loop from `max(0, rough-2)` while `ts <= rough+2` yields exactly the readable samples at the window's points (`WindowSamples`) |
| Stage1Analyze.PointsUpToOrdered | src/video2markdown/stage1_analyze.py:245-252 | the points `start, start+step, ...` not beyond `end` are increasing and within `[start, end]` |
| Stage1Analyze.ReadableOrdered | src/video2markdown/stage1_analyze.py:246-251 | skipping unreadable frames keeps the sample times increasing |
| Stage1Analyze.WindowSamplesShape | src/video2markdown/stage1_analyze.py:240-252 | the window's samples increase in time and lie in the search window |
| Stage1Analyze.ScoreSamples | src/video2markdown/stage1_analyze.py:258-267 | one score per sample at its time: infinity at both ends, elsewhere the mean of the differences to both neighbours |
| Stage1Analyze.MinTs | src/video2markdown/stage1_analyze.py:278 | the minimum is one of the points' times and no point is earlier |
| Stage1Analyze.MaxTs | src/video2markdown/stage1_analyze.py:279 | the maximum is one of the points' times and no point is later |
| Stage1Analyze.PreciseBoundary | src/video2markdown/stage1_analyze.py:227-285 | the refinement equals `Boundary`: `(rough-0.5, rough+0.5)` with fewer than 3 samples, otherwise the unstable span widened by 0.2 s and clipped to the search window |
| Stage1Analyze.UnstableSpan | src/video2markdown/stage1_analyze.py:271-279 | with infinite scores at both ends the unstable points are never empty and span exactly from the first sample to the last, so the `±0.3` fallback cannot be reached |
| Stage1Analyze.BoundaryInWindow | src/video2markdown/stage1_analyze.py:254-285 | the refined interval is non-empty and, with three samples or more, lies inside the search window |
| Stage1Analyze.BoundariesWellFormed | src/video2markdown/stage1_analyze.py:174-176 | every refined interval handed to `_build_intervals` has start before end |
| Stage1Analyze.BuildIntervals | src/video2markdown/stage1_analyze.py:288-324 | an empty input gives `[(0, duration)]` and no unstable intervals; otherwise the caller's list is sorted by start in place, the merged intervals are sorted, separated and cover exactly the input's points, and the stable intervals are `Gaps` of the merged ones: at least `min_stable` long, from 0 on, disjoint from every merged interval, ending by `duration` when every input starts by it, and, for well-formed input, in order and complete (every uncovered stretch of `[0, duration]` at least `min_stable` long lies inside one of them) |
| Stage1Analyze.MergeSorted | src/video2markdown/stage1_analyze.py:303-309 | the merge of a start-sorted list is non-empty, starts where the input does, is sorted and separated, covers the same points, keeps well-formedness and every merged start is an input start |
| Stage1Analyze.MergeStep | src/video2markdown/stage1_analyze.py:305-309 | one merge step (widen the last interval or append) keeps the merge invariant |
| Stage1Analyze.CoveredSnoc | src/video2markdown/stage1_analyze.py:309 | a point is covered by a list plus an interval exactly when the list or the interval covers it |
| Stage1Analyze.CoveredPermutation | src/video2markdown/stage1_analyze.py:302 | sorting does not change which points are covered |
| Stage1Analyze.CoveredExtendLast | src/video2markdown/stage1_analyze.py:306-307 | widening the last interval to `max(end, iv.end)` when `iv` starts inside it adds exactly `iv`'s points |
| Stage1Analyze.AbsorbCover | src/video2markdown/stage1_analyze.py:305-309 | absorbing the next interval keeps the merged list's cover equal to the input prefix's |
| Stage1Analyze.AbsorbStarts | src/video2markdown/stage1_analyze.py:305-309 | every merged start remains the start of some input interval |
| Stage1Analyze.ExtendLastShape | src/video2markdown/stage1_analyze.py:306-307 | widening the last interval keeps the list sorted, separated and well-formed |
| Stage1Analyze.AppendShape | src/video2markdown/stage1_analyze.py:308-309 | appending an interval that starts after the last one ends keeps the list sorted, separated and well-formed |
| Stage1Analyze.AbsorbShape | src/video2markdown/stage1_analyze.py:305-309 | after a step the merged list still starts at the first input, is sorted and separated, and its last start is no later than any input still to come |
| Stage1Analyze.StableGaps | src/video2markdown/stage1_analyze.py:312-322 | the gap loop yields exactly `Gaps(merged)`: gaps of at least `min_stable` from 0 on, disjoint from sorted unstable intervals, ending by the duration, and for well-formed intervals in order and complete |
| Stage1Analyze.GapsComplete | src/video2markdown/stage1_analyze.py:311-322 | the complement is complete: every stretch of `[0, duration]` at least `min_stable` long whose interior no merged interval covers lies inside one of the stable gaps |
| Stage1Analyze.GapsFromComplete | src/video2markdown/stage1_analyze.py:315-322 | from any running end `prev_end` not after a free stretch, the remaining gap steps and the tail gap report that stretch |
| Stage1Analyze.FirstClear | src/video2markdown/stage1_analyze.py:315-318 | an unstable interval that starts before a free stretch ends has ended by the time the stretch begins, so `prev_end` stays at or before it |
| Stage1Analyze.FreeOfTail | src/video2markdown/stage1_analyze.py:315 | a stretch no interval covers is still uncovered by the intervals left to visit |
| Stage1Analyze.CompleteTransfer | src/video2markdown/stage1_analyze.py:302-309 | completeness with respect to the merged intervals is completeness with respect to the caller's intervals, since both cover the same points |
| Stage1Analyze.GapsFromStep | src/video2markdown/stage1_analyze.py:315-318 | one iteration of the gap loop emits the gap before the current interval and continues from `max(prev_end, end)` |
| Stage1Analyze.GapStepClear | src/video2markdown/stage1_analyze.py:315-318 | a new gap shares no interior point with the unstable intervals seen so far and comes before the rest |
| Stage1Analyze.GapStepOrder | src/video2markdown/stage1_analyze.py:315-318 | a new gap starts after every earlier gap, at the running maximum end |
| Stage1Analyze.GapStep | src/video2markdown/stage1_analyze.py:315-318 | one gap step keeps the gap-loop invariant, with `prev_end` advanced to `max(prev_end, end)` |
| Stage1Analyze.GapTail | src/video2markdown/stage1_analyze.py:321-322 | the gap after the last unstable interval keeps every promise of the gap loop |
| Stage1Analyze.PermutedFacts | src/video2markdown/stage1_analyze.py:302-324 | what is proved of the sorted copy holds of the caller's original order: same cover, starts by the duration, well-formedness |
| Stage1Analyze.SceneChangesShape | src/video2markdown/stage1_analyze.py:189 | one scene change per merged interval, inside it, strictly increasing |
| Stage1Analyze.SeparatedApart | src/video2markdown/stage1_analyze.py:303-309 | in a separated well-formed list every interval ends before any later one starts |
| Stage1Analyze.TotalDurationAppend | src/video2markdown/stage1_analyze.py:341-343 | the total length of two lists joined is the sum of their totals |
| Stage1Analyze.TotalDurationNonNegative | src/video2markdown/stage1_analyze.py:341-343 | the total length of well-formed intervals is never negative |
| Stage3Keyframes.Gap | src/video2markdown/stage3_keyframes.py:116-126 | an interval offers a boundary exactly when the timestamp lies outside it, and then at a positive distance |
| Stage3Keyframes.AdjustToStable | src/video2markdown/stage3_keyframes.py:89-128 | the two loops of `_adjust_to_stable` compute `Adjusted`: the timestamp itself when a stable interval contains it, else the nearest boundary |
| Stage3Keyframes.NearestSpec | src/video2markdown/stage3_keyframes.py:112-128 | no boundary is chosen exactly when no interval has one within `max_adjust`; otherwise the chosen one belongs to an interval with no earlier eligible boundary as near and no later one nearer (strict `<` keeps the first on ties) |
| Stage3Keyframes.AdjustedMeaning | src/video2markdown/stage3_keyframes.py:107-128 | a timestamp inside a closed stable interval is kept; one outside all of them is dropped exactly when no boundary lies within `max_adjust`, and otherwise moves to `start + 0.1` or `end - 0.1` of the nearest interval |
| Stage3Keyframes.SampleInterval | src/video2markdown/stage3_keyframes.py:52-60 | the inner loop `current = start; while current < end` appends exactly the interval's samples `start, start+step, ...` below `end` and counts them |
| Stage3Keyframes.SampleStable | src/video2markdown/stage3_keyframes.py:50-60 | the first loop yields every stable interval's samples, interval after interval, and counts them |
| Stage3Keyframes.StableSamplesInside | src/video2markdown/stage3_keyframes.py:51-58 | every stable sample is tagged `stable_interval` and lies in `[start, end)` of some stable interval |
| Stage3Keyframes.IntervalSamplesStride | src/video2markdown/stage3_keyframes.py:53-60 | consecutive samples of one interval are exactly `interval_sec` apart |
| Stage3Keyframes.SceneFold | src/video2markdown/stage3_keyframes.py:63-76 | the scene loop only appends: the frames so far are kept as a prefix and at most one frame is added per scene change |
| Stage3Keyframes.SceneFoldGate | src/video2markdown/stage3_keyframes.py:64-76 | every frame the scene loop adds is tagged `scene_change`, sits at the adjusted time of a scene change, and no frame before it lies within half a stride of that raw scene time |
| Stage3Keyframes.SceneCandidateExtend | src/video2markdown/stage3_keyframes.py:64-76 | a scene candidate stays one as the loop appends further frames and further scene changes |
| Stage3Keyframes.AddScenes | src/video2markdown/stage3_keyframes.py:63-76 | the scene loop computes `SceneFold` and counts the frames it adds, at most one per scene change |
| Stage3Keyframes.ExtractCandidates | src/video2markdown/stage3_keyframes.py:20-86 | an audio-only video gives no candidates; otherwise the candidates are the stable samples plus the admitted scene frames, sorted by timestamp, and the two counters add up to their number |
| Stage3Keyframes.CandidatesSortedPermutation | src/video2markdown/stage3_keyframes.py:79 | the sorted candidates are in time order and are exactly the collected frames, each as often |
| Stage4Filter.DetectText | src/video2markdown/stage4_filter.py:88-118 | an unreadable frame has no text and density 0; a readable one has the edge density of its frame, and has text exactly when that density is strictly between 5% and 50% |
| Stage4Filter.TextGateExact | src/video2markdown/stage4_filter.py:57-60 | the text gate `not has_text and ratio < 0.02` lets a frame through exactly when its density is at least 2%, so frames denser than 50% pass too, and an unreadable frame never does |
| Stage4Filter.ContextVerdictFalse | src/video2markdown/stage4_filter.py:131-164 | a picture is judged unnecessary exactly when the stripped text has at least 10 characters, the text is longer than 200 characters and it mentions no visual indicator and no abstract concept; short text always needs a picture, and a visual indicator gives the "visual reference" reason |
| Stage4Filter.CheckTranscriptContext | src/video2markdown/stage4_filter.py:121-164 | the verdict is the context decision on the transcript text within 8 s of the frame |
| Stage4Filter.IsTooClose | src/video2markdown/stage4_filter.py:80-85 | true exactly when some selected frame lies strictly within `min_interval` of the timestamp |
| Stage4Filter.Annotate | src/video2markdown/stage4_filter.py:71 | the kept frame keeps its time and source, and its reason starts with the old reason followed by ` \| ` |
| Stage4Filter.FilterKeyframes | src/video2markdown/stage4_filter.py:22-77 | the loop keeps exactly the frames `Filtered` describes: each candidate, in order, that is not too close to a frame already kept, passes the text gate and needs a picture, annotated |
| Stage4Filter.FilteredStep | src/video2markdown/stage4_filter.py:48-72 | candidate `i` is appended, annotated, exactly when it passes the three gates given the frames kept before it |
| Stage4Filter.FilteredSubsequence | src/video2markdown/stage4_filter.py:48-72 | the output is a subsequence of the candidates in their order: the `k`-th kept frame is the annotated candidate at a strictly increasing position |
| Stage4Filter.ApartSnoc | src/video2markdown/stage4_filter.py:52-54 | a frame at least `min_interval` from every frame of a spaced list extends it |
| Stage4Filter.FilteredMinGap | src/video2markdown/stage4_filter.py:51-54 | any two kept frames are at least `min_interval` apart |
| Stage4Filter.FilteredPassedGates | src/video2markdown/stage4_filter.py:56-68 | every kept frame passed the text gate and the context gate at its own time |
| Stage4Filter.UnreadableDropped | src/video2markdown/stage4_filter.py:100-104 | a candidate whose frame cannot be read is never kept |
| Stage5.LineItemSpec | src/video2markdown/stage5_analyze_images.py:185-188 | a line contributes an item exactly when its stripped form starts with `-` or `•`, and the item is the rest after the marker, stripped |
| Stage5.ListItemsSnoc | src/video2markdown/stage5_analyze_images.py:184-188 | one more line adds its item exactly when its stripped form is a list item |
| Stage5.CollectListItems | src/video2markdown/stage5_analyze_images.py:183-188 | the loop over the reply's lines collects exactly `ListItems` of those lines |
| Stage5.ListItemsSpec | src/video2markdown/stage5_analyze_images.py:183-188 | a string is an item exactly when some line contributes it |
| Stage5.NoListNoItems | src/video2markdown/stage5_analyze_images.py:183-190 | a reply without list lines has no items |
| Stage5.FirstFiveSpec | src/video2markdown/stage5_analyze_images.py:190 | `elements[:5]` keeps at most five, from the front, and all of them when there are no more than five |
| Stage5.ExtractKeyElements | src/video2markdown/stage5_analyze_images.py:177-190 | returns the key elements of the reply, at most five |
| Stage5.KeyElementsSpec | src/video2markdown/stage5_analyze_images.py:177-190 | the key elements are the first (at most five) list items of the reply's lines split on `\n`, all of them when there are at most five, none without list lines |
| Stage5.Numbered | src/video2markdown/stage5_analyze_images.py:50 | `enumerate(frames, 1)` pairs the `k`-th frame with `k + 1` |
| Stage5.AnalyzeOne | src/video2markdown/stage5_analyze_images.py:53-68 | one iteration is `AnalyzeFrame`: the unreadable-frame error, or the description built from the model's reply about the shrunk copy with the transcript within 10 s |
| Stage5.AnalyzeImages | src/video2markdown/stage5_analyze_images.py:24-72 | the loop computes `Analysis`: every description in frame order, or the error of the first frame that cannot be read |
| Stage5.AnalysisSpec | src/video2markdown/stage5_analyze_images.py:50-72 | the run succeeds exactly when every keyframe is readable, and then gives one description per keyframe, in order, with the frame's time, the path `frame_{i:04d}_{t:.1f}s.jpg` numbered from 1, the stripped reply, its key elements and the transcript within 10 s |
| Stage5.AnalysisStops | src/video2markdown/stage5_analyze_images.py:87-91 | the first unreadable frame stops the run with its error, whatever follows |
| Stage6.PrepareInput | src/video2markdown/stage6_generate.py:98-117 | the model input carries the transcript's title and optimised text and one image entry per description, in order, with its timestamp, description and key elements |
| Stage6.ParseResponseSpec | src/video2markdown/stage6_generate.py:168-182 | a reply fenced with ```` ```json ```` or a plain fence is decoded from its stripped body; a reply without a fence is decoded from the stripped reply |
| Stage6.NumberChapters | src/video2markdown/stage6_generate.py:75-88 | the loop numbers the reply's chapter entries one for one, in order |
| Stage6.GenerateDocument | src/video2markdown/stage6_generate.py:25-95 | a reply that does not decode is an error; otherwise the document is built from the decoded reply with its chapters numbered |
| Stage6.DocumentOfSpec | src/video2markdown/stage6_generate.py:47-95 | chapters follow the reply's entries one for one and are numbered 1..n whatever ids the reply gives; a missing chapter title becomes `章节 {i}`; the visual timestamp is the reply's; the document title is the reply's, else the argument when not empty, else the transcript's |
| Stage6.ChapterIdsIncrease | src/video2markdown/stage6_generate.py:76-78 | chapter ids are strictly increasing, so no two chapters share an id |
| Stage7.RenderPicture | src/video2markdown/stage7_render.py:116-130 | the picture block is `PictureLines`: present only for a truthy visual time with a description within 1 s, then heading, image link, description quote and the key-elements line when there are key elements |
| Stage7.RenderChapter | src/video2markdown/stage7_render.py:96-143 | one chapter's lines, appended block by block, are `ChapterLines` |
| Stage7.RenderMainDocument | src/video2markdown/stage7_render.py:73-145 | the page is the header, the table of contents and every chapter's section, joined with `\n` |
| Stage7.MainToc | src/video2markdown/stage7_render.py:80-93 | the page opens with `# {title}`, lists under `## 目录` one `{id}. [{title}](#chapter-{id})` line per chapter in order, then an empty line, `---` and an empty line |
| Stage7.ChapterFrame | src/video2markdown/stage7_render.py:97-143 | a section opens with its `chapter-{id}` anchor and `## {id}. {title}`, has eight head lines, one line per key point plus two, the picture block, seven transcript lines when the transcript is not empty, and ends with `---` and an empty line |
| Stage7.ChapterPicture | src/video2markdown/stage7_render.py:117-123 | the picture heading follows the key points exactly when the visual time is truthy and some description lies within 1 s of it; the image then links `images/` and the file name of the first such description |
| Stage7.ChapterElements | src/video2markdown/stage7_render.py:125-130 | with a picture, the quote shows its description and, when it has key elements, they follow joined by `, ` |
| Stage7.ChapterTranscript | src/video2markdown/stage7_render.py:133-140 | the transcript heading follows the picture block exactly when the chapter's transcript is not empty |
| Stage7.CopyFramesWithDescriptions | src/video2markdown/stage7_render.py:148-167 | the loop writes exactly `Copies`: one image copy and text file per description whose image exists, in order |
| Stage7.CopiesSpec | src/video2markdown/stage7_render.py:153-166 | every description whose image exists is written, each written entry comes from such a description (image under its own name, text under its stem with `.txt`), and the transcript excerpt is a prefix of at most 500 characters |
| Models.ClockFields | src/video2markdown/models.py:35-41 | for a non-negative time the hour, minute, second and millisecond fields computed with `//`, `%` and `int()` on reals equal integer arithmetic on the whole seconds |
| Models.ClockTextShape | src/video2markdown/models.py:41 | fields below 100, 100, 100 and 1000 print as `HH:MM:SS,mmm`: twelve characters, separators in place, each field all digits and reading back to its value |
| Models.ClockAt | src/video2markdown/models.py:35-41 | the SRT clock of a non-negative time is the text of its hour, minute, second and millisecond fields |
| Models.SrtTimeExample | tests/unit/test_models.py:26-32 | 5.5 s prints as `00:00:05,500` and 3661.123 s as `01:01:01,123` |
| Models.WordLines | src/video2markdown/models.py:69-77 | four header lines (title, blank, language line, blank) and then one `[MM:SS] text` line per segment, in order |
| Models.ToWordDocument | src/video2markdown/models.py:69-77 | the loop builds the lines `WordLines` describes, joined with newlines |
| Models.MinuteTagExample | src/video2markdown/models.py:74 | 5 s tags as `[00:05]`; 3725 s as `[62:05]` because minutes are not reduced modulo 60 |
| Models.TextsAroundSnoc | src/video2markdown/models.py:82-84 | one more segment adds its text exactly when it overlaps the closed window `[t-w, t+w]` |
| Models.CollectTextsAround | src/video2markdown/models.py:81-84 | the loop keeps, in order, the texts of exactly the segments overlapping the window |
| Models.GetTextAround | src/video2markdown/models.py:79-85 | the result is the overlapping segments' texts joined with single spaces |
| Models.TextsAroundMembers | src/video2markdown/models.py:83 | every overlapping segment's text is selected, and every selected text belongs to an overlapping segment |
| Models.TextsAroundExample | tests/unit/test_models.py:86-103 | a 3 s window around 7 s over three segments selects only the second |
| Models.GetTimestamps | src/video2markdown/models.py:106-108 | one timestamp per frame, in frame order |
| Models.FirstNear | src/video2markdown/models.py:126-131 | nothing is found exactly when no description is within the tolerance; otherwise the result is the first such description |
| Models.GetByTimestamp | src/video2markdown/models.py:126-131 | the first-match loop returns `FirstNear`: the first description within the tolerance, or nothing when none is |
| Models.GetChapterWithVisual | src/video2markdown/models.py:157-162 | nothing is found exactly when no chapter's picture is within the tolerance (a truthy `visual_timestamp` required); otherwise the first such chapter |
| Models.ZeroVisualNeverMatches | src/video2markdown/models.py:160 | a chapter whose picture sits at 0.0 s is never found, because 0.0 is falsy |
| Asr.FormatTimestampReadsBack | src/video2markdown/asr.py:546-552 | below 100 hours the text is `HH:MM:SS.mmm`, twelve characters whose fields read back as the whole seconds (minutes and seconds below 60) and the truncated milliseconds |
| Asr.FormatTimestampExamples | tests/test_asr.py:37-51 | 0, 45.5, 125 and 3661.5 s print as `00:00:00.000`, `00:00:45.500`, `00:02:05.000` and `01:01:01.500` |
| Asr.SaveTranscriptToSrt | src/video2markdown/asr.py:555-571 | the text written is the concatenation, in order, of one block `{i}\n{start} --> {end}\n{text}\n\n` per segment, numbered from 1 |
| Asr.SrtFilePair | src/video2markdown/asr.py:568-571 | a two-segment file is block 1 followed by block 2 |
| Asr.SrtFileExample | tests/test_asr.py:98-115 | the test's two segments give blocks numbered 1 and 2 with the lines `00:00:00.000 --> 00:00:05.000` and `00:00:05.000 --> 00:00:10.000` |
| Asr.Halves | src/video2markdown/asr.py:609-619 | a split run gives two segments that meet at the midpoint, cover the run's span, and whose texts concatenate to the run's text |
| Asr.MergeShortSegments | src/video2markdown/asr.py:574-625 | the loop computes `Merged`, the fold of the merge step over the segments after the first |
| Asr.MergedSmall | src/video2markdown/asr.py:589-624 | the empty list stays empty and a single segment comes back unchanged |
| Asr.MergeRunsEnds | src/video2markdown/asr.py:593-624 | the open run ends where the last segment seen ends, and the first emitted segment starts where the first input starts |
| Asr.MergedEnds | src/video2markdown/asr.py:589-625 | a non-empty input gives a non-empty output that starts at the first segment's start and ends at the last segment's end |
| Asr.MergedJoinsShort | src/video2markdown/asr.py:596-604 | two segments whose joint span is under `min_duration` become one segment with the first start, the second end and both texts joined by a space |
| Asr.NoCutPrefix | src/video2markdown/asr.py:595-622 | if no run is ever cut over a list, none is cut over any prefix of it |
| Asr.MergeStepText | src/video2markdown/asr.py:598-622 | a step that merges or closes a run without cutting it adds exactly one space and the segment's text to the words emitted so far |
| Asr.MergeRunsText | src/video2markdown/asr.py:595-624 | when no run is cut, the output's texts joined by spaces are the input's texts joined by spaces: no word is lost or reordered |
| Asr.CorrectedKeepsText | src/video2markdown/asr.py:607 | with the cut decided by the run's own span, segments no longer than `max_duration` (and `min <= max`) lose no words |
| Asr.RunSpans | src/video2markdown/asr.py:596-622 | under the corrected rule a run never spans more than `max_duration` and is never cut |
| Asr.MergeCutsShortRun | src/video2markdown/asr.py:596-619 | as written, a 4 s run followed by a segment ending 40 s after it starts is cut in two, so the joined text changes from `abcd x` to `ab cd x` |
| Asr.PlusOffset | src/video2markdown/asr.py:175-176 | `value + offset` succeeds exactly for numbers (and bools, as 0 or 1) and is the number plus the offset |
| Asr.ConvertSegments | src/video2markdown/asr.py:172-186 | the loop returns `ConvertAll`: each entry converted in order, or the first entry's error |
| Asr.ParseVerboseJson | src/video2markdown/asr.py:158-186 | a reply with neither segments nor dict form is one 60 s segment at the offset; otherwise its entries (`segments`, default `[]`) are converted in order |
| Asr.ConvertAllSpec | src/video2markdown/asr.py:172-186 | the conversion succeeds exactly when every entry converts, and then gives one segment per entry, in order |
| Asr.DictSegmentSpec | src/video2markdown/asr.py:173-178 | a dict entry's times are its `start` and `end` plus the offset and its text is `text` stripped |
| Asr.NumbersConvert | src/video2markdown/asr.py:174-178 | numeric start and end and a string text convert to the shifted times and the stripped text |
| Asr.DictSegmentDefaults | src/video2markdown/asr.py:175-177 | a dict entry with none of the three keys is an empty segment at the offset |
| Asr.ProcessVideo | src/video2markdown/asr.py:488-543 | with a known provider (`local` or `openai`) whose run succeeds the run's segments are returned unchanged; an unknown provider or any failure gives the single 0-60 s placeholder; nothing else is ever returned |
| Srt.LastNewline | test_document_v3.py:18 | finds a newline in the range, or there is none in it (the point where the greedy `\s*` gives back) |
| Srt.NextBlank | test_document_v3.py:18 | the leftmost `\n\s*\n` match at or after a position, with no match starting before it; or none anywhere after it |
| Srt.Blocks | test_document_v3.py:18 | `re.split` on the blank-line pattern always yields at least one piece |
| Srt.BlocksHaveNoBlankLine | test_document_v3.py:18 | no piece produced by the split contains two newlines in a row |
| Srt.StampAt | test_document_v3.py:29-36 | a clock is read only where all twelve characters of `HH:MM:SS,mmm` are present |
| Srt.ParseSrt | test_document_v3.py:10-44 | the loop over the blocks yields `Parsed(content)`: one segment per block that gives one, in file order |
| Srt.ReadBlock | test_document_v3.py:21-42 | one turn of the loop: a segment exactly when the stripped block has three or more lines and its second line begins with a time range; the text is the remaining lines joined with spaces and stripped |
| Srt.SegmentsAppend | test_document_v3.py:20-42 | segments keep file order: the segments of two runs of blocks are those of the first followed by those of the second |
| Srt.SegmentsFromBlocks | test_document_v3.py:20-42 | a segment is in the result exactly when some block gives it |
| Srt.SkippedBlocks | test_document_v3.py:22-33 | a block with fewer than three lines, or whose second line is no time range, gives nothing |
| Srt.MillisReadBack | src/video2markdown/models.py:35-41 | for whole milliseconds under 100 hours the printed fields are in range and add back up to the time |
| Srt.StampReadBack | test_document_v3.py:29-35 | a clock printed as `HH:MM:SS,mmm` is read back as its value wherever it stands in a line |
| Srt.ClockLineReadBack | test_document_v3.py:29-36 | a time line printed from clock fields matches the pattern and reads back as those fields' values |
| Srt.SrtTimeReadBack | src/video2markdown/models.py:35-45 | `to_srt_time` and the time-line pattern are inverse for times in whole milliseconds under 100 hours |
| Srt.TimeLineAvoidsNewline | src/video2markdown/models.py:45 | the time line of an entry is a single line |
| Srt.EntryLines | src/video2markdown/models.py:43-45 | a printed entry splits back into its number, its time line and its text |
| Srt.EntryReadBack | src/video2markdown/models.py:43-45 | an entry written by `to_srt_entry` parses back to the same segment (whole-millisecond times under 100 hours, one non-empty stripped line of text) |
| Srt.ThreeLineBlock | test_document_v3.py:21-42 | a block of three lines whose second is a time range gives that range and the third line |
| Audio.SplitAudio | src/video2markdown/audio.py:66-108 | an empty track gives no chunks; otherwise the loop produces exactly the chunk schedule `Chunks` (start `k*(d-o)`, end `min(start+d, duration)`, file `{stem}_seg{k:04d}.wav`) |
| Audio.StartBelow | src/video2markdown/audio.py:84-87 | there is a k-th chunk exactly when its start `k*(d-o)` is below the duration (the loop guard) |
| Audio.ChunksShape | src/video2markdown/audio.py:87-106 | each chunk starts at `k*(d-o)` below the duration, is at most `d` long and non-empty, is named by its index, and consecutive starts differ by `d-o` |
| Audio.LastChunkEnds | src/video2markdown/audio.py:87-88 | with `0 <= overlap < segment_duration` there is at least one chunk and the last one ends at the duration |
| Audio.ChunksCover | src/video2markdown/audio.py:87-105 | with `0 <= overlap < segment_duration` every instant of the track lies inside some chunk |
| Audio.TwelveSecondsExample | tests/test_audio.py:68-87 | 12 s cut into 5 s pieces with 1 s overlap gives three chunks, the last from 8 s to 12 s (at least two, as the test expects) |
| Video.FrameRate | src/video2markdown/video.py:41-43 | a zero denominator gives 30 fps; otherwise the rate times the denominator is the numerator |
| Video.TotalFramesSpec | src/video2markdown/video.py:52 | no frames for a non-positive duration; otherwise the count is `fps * duration` truncated: non-negative and within one below it |
| Video.PtsToken | src/video2markdown/video.py:84-89 | a token is found only on a line that holds `pts_time:`, and it is non-empty |
| Video.DetectSceneChanges | src/video2markdown/video.py:82-94 | the loop over the log's lines yields `SceneTimes`: one time per line that carries a parsable token, in line order |
| Video.SceneTimesSpec | src/video2markdown/video.py:83-92 | the times are exactly the lines kept by the marker-and-token test, each read as its time, in order; other lines are skipped |
| Video.NotBlackMeans | src/video2markdown/video.py:124-150 | a frame is not black exactly when it is readable, its mean is at least 10 and its dark share is within the threshold |
| Video.ExtractBestFrame | src/video2markdown/video.py:215-264 | the loops return `BestTime`: the first strictly highest-scoring readable non-black candidate, or the target when none scores |
| Video.CandidateTimes | src/video2markdown/video.py:216-222 | the candidate loop yields `max(0, t-w)`, then every `step` after it while at most `t+w` |
| Video.BestSpec | src/video2markdown/video.py:225-251 | nothing is picked exactly when no candidate scores; otherwise the pick scored above -1, above every earlier candidate, and no later one scored higher |
| Video.BestTimeInWindow | src/video2markdown/video.py:253-264 | the returned time is the target itself or one of the candidates, inside `[max(0, t-w), t+w]` |
| Video.ResizeForApi | src/video2markdown/video.py:301-303 | an unreadable image is an error, and only then |
| Video.ShrinkSide | src/video2markdown/video.py:314-317 | the scaled shorter side `int(short*max/long)` lies in `[0, short]` and is at most `max_size` |
| Video.ResizeSpec | src/video2markdown/video.py:308-317 | the image is kept exactly when both sides are within `max_size`; otherwise the longer side becomes `max_size`, the other is scaled and truncated, and neither grows or exceeds `max_size` |
| Video.ExtractKeyframes | src/video2markdown/video.py:346-368 | the loop yields `Keyframes`: one record per successful grab, in input order, with its index, time, path and blur verdict |
| Video.KeyframesStep | src/video2markdown/video.py:348-366 | frame `i` is appended exactly when its grab succeeded; a failed grab is skipped |
| Video.KeyframesFromInput | src/video2markdown/video.py:348-363 | each kept frame carries the time at its input index, from a successful grab, with the blur verdict only when filtering |
| Video.KeyframesIncrease | src/video2markdown/video.py:348 | the kept frames' input indices strictly increase |
| Video.KeyframesComplete | src/video2markdown/video.py:351-363 | no successful grab is dropped |
| Video.SampleTimes | src/video2markdown/video.py:389-393 | a non-positive duration gives no times; otherwise `0, i, 2i, ...` while below the duration |
| Video.SampleTimesSpec | src/video2markdown/video.py:389-393 | the sampled times lie in `[0, duration)`, strictly increase, and the next one would reach the duration |
| Video.SampleUniformFrames | src/video2markdown/video.py:371-398 | the uniform times are extracted with blur filtering on; an empty duration gives no frames |
| Vision.DetectTextInImage | src/video2markdown/vision.py:38-64 | an unreadable image has no text and density 0; a readable one has its edge density, and has text exactly when it lies strictly between 5% and 50% |
| Vision.IsLikelyPptIff | src/video2markdown/vision.py:67-91 | a picture is a slide or board exactly when it is readable and more than 40% near-white, more than 40% near-black, or its edge density lies strictly between 5% and 50% |
| Vision.TranscriptNeedFalse | src/video2markdown/vision.py:94-128 | no picture is needed exactly when the stripped text has at least 10 characters, the text is longer than 200 characters and has no visual indicator, whatever abstract concepts it names; a short text always needs one |
| Vision.HeuristicsDiffer | src/video2markdown/vision.py:105-115 | against src/video2markdown/stage4_filter.py:150-162: a long text naming an abstract concept and no visual indicator needs a picture for the frame filter but not for the vision step |
| Vision.ShouldAnalyzeIff | src/video2markdown/vision.py:139-169 | a slide is always analysed; otherwise a picture is analysed exactly when a present (non-empty) transcript does not make it redundant and the edge density is at least 2% |
| Vision.VisionProcessor.ShouldAnalyzeImage | src/video2markdown/vision.py:139-169 | returns the decision `ShouldAnalyze` of the picture and its context |
| Vision.Dedup | src/video2markdown/vision.py:289-292 | the result is no longer than the input and empty exactly when the input is |
| Vision.DedupSpec | src/video2markdown/vision.py:289-292 | no two neighbours of the result are equal, it holds exactly the input's texts, and it ends with the input's last text |
| Vision.DedupTexts | src/video2markdown/vision.py:289-292 | the deduplication loop computes `Dedup` of the relevant texts |
| Vision.FindTranscriptContext | src/video2markdown/vision.py:276-294 | returns `TranscriptContext` of the segments around the time |
| Vision.TranscriptContextSpec | src/video2markdown/vision.py:283-294 | there is a context exactly when some segment overlaps `[t - window, t + window]`; it is a prefix of at most 600 characters of the deduplicated overlapping texts joined with spaces |
| Vision.ParseDescription | src/video2markdown/vision.py:296-340 | keeps the time, path and reason; without a JSON match the description is the reply itself, after a decoding error the stripped reply, with no key elements; a decoded `key_elements` that is not a list is wrapped in one; with a decoded object the result is an error exactly when its description is neither a string, a list nor an object (where `in` raises); relevance is the absence of the irrelevance keywords |
| Vision.BatchDescriptions | src/video2markdown/vision.py:242-274 | the batch keeps at most one description per frame |
| Vision.BatchCalls | src/video2markdown/vision.py:245-267 | the batch makes at most one API call per frame |
| Vision.BatchSnoc | src/video2markdown/vision.py:245-267 | the batch of one more frame is the earlier results followed by that frame's own, and its calls add up likewise |
| Vision.BatchDescriptionsSpec | src/video2markdown/vision.py:245-262 | every description kept is relevant and carries the time of some frame that is not blurry |
| Vision.VisionProcessor.constructor | src/video2markdown/vision.py:134-137 | a new processor has made no API calls and uses the given model |
| Vision.VisionProcessor.DescribeImage | src/video2markdown/vision.py:171-234 | returns `Describe` (nothing when skipped, a failure for an exception) and counts one API call exactly when the picture gets as far as the call |
| Vision.VisionProcessor.DescribeImagesBatch | src/video2markdown/vision.py:236-274 | returns the batch's descriptions, every frame is either described or counted as skipped, and the call counter grows by the batch's calls |
| Document.FenceOpens | src/video2markdown/document.py:138 | a reply that starts with the fence has it at position 0 |
| Document.FenceCloses | src/video2markdown/document.py:139 | after a body without backticks the next "```" is found right at the body's end |
| Document.FenceMissing | src/video2markdown/document.py:139 | with no backtick after `start`, `find` returns -1 |
| Document.TaggedFenceIsFence | src/video2markdown/document.py:137-141 | a reply containing "```json" also contains "```" |
| Document.ExtractFenced | src/video2markdown/document.py:134-144 | a stripped reply that opens with a known fence gives its body up to the next fence, stripped |
| Document.ExtractJsonFenced | src/video2markdown/document.py:137-140 | a reply that is exactly a ```` ```json ```` block gives the stripped body |
| Document.NoJsonTag | src/video2markdown/document.py:137 | "```json" does not occur in a plain fenced block whose body does not start with `json` |
| Document.ExtractJsonPlainFence | src/video2markdown/document.py:141-144 | a plain fenced block whose body does not start with `json` gives the stripped body |
| Document.ExtractJsonUnfenced | src/video2markdown/document.py:134-146 | a reply without any fence comes back stripped |
| Document.ExtractJsonUnclosed | src/video2markdown/document.py:138-140 | with no closing fence `find` gives -1 and the slice drops the body's last character |
| Document.ParseDocumentStructure | src/video2markdown/document.py:148-169 | the loop builds `Structure`: one chapter per entry, in the reply's order |
| Document.StructureSpec | src/video2markdown/document.py:150-169 | chapters follow the entries one for one; present keys are taken as they are and missing ones take their defaults (id 0, empty texts, `00:00:00`, no visual); a reply without a title is `Untitled`, without chapters has none |
| Document.RenderChapter | src/video2markdown/document.py:205-253 | one chapter's appended lines are `ChapterLines` |
| Document.RenderMarkdown | src/video2markdown/document.py:171-255 | the page is the header, the table of contents and every chapter's section, joined with `\n` |
| Document.MarkdownToc | src/video2markdown/document.py:190-202 | the page opens with `# {title}`, lists under `## 目录` one `{id}. [{title}](#section-{id})` line per chapter, in order, then an empty line, `---` and an empty line |
| Document.ChapterLinesFrame | src/video2markdown/document.py:205-253 | a section opens with its `section-{id}` anchor, `## {id}. {title}`, the time line and the summary, has eight head lines plus the optional key-point, picture (eight lines) and transcript (seven lines) blocks, and ends with `---` and an empty line |
| Document.ChapterKeyPoints | src/video2markdown/document.py:219-220 | the key-point heading follows the head lines exactly when there are key points |
| Document.ChapterBullets | src/video2markdown/document.py:221-222 | after the key-point heading come the bullets `- {point}`, one per key point and in order |
| Document.ChapterImage | src/video2markdown/document.py:226-227 | the picture heading follows the key points exactly when the chapter needs a visual, the mappings are not empty and hold its id |
| Document.ChapterTranscript | src/video2markdown/document.py:243-250 | the transcript heading follows the picture block exactly when the chapter's transcript is not empty, and the transcript is shown inside the block |
| Document.GenerateSummary | src/video2markdown/document.py:378-412 | the file's text is the concatenation of the summary pieces |
| Document.SummarySpec | src/video2markdown/document.py:394-408 | seven header pieces then at most five bullets `{i}. {text[:50]}...` for the first segments in order; the duration shown is the last segment's end, or 0 without segments |
| DocumentV3.ExtractJsonV3 | src/video2markdown/document_v3.py:161-175 | a fenced reply gives back its stripped body whether or not the fence carries the `json` tag, and a reply without any fence is only stripped |
| DocumentV3.ParseDocumentStructureV3 | src/video2markdown/document_v3.py:177-198 | one chapter per entry in the reply's order, present keys taken as they are and missing ones defaulted; a reply without a title is `Untitled` |
| DocumentV3.RenderMarkdownV3 | src/video2markdown/document_v3.py:200-284 | the page is the document.py page: `# {title}` first, then one `{id}. [{title}](#section-{id})` line per chapter, in order |
| DocumentV3.NoMappings | src/video2markdown/document_v3.py:317 | the convenience function renders with the frame folder and no frame mappings |
| DocumentV3.GenerateDocumentV3 | src/video2markdown/document_v3.py:288-318 | returns the structure as it came from the model and its page rendered without frame mappings |
| DocumentV3.NoMappingsNoPictures | src/video2markdown/document_v3.py:255-317 | without frame mappings no chapter shows a picture, whatever it asks for: each section is its head, key points, transcript and closing rule |
| Prompts.GetApiParams | src/video2markdown/prompts.py:35-41 | the result is the metadata's `parameters` entry when there is one, and the empty mapping when there is none |
| Prompts.RenderMessages | src/video2markdown/prompts.py:51-76 | the appends compute `Messages` |
| Prompts.MessagesSpec | src/video2markdown/prompts.py:61-76 | at most two messages; a system message with the filled-in content comes first exactly when the content is not empty; truthy user content wins over the template; a non-empty string template gives the filled-in user message; without either there is no user message; only a truthy template that is not a string fails (it has no `format`) |
| Prompts.RenderIsSystemPart | src/video2markdown/prompts.py:23-76 | `render` is one system message with the filled-in content, and is what `render_messages` returns for a prompt with content and no user message |
| Prompts.SlashPathSpec | src/video2markdown/prompts.py:126 | no "." is left after the dot notation is replaced, and a path without dots is kept as it is |
| Prompts.ModelPrefixSpec | src/video2markdown/prompts.py:134-135 | the prefix is the part of the model name before its first "-", the whole name when there is none |
| Prompts.Candidates | src/video2markdown/prompts.py:130-137 | the default `{base}.md` is always last; a non-empty model puts `{base}.{model}.md` first; there are three candidates exactly when the model has a "-", the middle one `{base}.{prefix}.md`; without a model only the default |
| Prompts.FirstFrom | src/video2markdown/prompts.py:140-149 | finds the first path from `i` on that exists, or reports that none does |
| Prompts.LoadFirstWins | src/video2markdown/prompts.py:140-143 | the first existing candidate is loaded, whatever exists after it |
| Prompts.LoadIndexFallback | src/video2markdown/prompts.py:146-149 | with no candidate present, the first candidate whose `/index.md` form exists is loaded |
| Prompts.LoadNotFound | src/video2markdown/prompts.py:151-154 | with neither a candidate nor an index file, `load` fails with `Prompt not found` and the candidates tried |
| Prompts.LoadPriority | src/video2markdown/prompts.py:111-143 | for a model such as `kimi-k2.5`: `{base}.kimi-k2.5.md` if present, else `{base}.kimi.md` if present, else `{base}.md` |
| Prompts.PromptLoader.Load | src/video2markdown/prompts.py:108-154 | the loop computes `Loaded`: the first existing candidate, else the first existing index file, else the not-found error |
| Prompts.OpeningEnd | src/video2markdown/prompts.py:168-172 | where the frontmatter group can start: at or after position 4, with a closing "\n---" still ahead |
| Prompts.Frontmatter | src/video2markdown/prompts.py:168-172 | the frontmatter regex matches only a text that starts with "---" and contains a closing "\n---" |
| Prompts.ClosingFound | src/video2markdown/prompts.py:169 | the lazy group ends at the first "\n---", right after a frontmatter that holds none |
| Prompts.FrontmatterSplit | src/video2markdown/prompts.py:168-176 | a file `---\n{f}\n---{b}` whose frontmatter starts with a non-space and holds no "\n---" splits into `f` and `b` without its leading whitespace |
| Prompts.StripLStrip | src/video2markdown/prompts.py:169-176 | stripping after dropping leading whitespace is stripping |
| Prompts.MetadataOfMapping | src/video2markdown/prompts.py:177 | a non-empty decoded mapping is the metadata as it is |
| Prompts.PromptOfGroups | src/video2markdown/prompts.py:174-190 | frontmatter groups whose first part decodes to a non-empty mapping give a prompt with that metadata, the stripped body and the mapping's `name` or the fallback |
| Prompts.ParseFromGroups | src/video2markdown/prompts.py:165-190 | once the frontmatter is cut out and decodes to a non-empty mapping, the parsed prompt has that metadata, the stripped body, and its name from the metadata or the file stem |
| Prompts.NameOrFallback | src/video2markdown/prompts.py:184 | `metadata.get("name", stem)` is the metadata's name when present, else the stem |
| Prompts.ParseWithFrontmatter | src/video2markdown/prompts.py:165-190 | a file with frontmatter gets the decoded mapping as metadata, the stripped text after the closing "---" as content, and the metadata's `name`, else the file's stem before its first "." |
| Prompts.ParseWithoutFrontmatter | src/video2markdown/prompts.py:178-184 | a file without frontmatter, or whose "---" is never closed, has no metadata, the whole text stripped as content and the stem as name |
| Prompts.StemNameOf | src/video2markdown/prompts.py:184 | a file `{n}{v}.md` with `n` free of "." and "/" is named `n`: the version part is dropped |
| Prompts.StrLtAsymmetric | src/video2markdown/prompts.py:203 | Python's string `<` is asymmetric |
| Prompts.StrLtTotal | src/video2markdown/prompts.py:203 | of two different strings one is less than the other |
| Prompts.PartsLtAsymmetric | src/video2markdown/prompts.py:203 | `<` on path parts is asymmetric |
| Prompts.PartsLtTotal | src/video2markdown/prompts.py:203 | of two different part lists one is less than the other |
| Prompts.PathOrder | src/video2markdown/prompts.py:203 | the path order used by `sorted` is strict and total |
| Prompts.PromptLoader.ListPrompts | src/video2markdown/prompts.py:192-203 | the loop and the sort compute `Listed` of the files found |
| Prompts.ListedSpec | src/video2markdown/prompts.py:198-203 | every found file but the READMEs is listed, each as often as found, in ascending path order |
| Prompts.PromptLoader.constructor | src/video2markdown/prompts.py:98-104 | a loader keeps the folder it was given |
| Prompts.NewLoader | src/video2markdown/prompts.py:98-106 | a loader is created exactly when the folder exists; otherwise the error names the folder |
| Prompts.LoaderRegistry.constructor | src/video2markdown/prompts.py:249 | the module-level loader starts empty |
| Prompts.LoaderRegistry.GetLoader | src/video2markdown/prompts.py:252-261 | a cached loader is returned as it is; otherwise a loader for "prompts" is created and cached when that folder exists, and the error is returned when it does not |
| Prompts.GetLoaderTwice | src/video2markdown/prompts.py:252-261 | two calls in a row hand out the same loader |
| Stats.UsageOf | src/video2markdown/stats.py:27-35 | a response without usage adds nothing; otherwise each count is the attribute or 0 when absent |
| Stats.UsageStats.constructor | src/video2markdown/stats.py:16-19 | a new counter set starts with all three counters at zero |
| Stats.UsageStats.Add | src/video2markdown/stats.py:21-25 | adds both token counts and one call; the total grows by their sum |
| Stats.UsageStats.AddFromResponse | src/video2markdown/stats.py:27-35 | a response without usage (or with `usage = None`) changes nothing; otherwise it counts exactly as one `add` |
| Stats.UsageStats.Reset | src/video2markdown/stats.py:67-71 | every counter and the total are zero afterwards |
| Stats.StatsRegistry.constructor | src/video2markdown/stats.py:75 | the global slot starts empty |
| Stats.StatsRegistry.GetStats | src/video2markdown/stats.py:78-83 | the cached instance is returned; on first use a fresh zeroed one is created and cached |
| Stats.StatsRegistry.ResetStats | src/video2markdown/stats.py:86-89 | a fresh zeroed instance replaces the cached one |
| Stats.GetStatsTwice | src/video2markdown/stats.py:78-83 | two calls in a row hand out the same object, which stays cached |
| Seqs.SortInPlace | src/video2markdown/stage1_analyze.py:302 | `list.sort(key=...)` in place leaves the array holding `SortBy` of its old contents |
| Seqs.SortByMultiset | src/video2markdown/stage3_keyframes.py:79 | sorting by a key keeps the same elements, each as often |
| Seqs.SortBySorted | src/video2markdown/stage3_keyframes.py:79 | sorting by a key leaves the elements in ascending key order |
| Seqs.SortWithMultiset | src/video2markdown/prompts.py:203 | `sorted` with a comparison keeps the same elements, each as often |
| Seqs.SortWithAscending | src/video2markdown/prompts.py:203 | with an asymmetric order, `sorted` leaves no element before a smaller one |

## Left out

- Frame decoding and pixel arithmetic (`cv2.VideoCapture`, `imread`, `absdiff`, `Canny`, `Laplacian`, `resize`, `np.mean`) are injected functions without an interpretation. The quality-score formula of `score_frame_quality` is one of them.
- Every subprocess (`ffprobe`, `ffmpeg`, whisper-cpp, `which`) and every file read or write is outside the model. The model keeps only the strings and lists they produce or consume: the `pts_time:` stderr lines, the chunk file names, the rendered text and the file tree the prompt loader searches.
- `stage2_transcribe.py` is not part of this model. Its one computation, the offset mapping, is the same as the one modelled in `Asr.PlusOffset`.
- Calls to the OpenAI, Kimi and whisper APIs are outside the model. Their replies are parameters: `replies`, `Reply` and readable-file predicates. This covers `generate_document_structure`, `_analyze_single_image` and the API call in `generate_document`.
- `json.loads`, `yaml.safe_load`, the regular-expression engine and `str.format` are outside the model. Their results are parameters, for example `decode`, `yaml` and `fill`. Only the patterns the code relies on are written out: the SRT time line and the `pts_time:` token.
- Document.ParseDocumentStructure: takes the decoded reply as typed records (`DocData`, `ChapterData`), where each key is absent or holds a value of the expected type. A key present with `null` or with a value of another type cannot be expressed. In the source, `{"title": null}` renders `# None`, and a string `key_points` is iterated character by character.
- DocumentV3.ParseDocumentStructureV3: the same typed-reply restriction as `Document.ParseDocumentStructure`.
- Stage6.GenerateDocument: the same typed-reply restriction; its `decode` yields `DocData`.
- Stats.UsageOf: each count is absent or an integer. A `usage.prompt_tokens` that is present but `None` makes `add` raise `TypeError` in the source, and that case cannot be expressed.
- `\d` in the SRT time-line pattern is modelled as an ASCII digit; Python also accepts other Unicode digits.
- Conversion from Traditional to Simplified Chinese through opencc is left out.
- IEEE floating point is not modelled: times are exact reals. This leaves out the drift of the `ts += 0.1` loops, the `% 1` truncation error and the float cost figures in `stats.py`.
- `str(float)` is an injected `show`, because the shortest round-trip repr of a double has no counterpart on reals.
- Path handling is simplified to string concatenation with "/". There is no normalisation, and `Path.name` of a path ending in "/" is not modelled.
- Stage4Filter.Annotate: the mutation of `frame.reason` is modelled as a value update. The aliasing between the candidate list and the filtered list, which share frame objects, is not modelled.
- Stage3Keyframes.ExtractCandidates: requires `interval_sec > 0`, because with 0 the sampling loop does not terminate. Stage3Keyframes.SampleStable and Stage3Keyframes.SampleInterval carry the same requirement.
- Audio.SplitAudio: requires `overlap < segment_duration` for a positive duration, because otherwise the start never advances and the loop does not terminate.
- Video.SampleTimes and Video.SampleUniformFrames: require a positive interval for a positive duration, for the same reason.
- Srt.EntryReadBack: the round trip is proved for one entry at a time. It holds for times in whole milliseconds under 100 hours and one stripped, non-empty line of text. Reading back a whole file written by `to_srt` is not proved.
- Asr.FormatTimestampReadsBack: stated for times under 100 hours, where the hour field has two digits.
- Stage1Analyze.PreciseBoundary: the `±0.3` fallback is not modelled as reachable behaviour. `Stage1Analyze.UnstableSpan` proves it cannot run, so that branch holds `assert false`.
- `render_markdown` in `stage7_render.py` is modelled for the text it writes; the file writing and image copying are not. Description files are selected by a readable-file predicate.
- `prompts.py` `get_info` and `load_prompt` are not part of this model. They only repackage what `load` returns (metadata fields with defaults, and the content of a prompt found beside the given file).
- `cli.py`, `processor.py`, `progress.py`, `config.py` and `__init__.py` are not part of this model. They hold command-line orchestration, a heartbeat thread, settings and lazy imports.
- Logging calls and progress messages are left out; they affect no result.

## Findings

| source | as written | input that shows it | evidently intended | confidence | as-written member | corrected member |
|---|---|---|---|---|---|---|
| src/video2markdown/asr.py:596-619 | whether a run is closed and split is decided by `seg.end - current.start`, the span through the next segment, rather than by the run's own span | segments `(0,4,"abcd")`, `(28,40,"x")` with `min_duration` 5 and `max_duration` 30 give `(0,2,"ab")`, `(2,4,"cd")`, `(28,40,"x")`: a 4-second run is split and the joined text becomes "ab cd x" instead of "abcd x" | only a run longer than `max_duration` is split, so short runs keep their text whole | not executed; medium | Asr.MergeCutsShortRun | Asr.CorrectedKeepsText |
