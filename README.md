# gowebvtt in Dafny

A model of the gowebvtt caption library. The library reads WebVTT caption
text into a list of timed *scenes* (cues): a start and an end in
milliseconds, plus the transcript lines. It can split over-long scenes,
wrap long transcript lines, and write the list back out as WebVTT text.

The model has four parts, one module each, plus a module of proofs for
each.

- **Text** (`text.dfy`) holds the small pieces of Go's library that the
  code relies on, written over `seq<char>`:
  - RE2's `\s` class and greedy character runs;
  - `strings.Trim(s, " ")`, `strings.Split` and `strings.Join`;
  - `strconv`'s decimal digits and `fmt`'s `%0Nd`.
- **Timestamp** (`timestamp.dfy`) is `timestamp.go` plus
  `MillsecToVTTTimeString`:
  - the three time patterns `H:M:S.ms`, `M:S.ms` and `S.ms`, as scanners
    that compute Go's leftmost-first `FindAllStringSubmatch`;
  - the classification `getTimeRangeTokens`, in priority order;
  - `getTimeRange` and the three conversions, with unsigned 64-bit
    wrap-around written out;
  - the formatter.

  `timestamp_codec.dfy`, `timestamp_proofs.dfy` and
  `timestamp_examples.dfy` hold the arithmetic, the pattern-matching
  proofs, the round trips and the repository's test cases.
- **WebVtt** (`webvtt.dfy`) is `webvtt.go`:
  - `Scene` is a datatype, since Go copies it by value;
  - the caption list `VTT` is a class whose `scenes` field `AppendScene`
    and `splitAndAppendScene` extend in place;
  - `ProcessSubtext` is a method with the word-wrap loop;
  - `String` is a method with the rendering loop.

  `webvtt_proofs.dfy` proves:
  - the sub-scenes of a split tile the original range;
  - they share out its lines in order;
  - a wrapped line keeps its words, in order, with at most
    MaxTokensOnAFrame to an emitted line.
- **Parser** (`parser.dfy`) is `ParseWebVTT`, as a method with the
  source's state variables and a loop over the input lines. It is
  specified by the function `Parse`, which folds one `Step` per line.
  - `parser_proofs.dfy` proves the reader's properties. The main one is
    that reading what `String` writes gives the caption list back
    (`ParseRender`). This holds for lists whose transcript lines are
    single lines as the line scanner splits them, with word wrap off and
    with each cue's ends in one time form.
  - `sample.dfy` checks the repository's parser test: the three-cue
    sample parses to the expected scenes, and rendering them gives the
    sample text back.

The package holds two versions of several declarations, in `gowebvtt.go`
and `webvtt.go`. The model has one of each:
- `webvtt.go`'s types, which have options, and its splitting `AppendScene`;
- driven by `gowebvtt.go`'s reader loop;
- taking the caption-list options and the word-wrap switches
  (`SplitForMaxTokens`, `MaxTokensOnAFrame`) as parameters, as
  `gowebvtt_test.go:26` already calls it.

## Model

| member | source | states |
|---|---|---|
| Timestamp.Sub64 | gowebvtt.go:34 | Go's unsigned `end - start`: the plain difference when it does not underflow, otherwise 2^64 minus the deficit |
| Timestamp.Separators | timestamp.go:18-20 | each form has one to three separators, the last being the dot before the milliseconds |
| Timestamp.MatchFields | timestamp.go:18-20 | a match of the digit groups ends after its start, within the text, and has exactly one group per field |
| Timestamp.MatchAt | timestamp.go:18-20 | a match of a whole time pattern has the matched text as group 0 and one group per field after it, as Go's submatch slices do |
| Timestamp.FindFromGroups | timestamp.go:25-29 | every match has the whole text plus one group per field: 5, 4 and 3 entries for the three forms |
| Timestamp.GetTimeRangeTokens | timestamp.go:23-32 | `H:M:S.ms` is chosen exactly when its pattern occurs; `M:S.ms` exactly when it occurs and the first does not; `S.ms` when only it occurs; TS_Err exactly when there are no tokens |
| Timestamp.ParseUint | timestamp.go:52 | `strconv.ParseUint(s, 10, 64)` succeeds exactly on non-empty decimal digits below 2^64, with their value |
| Timestamp.GetTimeRange | timestamp.go:34-37 | when classification fails, or the pattern does not match exactly twice, the result is start 0, end 0 and the "no range" error |
| TimestampCodec.ParseSMsFormula | timestamp.go:75-85 | parseSMsToMillisec succeeds iff both fields convert; the value is `S*1000 + ms` mod 2^64; otherwise the first failing field's error |
| TimestampCodec.ParseMSMsFormula | timestamp.go:63-73 | parseMSMsToMillisec succeeds iff all three fields convert; the value is `M*60000 + S*1000 + ms` mod 2^64; otherwise the first failing field's error |
| TimestampCodec.ParseHMSMsFormula | timestamp.go:51-61 | parseHMSMsToMillisec succeeds iff all four fields convert; the value is `H*3600000 + M*60000 + S*1000 + ms` mod 2^64; otherwise the first failing field's error |
| TimestampCodec.ParseSMsOk | timestamp.go:75-85 | fields whose combined value fits in 64 bits convert to exactly `S*1000 + ms` |
| TimestampCodec.ParseMSMsOk | timestamp.go:63-73 | fields that fit in 64 bits convert to exactly `M*60000 + S*1000 + ms` |
| TimestampCodec.ParseHMSMsOk | timestamp.go:51-61 | fields that fit in 64 bits convert to exactly `H*3600000 + M*60000 + S*1000 + ms` |
| TimestampCodec.HoursBound | gowebvtt.go:127-130 | the formatter's test `hours < 1` holds exactly when ms < 3600000 |
| TimestampCodec.FieldValuesSum | gowebvtt.go:127-144 | the printed `minutes%60`, `seconds%60` and `ms%1000` (and the hours, above one hour) recombine to the milliseconds they came from |
| TimestampCodec.FormatIsCompose | gowebvtt.go:130-144 | MillsecToVTTTimeString writes its digit groups with `:` and `.` in the form (`MM:SS.mmm` or `HH:MM:SS.mmm`) that FormatOf names |
| TimestampCodec.ParseField | gowebvtt.go:131-144 | each zero-padded field the formatter writes converts back, through ParseUint, to the number it holds |
| TimestampCodec.ParseFields | timestamp.go:51-85 | the formatter's fields, converted under their own form, give the milliseconds back |
| TimestampCodec.WholeMatch | timestamp.go:24-29 | a text that is exactly one composed time is exactly one match, whose groups are the fields |
| TimestampCodec.SingleRoundTrip | timestamp.go:23-32 | a single formatted time is classified under the form it was written in, with one match, and converts back to the same milliseconds |
| TimestampCodec.ArrowText | gowebvtt.go:151 | the ` --> ` String writes between two times is a two-dash arrow |
| TimestampCodec.RangeTokens | timestamp.go:23-32 | a time line String writes, with both ends in one form, is classified under that form with one match per end |
| TimestampCodec.RangeFound | timestamp.go:25-29 | that line gives its form's pattern exactly two matches, one per end |
| TimestampCodec.RangeNoHours | timestamp.go:24 | a line of two `M:S.ms` ends gives no match of the `H:M:S.ms` pattern |
| TimestampCodec.Classified | timestamp.go:23-32 | a form is chosen when its pattern matches and every form tried before it does not |
| TimestampCodec.RangeRoundTrip | timestamp.go:34-49 | the time line String writes for a range whose ends are in one form reads back as that range, with no error |
| TimestampCodec.MixedEnds | timestamp.go:24-25 | an `M:S.ms` end, an arrow and an `H:M:S.ms` end: the `H:M:S.ms` pattern matches the second end only |
| TimestampCodec.MixedTokens | timestamp.go:24-25 | the time line of a range that crosses the one-hour mark has one `H:M:S.ms` match, the second end |
| TimestampCodec.MixedRangeFails | timestamp.go:34-37 | a range that crosses the one-hour mark is written in two forms, and its time line reads back as the "no range" error with 0 and 0 |
| TimestampProofs.MatchFieldsCompose | timestamp.go:18-20 | the field scanner reads digit groups composed with the pattern's separators back exactly, ending right after them |
| TimestampProofs.MatchAtCompose | timestamp.go:18-20 | leading white space, composed groups and trailing white space match the whole pattern, with the composed groups as the groups |
| TimestampProofs.NoMatchAtOther | timestamp.go:18-20 | no match starts at a character that is neither white space nor a digit |
| TimestampProofs.FindFromSkip | timestamp.go:25-29 | positions where no match starts are passed over by the search |
| TimestampProofs.FindFromHit | timestamp.go:25-29 | a match found is reported, and the search resumes where it ended |
| TimestampProofs.NoFirstSeparator | timestamp.go:24-28 | a pattern whose first separator never occurs matches nowhere |
| TimestampProofs.MinutesBlockNoHours | timestamp.go:18 | inside an `M:S.ms` block the `H:M:S.ms` field scanner matches at no position |
| TimestampProofs.ArrowSkip | timestamp.go:25-29 | the search passes over a `-->`-style arrow without a match |
| TimestampProofs.TwoEnds | timestamp.go:25-29 | two composed ends around an arrow give exactly two matches: the first end with the space after it, the second with the space before it |
| TimestampProofs.RangeMatches | timestamp.go:25-29 | a range line with both ends composed under one form's separators gives that pattern exactly the two ends' groups |
| TimestampProofs.MinutesEndsNoHours | timestamp.go:24 | two `M:S.ms` ends around an arrow give the `H:M:S.ms` search nothing |
| TimestampProofs.MinutesRangeNoHours | timestamp.go:24 | a range line of two `M:S.ms` ends, whatever the arrow, matches the `H:M:S.ms` pattern nowhere |
| TimestampProofs.ComposeHasNoSpace | timestamp.go:18-20 | composed digit groups hold no white space, so the patterns' `\s*` cannot extend into them |
| TimestampExamples.RangeClassified | timestamp.go:23-32 | a range line of two ends in one form is classified under that form, with the two ends as its matches |
| TimestampExamples.RangeValue | timestamp.go:34-49 | both ends convert under the one form chosen for the line; the start's value is 0 when its conversion fails, and the end's conversion alone decides the error |
| TimestampExamples.HoursRange | timestamp_test.go:38-40 | `"00:00:00.100 ---> 01:10:01.100"` reads as 100 to 4201100 with no error |
| TimestampExamples.MinutesRange | timestamp_test.go:41-43 | `"00:10.100 --> 01:10.500"` reads as 10100 to 70500 with no error |
| TimestampExamples.SecondsRange | timestamp_test.go:44-46 | `"00.500 -> 10.100"` reads as 500 to 10100 with no error |
| TimestampExamples.StartOverflowLost | timestamp.go:39-46 | a start too large for 64 bits reads as 0, and its error is overwritten by the end's success |
| TimestampExamples.ErrorFromEnd | timestamp.go:39-46 | texts classified alike and with the same second match get the same end and the same error, whatever their first match |
| TimestampExamples.EmptyText | timestamp_test.go:8-10 | the empty line gives TS_Err with no tokens, and getTimeRange's "no range" error with 0 and 0 |
| TimestampExamples.HoursTokens | timestamp_test.go:12-17 | `"00:00:00.100"` is classified `H:M:S.ms`, with one match of 5 entries |
| TimestampExamples.MinutesTokens | timestamp_test.go:18-20 | `"00:00.100"` is classified `M:S.ms`, with one match of 4 entries |
| TimestampExamples.SecondsTokens | timestamp_test.go:21-23 | `"00.100"` is classified `S.ms`, with one match of 3 entries |
| TimestampExamples.SingleMatch | timestamp.go:25-29 | one composed time, a space and a tail without a dot give exactly one match |
| TimestampExamples.OneMatch | timestamp_test.go:26-36 | `"0:00:00.000 1:01:01:10"` has a single `H:M:S.ms` match, so getTimeRange reports the "no range" error |
| Text.TrimSpaces | webvtt.go:126 | `strings.Trim(s, " ")` is the input with exactly its leading and trailing spaces removed: a slice of it with only spaces outside, and no space at either end |
| Text.Split | webvtt.go:126 | `strings.Split` gives at least one piece, and no piece holds the separator |
| Text.JoinSplit | webvtt.go:126-133 | joining the pieces of a split gives the string back |
| Text.SplitJoin | webvtt.go:126-133 | splitting a join of separator-free pieces gives the pieces back |
| Text.JoinEmpty | webvtt.go:129-133 | a join is empty exactly when it joins one empty word: the only chunk AppendTranscript refuses |
| Text.PadDecimal | gowebvtt.go:132-139 | `%0Nd` writes only digits, at least N of them |
| Text.PadDecimalValue | gowebvtt.go:132-139 | the digits `%0Nd` writes denote the number |
| Text.PadDecimalWidth | gowebvtt.go:132-139 | a number below 10^N is written in exactly N digits |
| WebVtt.NewScene | webvtt.go:45-52 | newScene has the given range and options and an empty transcript |
| WebVtt.AppendTranscript | webvtt.go:113-119 | AppendTranscript reports success exactly for a non-empty line; it appends that line and nothing else, and keeps the range and options |
| WebVtt.ProcessSubtext | webvtt.go:121-136 | the scene gains exactly the lines SubtextLines gives for the line and the wrap switches; nothing else changes |
| WebVtt.SplitDuration | webvtt.go:79 | the split duration is at most the unsigned length of the scene |
| WebVtt.Pieces | webvtt.go:80-93 | the first i sub-scenes are i scenes |
| WebVtt.SplitScenes | webvtt.go:74-93 | splitting appends at least one scene |
| WebVtt.CeilDivBounds | webvtt.go:74 | the scene count is the least count of k-line sub-scenes that covers n lines; it is at most 1 exactly when n <= k |
| WebVtt.PieceBounds | webvtt.go:80-89 | each sub-scene's slice `[i*k, upto)` lies within the transcript and is not empty |
| WebVtt.SplitStep | webvtt.go:80-93 | one round of the split loop appends the i-th sub-scene, from the running index and end, and moves both on to the next boundary |
| WebVtt.Vtt.constructor | webvtt.go:11-14 | a new caption list has no scenes and the given options |
| WebVtt.Vtt.AppendScene | webvtt.go:54-67 | returns true exactly when the scene has lines and a non-zero unsigned length; the list grows by Appended: nothing, the scene, or its split; the options are kept |
| WebVtt.Vtt.SplitAndAppendScene | webvtt.go:69-98 | always returns no error; the list grows by exactly SplitScenes of the scene |
| WebVtt.Vtt.String | webvtt.go:100-111 | the text built is Render of the scenes: `WEBVTT\n`, then each scene with lines as a blank line, its time line and its lines |
| WebVttProofs.PiecesIndex | webvtt.go:80-93 | the j-th scene the loop appends is Piece j |
| WebVttProofs.SplitShape | webvtt.go:74-78 | a scene of at most k lines is appended unchanged; a longer one becomes exactly ceil(n/k) >= 2 sub-scenes, each the matching Piece |
| WebVttProofs.SplitTiles | webvtt.go:79-97 | the sub-scenes tile the range: the first starts at the original start, each later one where the previous ended, every non-last one lasts `(end - start) / count` in uint64 arithmetic, and the last ends at the original end |
| WebVttProofs.PieceFields | webvtt.go:82-88 | a piece runs from its boundary to the next and keeps the scene's options |
| WebVttProofs.SplitDurations | webvtt.go:79-86 | when start <= end, every non-last sub-scene lasts exactly the quotient, and the last one lasts the quotient plus the remainder |
| WebVttProofs.BoundaryNoWrap | webvtt.go:82-83 | below the end the running end is the plain sum `start + i * d` |
| WebVttProofs.PiecesLines | webvtt.go:81-89 | the lines of the first i sub-scenes are the transcript's first lines, up to the i-th cut |
| WebVttProofs.SplitLines | webvtt.go:81-91 | the sub-scenes' transcripts concatenate to the original in order; every non-last one has exactly k lines and the last 1..k; every one keeps the scene's options |
| WebVttProofs.AppendedLines | webvtt.go:54-67 | AppendScene adds all the scene's lines in order when it accepts the scene, and no line otherwise |
| WebVttProofs.AppendedScenes | webvtt.go:54-67 | every scene AppendScene adds has lines and the original options; it adds some scene exactly when it accepts |
| WebVttProofs.AppendKeepsLines | webvtt.go:54-67 | AppendScene keeps "every scene has lines"; a scene without lines leaves the list as it was |
| WebVttProofs.ChunksFlatten | webvtt.go:128-135 | the word chunks hold all the words, in order |
| WebVttProofs.ChunksSizes | webvtt.go:128-135 | there are ceil(n/k) chunks; every non-last chunk has exactly k words and the last one 1..k |
| WebVttProofs.ChunkWords | webvtt.go:128-135 | every word of a chunk is a word of the line |
| WebVttProofs.EmittedFrom | webvtt.go:129-134 | an emitted line is the non-empty join of one of the chunks |
| WebVttProofs.WrapTokens | webvtt_test.go:8-21 | with wrapping on, every added line is non-empty and splits at spaces into 1..MaxTokensOnAFrame tokens |
| WebVttProofs.NoBlankChunk | webvtt.go:126-135 | no chunk is a lone empty word, provided the last word is non-empty and either k >= 2 or no word is empty |
| WebVttProofs.EmittedJoin | webvtt.go:128-135 | the emitted lines, joined with spaces, are the words joined with spaces |
| WebVttProofs.WrapRejoin | webvtt.go:126-135 | with wrapping on, the added lines joined with spaces are the trimmed line: no word is lost and the order is kept |
| WebVttProofs.NoWrapKeepsLine | webvtt.go:121-125 | with wrapping off the line is appended verbatim, and only if it is non-empty |
| WebVttProofs.SplitExampleTwo | webvtt_test.go:23-65 | a 5-line scene from 0 to 5000 split at 2 lines gives 0-1666, 1666-3332 and 3332-5000, with 2, 2 and 1 lines |
| Parser.HeaderEnd | gowebvtt.go:69-74 | the header loop stops right after the first header line, or consumes every line when there is none |
| Parser.SkipHeader | gowebvtt.go:69-74 | the loop's position is HeaderEnd of the lines |
| Parser.ParseWebVTT | gowebvtt.go:66-113 | a fresh caption list with the given options, whose scenes are Parse of the lines |
| ParserProofs.StepsConcat | gowebvtt.go:80-108 | reading a + b is reading a, then b from the state a leaves |
| ParserProofs.HeaderEndAfter | gowebvtt.go:69-74 | the header loop consumes the lines before the first header line and the header line itself |
| ParserProofs.HeaderSkip | gowebvtt.go:69-74 | the lines up to and including the first header line do not affect the result |
| ParserProofs.NoHeader | gowebvtt.go:69-74 | without a header line the caption list is empty |
| ParserProofs.TimestampNotNote | gowebvtt.go:82-96 | a time line is neither blank nor a NOTE line |
| ParserProofs.CueLineIsText | gowebvtt.go:92-96 | while a cue is open, a line that looks like a time line goes to ProcessSubtext; the time range stays as it was |
| ParserProofs.NoteInCue | gowebvtt.go:82-93 | a NOTE line inside a cue, and the blank line after it, leave the cue open |
| ParserProofs.NoteBodyRead | gowebvtt.go:92-107 | after a NOTE line outside a cue, a time line still opens a cue with that line's range |
| ParserProofs.MuteDropped | gowebvtt.go:102-105 | a time line never adds a scene: the mute scene has no lines, so AppendScene refuses it |
| ParserProofs.BlankClosesCue | gowebvtt.go:82-91 | a blank line closes the open cue: the scene goes to AppendScene; the previous end becomes its end even when it is refused; the working scene resets to 0/0/empty |
| ParserProofs.StepsKeepLines | gowebvtt.go:80-108 | every scene the loop adds through AppendScene has lines |
| ParserProofs.ParsedScenesHaveLines | gowebvtt.go:109-111 | every scene of the result but the last has lines (that the last may have none is ParserProofs.PendingSceneKept) |
| ParserProofs.PendingSceneKept | gowebvtt.go:96-111 | a header and a lone time line read as that line's scene with no lines, even when its length is zero: the pending scene is appended without AppendScene's checks |
| ParserProofs.OpenCue | gowebvtt.go:96-107 | outside a cue, a time line opens one with the line's range and adds no scene |
| ParserProofs.FormatChars | gowebvtt.go:126-145 | MillsecToVTTTimeString writes digits, colons and a dot, starting with a digit |
| ParserProofs.ArrowLineKind | gowebvtt.go:30 | two runs of time characters, each starting with a digit, around ` --> ` match the time-line pattern |
| ParserProofs.TimeLineKind | gowebvtt.go:151 | the time line String writes is recognised as one, and is neither blank nor a NOTE line |
| ParserProofs.BlocksText | gowebvtt.go:149-156 | the scenes' blocks, each line with a newline, are the scenes' rendering |
| ParserProofs.BlockText | gowebvtt.go:150-155 | one scene's block, each line with a newline, is its rendering |
| ParserProofs.RenderIsLines | gowebvtt.go:147-158 | String's output is the header line and the blocks, each line followed by a newline |
| ParserProofs.TimeLineReadsBack | gowebvtt.go:151 | a time line String writes, for a scene whose ends are in one form, is a time line and reads as that scene's range |
| ParserProofs.TimeLinesReadBack | gowebvtt.go:151 | the same, for every readable scene at once |
| ParserProofs.TextSteps | gowebvtt.go:94-95 | while a cue is open, text lines are appended one by one, unchanged |
| ParserProofs.BlockSteps | gowebvtt.go:80-107 | reading a scene's block sends the open cue, if any, to AppendScene and opens the block's scene as the new cue |
| ParserProofs.BlocksSteps | gowebvtt.go:80-108 | after the blocks of a list that round-trips, the last scene is the open cue and the others have been appended |
| ParserProofs.NextBlockSteps | gowebvtt.go:80-108 | one more block appends the open cue and opens the next scene |
| ParserProofs.ReadingStep | gowebvtt.go:82-107 | from the state after some blocks, one more block gives the state after all of them |
| ParserProofs.FinishReading | gowebvtt.go:109-111 | flushing the pending cue at the end of the input completes the list |
| ParserProofs.RenderedHeader | gowebvtt.go:69-74 | reading String's output starts after its `WEBVTT` line |
| ParserProofs.ParseRender | gowebvtt.go:66-113 | reading String's output gives the caption list back, for every list whose scenes are readable (single-line, non-blank, non-NOTE transcript lines; ends in one form) and whose non-last scenes AppendScene keeps as they are, with word wrap off |
| Sample.WholeSeconds | gowebvtt.go:126-136 | a whole number of seconds under a minute is written `00:SS.000` |
| Sample.SampleRenderLines | gowebvtt_test.go:9-21 | String's lines for the sample's three scenes are the sample's lines |
| Sample.SampleRoundTrips | gowebvtt_test.go:9-21 | the sample's scenes are readable and AppendScene keeps them as they are |
| Sample.SampleParse | gowebvtt_test.go:24-43 | the sample reads as three scenes, 1000-4000, 5000-9000 and 10000-14000, the second with two lines |
| Sample.SampleString | gowebvtt_test.go:44-46 | writing the parsed sample out again gives the sample text |

## Left out

- Reading the input is not modelled. `ParseFile`, `bufio.Scanner` and `os.Open` are replaced by a sequence of lines, already split and without their line ends.
- `Println` and the `log` calls are left out; they only write output.
- Go's `regexp` engine is replaced by character scanners, one per pattern. For these patterns every greedy run is forced, so the scanners give the same leftmost-first matches and the same groups.
- The package-level switches `SplitForMaxTokens` and `MaxTokensOnAFrame` are passed in as `Wrapping`, and the caption-list options as `VttOptions`. ParseWebVTT takes both as parameters.
- `SceneOptions.MaxCharsPerLine` is carried but never read, as in the source.
- The two versions of the declarations are merged. `gowebvtt.go`'s one-argument `ParseWebVTT`, its copies of `AppendScene`, `AppendTranscript` and `ProcessSubtext`, and its free `String` are these same members. The only difference is that its `AppendScene` never splits, which is the case where the options are disabled.
- WebVtt.Vtt.SplitAndAppendScene requires a non-zero `MaxLinesPerScene`, and so does WebVtt.Vtt.AppendScene when splitting is on. With zero the source divides by zero in floating point and never leaves its loop. A negative limit is modelled: the `float64` count is then not above 1, so the scene is appended unchanged.
- `math.Ceil` over `float64` is modelled as the exact integer ceiling. The two agree whenever the length and the limit are below 2^53, where `float64` division is exact enough.
- WebVtt.ProcessSubtext requires `MaxTokensOnAFrame >= 1` when wrapping is on. With a smaller value the source's loop never ends, or it slices out of range.
- `strconv.ParseUint`'s range error is modelled as an error result (`NumRange`), not as a precondition. The error's text is not modelled, only its kind.
- WebVttProofs.WrapRejoin: with one word to a line it requires single spaces between words. AppendTranscript drops the empty words that doubled spaces produce, so otherwise joined-back lines can lose spaces.
- ParserProofs.ParseRender requires both ends of each scene to be in one form, below or from one hour. A cue crossing the hour mark is written in two forms, and its time line does not read back (TimestampCodec.MixedRangeFails).
- ParserProofs.ParseRender requires word wrap off. With `SplitForMaxTokens` on, a long transcript line is read back as several lines.
- ParserProofs.ParseRender requires each transcript line to hold no newline and not to end in a carriage return. String writes such a line as it is, and the line scanner reads it back split at the newline, or without the final carriage return.
- The source differs from the usual reading of WebVTT in these places; the model follows the code:
  - lines after a NOTE line are not skipped, and a time line there opens a cue (ParserProofs.NoteBodyRead);
  - a NOTE line inside a cue makes the next blank line end only the note (ParserProofs.NoteInCue);
  - the scene pending at the end of the input is kept even without lines or with a zero length (ParserProofs.PendingSceneKept);
  - a start that overflows 64 bits is read as 0, and its error is lost (TimestampExamples.StartOverflowLost).
- The three-, four- and five-line split tests of `webvtt_test.go` are not restated. Their counts, tiling and line sharing are what WebVttProofs.SplitShape, SplitTiles and SplitLines state for every scene. The two-line case is checked as WebVttProofs.SplitExampleTwo.
- The per-conversion tests of `timestamp_test.go` (lines 49-89) are covered by the general formulas ParseSMsFormula, ParseMSMsFormula and ParseHMSMsFormula. They are not restated one by one.
