# Eagle subtitle plugin: the subtitle engine in Dafny

The Eagle subtitle plugin shows subtitles over videos played in the Eagle
asset manager. Its engine is small: `SubtitleParser.parse` turns the text
of an SRT, ASS/SSA or WebVTT file into a list of cues
`{index?, startTime, endTime, text}`, and
`EagleSubtitlePlugin.findSubtitleForTime` picks, by binary search, the
cue to show at the current playback time. This project models these
operations as pure Dafny functions and methods over lines of text and
proves what they do.

- `Parser.Parse` is `parse`. It rejects missing input, lower-cases the
  format name and dispatches to one of the format parsers.
  - `ass` and `ssa` share a parser.
  - An unknown name is an error that quotes it.
- `Srt.ParseSrt` is `parseSRT`.
  - The line after an index line is always read as the timing line.
  - The non-blank lines after that are the cue's text.
  - An index line that is the last line makes the source read past the
    end of the line array. This is the error `MissingTimingLine`.
  - `Srt.ParseSrtLoop` keeps the source's loop with its pending cue, and
    is proved equal to `Srt.ParseSrt`.
- `Ass.ParseAss` is `parseASS` and `parseASSDialogue`.
  - Dialogue lines count only after an `[Events]` line.
  - A dialogue line needs at least ten comma-separated fields.
  - In the text, `\N` becomes a line break.
- `Vtt.ParseVtt` is `parseVTT`.
  - A header loop skips to the first line containing `-->`.
  - A main loop opens a cue at every `-->` line that carries a pair of
    stamps.
  - A `-->` line without stamps keeps the cue in hand. That cue was
    already pushed, so it is pushed again, and the text lines that follow
    are added to it. All copies are the same object, so every copy shows
    the final text.
  - Before any cue is in hand, such a line dereferences `null`. This is the
    error `NoPendingCue`.
- `TimeCodes.SrtTime`, `TimeCodes.AssTime` and `TimeCodes.VttTime` are
  `parseSRTTime`, `parseASSTime` and `parseVTTTime`.
  - Each reads the leftmost match of its regular expression, or gives 0
    when there is none.
  - Regular expressions are modelled as fixed-width character-class
    templates in `Patterns`.
- `Lookup.FindCueAt` is `findSubtitleForTime`.

Times are whole milliseconds, not the source's fractional seconds.
Text is `seq<char>`. JavaScript `null`/`undefined` become `Option`, and
thrown errors become `Result`.

What the code does that a reader might not expect:

- **No sorting.** Cues are stored and searched in the order the parser
  produced them; nothing sorts them. So the lookup is only proved complete
  for lists already in play order (`Lookup.Ordered`). On such a list it
  returns whichever covering cue the binary search reaches.
- **Both ends trimmed.** SRT and WebVTT cue text is trimmed at both ends
  (JavaScript `trim()`). ASS text is not trimmed itself: only the whole
  dialogue line is trimmed before it is read, so a text field that starts
  with a space keeps it.
- **Stampless `-->` lines.** Such a line re-pushes and extends the cue in
  hand, and fails when no cue is in hand. It never produces a cue with
  unset fields.
- **Missing input.** A missing content or format argument, or an empty
  one, is a single error, `MissingInput`.

## Model

| member | source | states |
|---|---|---|
| Parser.Parse | eagle-subtitle-plugin-v1.0.0-fixed/main.js:435-450 | A missing or empty content or format gives exactly `MissingInput`; an unsupported-format error happens exactly when both are present and the lower-cased name is none of srt/ass/ssa/vtt, and it quotes the name as given; success only for present arguments and a known format |
| Parser.FormatOf | eagle-subtitle-plugin-v1.0.0-fixed/main.js:440-449 | The name selects SRT iff its lower-case form is `srt`, ASS iff it is `ass` or `ssa`, WebVTT iff it is `vtt` |
| Parser.Dispatch | eagle-subtitle-plugin-v1.0.0-fixed/main.js:440-447 | Once a parser is chosen, the only possible failures are SRT's `MissingTimingLine` and WebVTT's `NoPendingCue`; ASS never fails |
| Parser.CaseInsensitive | eagle-subtitle-plugin-v1.0.0-fixed/main.js:440 | Two format names with the same lower-case form pick the same parser and give the same result when supported, and succeed or fail together |
| Parser.AssIsSsa | eagle-subtitle-plugin-v1.0.0-fixed/main.js:443-445 | `ass` and `ssa`, in any letter case, give the same result: the ASS parser on the lines of the content |
| Parser.ParseErrors | eagle-subtitle-plugin-v1.0.0-fixed/main.js:435-450 | `parse` fails iff an argument is missing, the format is unknown or the chosen parser fails, and every failure is one of the four errors, each tied to its format |
| Parser.SrtRoutes | eagle-subtitle-plugin-v1.0.0-fixed/main.js:440-442 | The name `srt`, in any letter case, hands the lines of non-empty content to the SRT parser, whose result, success or failure, is the result of `parse` |
| Parser.VttRoutes | eagle-subtitle-plugin-v1.0.0-fixed/main.js:440-447 | The name `vtt`, in any letter case, hands the lines of non-empty content to the WebVTT parser, whose result, success or failure, is the result of `parse` |
| Parser.VttContentRoundTrip | eagle-subtitle-plugin-v1.0.0-fixed/main.js:435-450 | Writable cues, written as a WebVTT file and joined with '\n', come back unchanged from `parse(content, "vtt")` |
| Srt.EntryCue | eagle-subtitle-plugin-v1.0.0-fixed/main.js:468-493 | The cue of an entry always carries an index, has times a two-digit-hour clock can denote, and has text that trimming leaves unchanged |
| Srt.ScanSrt | eagle-subtitle-plugin-v1.0.0-fixed/main.js:459-503 | The scan from a line yields no more cues than there are index lines from there on, every cue numbered, and fails only with `MissingTimingLine` when the last line is an index line |
| Srt.EntriesBound | eagle-subtitle-plugin-v1.0.0-fixed/main.js:459-503 | The scan reads at most one entry per index line |
| Srt.EntriesFailure | eagle-subtitle-plugin-v1.0.0-fixed/main.js:475-477 | The scan fails only with `MissingTimingLine`, and only when the last line is an index line |
| Srt.ParseSrt | eagle-subtitle-plugin-v1.0.0-fixed/main.js:453-504 | No more cues than index lines, every cue numbered, and a failure is `MissingTimingLine` with an index line as the last line |
| Srt.ScanSrtStep | eagle-subtitle-plugin-v1.0.0-fixed/main.js:459-497 | One loop step: a non-index line is passed over; an index line that is the last line fails; any other index line yields its cue and the scan resumes after the blank line ending its text |
| Srt.SrtBlocksParse | eagle-subtitle-plugin-v1.0.0-fixed/main.js:453-504 | A file of well-formed blocks (index line, timing line, text lines, blank separator) parses to exactly one cue per block, in file order, each the block's cue |
| Srt.BlockCueFields | eagle-subtitle-plugin-v1.0.0-fixed/main.js:468-493 | A block whose index line is a number written in decimal gets that number as index; a timing line written from two times gives those times (0 and 0 when the line holds no timing range); the text is the text lines joined by newlines, trimmed |
| Srt.ReadText | eagle-subtitle-plugin-v1.0.0-fixed/main.js:488-491 | The inner loop stops at the first blank line or the end of input and has built each line followed by a newline |
| Srt.ReadCue | eagle-subtitle-plugin-v1.0.0-fixed/main.js:468-493 | The loop body at an index line builds the cue of the entry that starts there and stops where its text ends |
| Srt.ParseSrtLoop | eagle-subtitle-plugin-v1.0.0-fixed/main.js:453-504 | The pending-cue loop as written computes the same result as the entry-by-entry definition `ParseSrt` |
| Cues.TextEndShape | eagle-subtitle-plugin-v1.0.0-fixed/main.js:488-491 | The text of a cue is the non-blank lines up to the first blank line or the end of input |
| Cues.AccumulateJoin | eagle-subtitle-plugin-v1.0.0-fixed/main.js:489 | Appending each line and a newline builds the lines joined by newlines, plus a final newline |
| TimeCodes.SrtTime | eagle-subtitle-plugin-v1.0.0-fixed/main.js:506-517 | The time is bounded by the largest two-digit clock and is 0 when no `HH:MM:SS,mmm` occurs |
| TimeCodes.AssTime | eagle-subtitle-plugin-v1.0.0-fixed/main.js:557-568 | The time is bounded, a whole number of centiseconds, and 0 when no `H:MM:SS.cc` occurs |
| TimeCodes.VttTime | eagle-subtitle-plugin-v1.0.0-fixed/main.js:619-630 | The time is bounded and is 0 when no `HH:MM:SS.mmm` occurs |
| TimeCodes.SrtTimeOfFields | eagle-subtitle-plugin-v1.0.0-fixed/main.js:507-514 | `HH:MM:SS,mmm` reads as ((H*60+M)*60+S)*1000+mmm milliseconds |
| TimeCodes.AssTimeOfFields | eagle-subtitle-plugin-v1.0.0-fixed/main.js:558-565 | `H:MM:SS.cc` with one or two hour digits reads as ((H*60+M)*60+S)*1000+cc*10 milliseconds |
| TimeCodes.VttTimeOfFields | eagle-subtitle-plugin-v1.0.0-fixed/main.js:620-627 | `HH:MM:SS.mmm` reads as ((H*60+M)*60+S)*1000+mmm milliseconds |
| TimeCodes.SrtTimeRoundTrip | eagle-subtitle-plugin-v1.0.0-fixed/main.js:506-517 | Every time below 100 hours, written as an SRT stamp, reads back as itself |
| TimeCodes.AssTimeRoundTrip | eagle-subtitle-plugin-v1.0.0-fixed/main.js:557-568 | Every whole number of centiseconds below 100 hours, written as an ASS stamp, reads back as itself |
| TimeCodes.VttTimeRoundTrip | eagle-subtitle-plugin-v1.0.0-fixed/main.js:619-630 | Every time below 100 hours, written as a WebVTT stamp, reads back as itself |
| TimeCodes.SrtTimeCanonical | eagle-subtitle-plugin-v1.0.0-fixed/main.js:506-517 | An SRT stamp with minutes and seconds below 60 is reproduced by reading and rewriting it |
| TimeCodes.VttTimeCanonical | eagle-subtitle-plugin-v1.0.0-fixed/main.js:619-630 | A WebVTT stamp with minutes and seconds below 60 is reproduced by reading and rewriting it |
| TimeCodes.AssTimeCanonical | eagle-subtitle-plugin-v1.0.0-fixed/main.js:557-568 | An ASS stamp with minutes and seconds below 60, one hour digit below 10 hours and two from 10 hours on, is reproduced by reading and rewriting it |
| TimeCodes.SrtTimingLine | eagle-subtitle-plugin-v1.0.0-fixed/main.js:478-483 | The SRT timing line sets no times exactly when the range pattern matches nowhere in it, and the times it sets are bounded |
| TimeCodes.SrtTimingLineLeftmost | eagle-subtitle-plugin-v1.0.0-fixed/main.js:478-483 | The times are those of the two stamps of the leftmost range in the line |
| TimeCodes.VttTimingLine | eagle-subtitle-plugin-v1.0.0-fixed/main.js:589-596 | A WebVTT `-->` line opens no cue exactly when the range pattern matches nowhere in it, and the times it opens with are bounded |
| TimeCodes.VttTimingLineLeftmost | eagle-subtitle-plugin-v1.0.0-fixed/main.js:589-595 | The times are those of the two stamps of the leftmost range in the line |
| TimeCodes.SrtTimingLineRoundTrip | eagle-subtitle-plugin-v1.0.0-fixed/main.js:478-483 | A timing line written from two times below 100 hours yields exactly those times |
| TimeCodes.VttTimingLineRoundTrip | eagle-subtitle-plugin-v1.0.0-fixed/main.js:589-595 | A timing line written from two times below 100 hours yields exactly those times |
| Patterns.FirstMatch | eagle-subtitle-plugin-v1.0.0-fixed/main.js:478 | `match` without the global flag finds the leftmost match: a position where the pattern matches, none before it, and nothing exactly when the pattern matches nowhere |
| Patterns.FirstMatchOfTwo | eagle-subtitle-plugin-v1.0.0-fixed/main.js:558 | `\d{1,2}` tries two hour digits before one at each position: the leftmost position where either width matches, preferring two digits there |
| Strings.Split | eagle-subtitle-plugin-v1.0.0-fixed/main.js:454 | `split` gives one piece more than there are separators, and no piece holds the separator |
| Strings.TrimBlankSuffix | eagle-subtitle-plugin-v1.0.0-fixed/main.js:493 | Whitespace appended to a string is trimmed away with the string's own |
| Strings.TrimShape | eagle-subtitle-plugin-v1.0.0-fixed/main.js:460 | `trim()` keeps a contiguous middle of the string and removes only whitespace on either side |
| Strings.TrimEmptyIffBlank | eagle-subtitle-plugin-v1.0.0-fixed/main.js:488 | A line trims to the empty string exactly when it is all whitespace |
| Strings.TrimIdempotent | eagle-subtitle-plugin-v1.0.0-fixed/main.js:493 | Trimming twice is trimming once |
| Strings.JoinSplit | eagle-subtitle-plugin-v1.0.0-fixed/main.js:545-551 | Splitting on a separator and joining with it gives the string back |
| Strings.SplitJoin | eagle-subtitle-plugin-v1.0.0-fixed/main.js:454 | Joining pieces that hold no separator and splitting again gives the pieces back |
| Ass.ParseDialogue | eagle-subtitle-plugin-v1.0.0-fixed/main.js:543-555 | A dialogue line gives a cue exactly when the text after its first nine characters holds at least nine commas; the cue has no index and times in whole centiseconds |
| Ass.AssScan | eagle-subtitle-plugin-v1.0.0-fixed/main.js:524-538 | At most one cue per `Dialogue:` line, each without index and with times in whole centiseconds |
| Ass.ParseAss | eagle-subtitle-plugin-v1.0.0-fixed/main.js:519-541 | Nothing without an `[Events]` line; otherwise at most one cue per `Dialogue:` line, each without index and with times in whole centiseconds |
| Ass.BeforeEvents | eagle-subtitle-plugin-v1.0.0-fixed/main.js:524-530 | Lines before the first `[Events]` line contribute nothing |
| Ass.EventsAppend | eagle-subtitle-plugin-v1.0.0-fixed/main.js:524-538 | Inside the events section each line is read on its own: the cues of two runs are the cues of each in turn |
| Ass.UnescapeEscape | eagle-subtitle-plugin-v1.0.0-fixed/main.js:551 | Text without a `\N` mark, escaped and then unescaped, is unchanged |
| Ass.UnescapeBreaks | eagle-subtitle-plugin-v1.0.0-fixed/main.js:551 | Replacing `\N` by line breaks never lengthens the text and leaves text without `\N` unchanged |
| Ass.UnescapeNoMark | eagle-subtitle-plugin-v1.0.0-fixed/main.js:551 | The replacement leaves no `\N` behind |
| Ass.DialogueRoundTrip | eagle-subtitle-plugin-v1.0.0-fixed/main.js:543-555 | The dialogue line written for a writable cue parses back to that cue |
| Ass.AssFileRoundTrip | eagle-subtitle-plugin-v1.0.0-fixed/main.js:519-555 | A header without `[Events]`, the `[Events]` line and the dialogue lines of writable cues parse back to exactly those cues |
| Vtt.ArrowLineTrim | eagle-subtitle-plugin-v1.0.0-fixed/main.js:577-584 | A line contains `-->` before trimming iff it does after, so both loops agree on which lines are `-->` lines |
| Vtt.SkipHeaderStops | eagle-subtitle-plugin-v1.0.0-fixed/main.js:577-579 | The header loop stops at a line containing `-->` or at the end of input |
| Vtt.SkipHeaderScan | eagle-subtitle-plugin-v1.0.0-fixed/main.js:577-584 | The header loop changes no result: the main loop would have passed over the same lines |
| Vtt.PendingNeverFails | eagle-subtitle-plugin-v1.0.0-fixed/main.js:581-616 | Once a cue is in hand the scan cannot fail |
| Vtt.FailsAtFirstArrow | eagle-subtitle-plugin-v1.0.0-fixed/main.js:577-606 | After the header the scan fails iff the first `-->` line holds no pair of stamps, and then with `NoPendingCue` |
| Vtt.FirstCue | eagle-subtitle-plugin-v1.0.0-fixed/main.js:584-606 | With no cue in hand a `-->` line fails iff it carries no stamps |
| Vtt.VttCount | eagle-subtitle-plugin-v1.0.0-fixed/main.js:581-616 | Every `-->` line the main loop reaches adds exactly one cue, on top of the pushes of the cue in hand |
| Vtt.VttCuesShaped | eagle-subtitle-plugin-v1.0.0-fixed/main.js:589-606 | Every cue has no index, bounded times and trimmed text |
| Vtt.ParseVtt | eagle-subtitle-plugin-v1.0.0-fixed/main.js:570-617 | `parseVTT` fails iff the first `-->` line holds no pair of stamps, and then with `NoPendingCue`; a successful parse has one cue per `-->` line reached, each without index, with bounded times and trimmed text |
| Vtt.Extended | eagle-subtitle-plugin-v1.0.0-fixed/main.js:584-606 | A stampless `-->` line keeps the cue in hand's index and times, counts one more push, and leaves its text trimmed |
| Vtt.TimedIsArrow | eagle-subtitle-plugin-v1.0.0-fixed/main.js:584-589 | A line holding a pair of stamps contains `-->` |
| Vtt.BlockExtend | eagle-subtitle-plugin-v1.0.0-fixed/main.js:584-606 | A `-->` line without stamps adds its text lines to the cue in hand, pushed once more |
| Vtt.VttBlocksParse | eagle-subtitle-plugin-v1.0.0-fixed/main.js:570-617 | A file of well-formed blocks with timed `-->` lines parses to exactly one cue per block, in file order |
| Vtt.StamplessRepeat | eagle-subtitle-plugin-v1.0.0-fixed/main.js:584-606 | A timed block followed by a stampless one yields the first cue twice, both copies with the second block's text appended |
| Vtt.TextRoundTrip | eagle-subtitle-plugin-v1.0.0-fixed/main.js:601-606 | Trimmed text without blank lines, split into lines and read back, is unchanged |
| Vtt.VttFileRoundTrip | eagle-subtitle-plugin-v1.0.0-fixed/main.js:570-617 | Writable cues written as a WebVTT file parse back to exactly those cues |
| Lookup.FirstCovering | eagle-subtitle-plugin-v1.0.0-fixed/main.js:377 | Reference search: the first cue in list order whose range contains the time, or nothing exactly when no cue covers it |
| Lookup.OnlyCovering | eagle-subtitle-plugin-v1.0.0-fixed/main.js:364-387 | In a list of separated cues a covering cue is the only one, hence the first |
| Lookup.FindCueAt | eagle-subtitle-plugin-v1.0.0-fixed/main.js:364-387 | Empty list gives nothing; a returned cue is in the list and covers the time; on ordered cues nothing is returned exactly when no cue covers the time; on separated cues the answer is the reference's |

## Left out

- The plugin's lifecycle, host events, playback hooks, subtitle file discovery and reading, the subtitle window and its messaging (main.js:1-363, 389-432, 631-638): I/O and host integration, outside the engine.
- The time offset added to the playback time before lookup (main.js:66): a host setting; the lookup takes the already adjusted time, which may be negative.
- Fractional seconds: the source computes times as floating-point seconds; the model uses exact integer milliseconds, which the source's values denote up to rounding.
- The SRT index-line test `!isNaN(line)` is modelled as "non-empty and all ASCII digits"; JavaScript also accepts forms such as `1.5`, `1e3` or `0x1F`, and `parseInt` of those is not modelled.
- `parseInt` on digit runs is modelled as unbounded decimal value; JavaScript number precision limits are not modelled.
- `toLowerCase` is modelled as ASCII lowering; the Unicode case mappings of non-ASCII characters are not modelled.
- Strings are sequences of characters, not UTF-16 code units; `trim()` uses the ECMAScript whitespace set over those characters.
- Non-string arguments to `parse` (numbers, objects) are not modelled; content and format are optional strings.
- The build script and the test script of the repository: not part of the engine.
- Srt.ParseSrt: bounds the cue count by the number of index lines rather than stating it exactly, because text lines that look like numbers are swallowed as text; `Srt.SrtBlocksParse` gives the exact count for well-formed files.
- Ass.ParseAss: bounds the cue count by the number of `Dialogue:` lines rather than stating it exactly, because lines before `[Events]` and lines with too few fields give no cue.
- Srt.ScanSrt: bounds the cue count by the number of index lines from the starting line rather than stating it exactly, because text lines that look like numbers are swallowed as text; `Srt.SrtBlocksParse` gives the exact count for well-formed files.
- Ass.AssScan: bounds the cue count by the number of `Dialogue:` lines rather than stating it exactly, because lines outside the events section and lines with too few fields give no cue.
- Lookup.FindCueAt: completeness is stated only for cues in play order, because the source never sorts the list and the binary search can miss a covering cue in an unordered one.
