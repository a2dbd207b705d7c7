/** `SubtitleParser.parse`, eagle-subtitle-plugin-v1.0.0-fixed/main.js:435-450:
    the entry point that checks its two arguments, lower-cases the format
    name and hands the content to the format's parser. The content and
    the format name are `None` when the caller passes `null` or
    `undefined`; like the source's `!content || !format`, the empty string
    counts as missing too. Each parser splits the content on '\n'. */
module Parser {
  import opened Results
  import opened Strings
  import opened Cues
  import Srt
  import Ass
  import Vtt

  /** The parsers `parse` dispatches to. */
  datatype Format = SrtFormat | AssFormat | VttFormat

  /** The `switch` on `format.toLowerCase()`: `ass` and `ssa` share a parser. */
  function FormatOf(name: string): (r: Option<Format>)
    ensures r == Some(SrtFormat) <==> LowerAscii(name) == "srt"
    ensures r == Some(AssFormat) <==> LowerAscii(name) == "ass" || LowerAscii(name) == "ssa"
    ensures r == Some(VttFormat) <==> LowerAscii(name) == "vtt"
  {
    var lower := LowerAscii(name);
    if lower == "srt" then Some(SrtFormat)
    else if lower == "ass" || lower == "ssa" then Some(AssFormat)
    else if lower == "vtt" then Some(VttFormat)
    else None
  }

  /** `content` or `format` is `null`, `undefined` or empty. */
  predicate Missing(s: Option<string>)
  {
    s.None? || s.value == ""
  }

  /** Runs the parser of a known format on the lines of `content`. SRT
      and WebVTT parsing report only their own failures, and ASS parsing
      never fails. */
  function Dispatch(content: string, format: Format): (r: Result<seq<Cue>, ParseError>)
    ensures r.Err? ==> (format == SrtFormat && r.error == MissingTimingLine)
                       || (format == VttFormat && r.error == NoPendingCue)
  {
    var lines := Split(content, '\n');
    match format
    case SrtFormat => Srt.ParseSrt(lines)
    case AssFormat => Ok(Ass.ParseAss(lines))
    case VttFormat => Vtt.ParseVtt(lines)
  }

  /** `parse(content, format)`: a missing argument is an error, an unknown
      format name is an error that carries the name as given, and
      otherwise the format's parser decides. */
  function Parse(content: Option<string>, format: Option<string>): (r: Result<seq<Cue>, ParseError>)
    ensures Missing(content) || Missing(format) <==> r == Err(MissingInput)
    ensures r.Err? && r.error.UnsupportedFormat? <==>
            !Missing(content) && !Missing(format) && FormatOf(format.value).None?
    ensures r.Err? && r.error.UnsupportedFormat? ==> r.error.format == format.value
    ensures r.Ok? ==> !Missing(content) && !Missing(format) && FormatOf(format.value).Some?
  {
    if Missing(content) || Missing(format) then Err(MissingInput)
    else match FormatOf(format.value)
      case None => Err(UnsupportedFormat(format.value))
      case Some(f) => Dispatch(content.value, f)
  }

  /** Once both arguments are present the result depends on the format
      name only through its lower-case form, except for the name an
      unsupported-format error quotes. */
  lemma CaseInsensitive(content: string, f: string, g: string)
    requires content != "" && f != "" && g != "" && LowerAscii(f) == LowerAscii(g)
    ensures FormatOf(f) == FormatOf(g)
    ensures FormatOf(f).Some? ==> Parse(Some(content), Some(f)) == Parse(Some(content), Some(g))
    ensures Parse(Some(content), Some(f)).Ok? <==> Parse(Some(content), Some(g)).Ok?
  {
  }

  /** `ass` and `ssa`, in any letter case, name the same parser. */
  lemma AssIsSsa(content: string, f: string, g: string)
    requires content != ""
    requires LowerAscii(f) == "ass" && LowerAscii(g) == "ssa"
    ensures Parse(Some(content), Some(f)) == Parse(Some(content), Some(g))
    ensures Parse(Some(content), Some(f)) == Ok(Ass.ParseAss(Split(content, '\n')))
  {
    assert f != "" && g != "" by {
      assert |LowerAscii(f)| == |f| && |LowerAscii(g)| == |g|;
    }
  }

  /** `srt`, in any letter case, hands the lines of the content to the SRT
      parser, and its result, success or failure, is the result of `parse`. */
  lemma SrtRoutes(content: string, f: string)
    requires content != "" && LowerAscii(f) == "srt"
    ensures Parse(Some(content), Some(f)) == Srt.ParseSrt(Split(content, '\n'))
  {
    assert f != "" by {
      assert |LowerAscii(f)| == |f|;
    }
  }

  /** `vtt`, in any letter case, hands the lines of the content to the
      WebVTT parser, and its result, success or failure, is the result of
      `parse`. */
  lemma VttRoutes(content: string, f: string)
    requires content != "" && LowerAscii(f) == "vtt"
    ensures Parse(Some(content), Some(f)) == Vtt.ParseVtt(Split(content, '\n'))
  {
    assert f != "" by {
      assert |LowerAscii(f)| == |f|;
    }
  }

  /** The failures `parse` can report: a missing argument, an unknown
      format name, an SRT index line with nothing after it, or a WebVTT
      `-->` line without stamps before any cue. */
  lemma ParseErrors(content: Option<string>, format: Option<string>)
    ensures Parse(content, format).Err? <==>
              || Missing(content) || Missing(format)
              || FormatOf(format.value).None?
              || Dispatch(content.value, FormatOf(format.value).value).Err?
    ensures Parse(content, format).Err? ==>
              || Parse(content, format).error == MissingInput
              || Parse(content, format).error == UnsupportedFormat(format.value)
              || (FormatOf(format.value) == Some(SrtFormat) && Parse(content, format).error == MissingTimingLine)
              || (FormatOf(format.value) == Some(VttFormat) && Parse(content, format).error == NoPendingCue)
  {
  }

  /** The lines of a WebVTT file hold no line break. */
  lemma {:induction false} WrittenLinesUnbroken(cues: seq<Cue>)
    requires forall k :: 0 <= k < |cues| ==> Vtt.Writable(cues[k])
    ensures forall i :: 0 <= i < |Vtt.Render(Vtt.CueBlocks(cues))| ==> '\n' !in Vtt.Render(Vtt.CueBlocks(cues))[i]
    decreases |cues|
  {
    if |cues| > 0 {
      WrittenLinesUnbroken(cues[1..]);
      Vtt.CueBlocksCons(cues);
      Vtt.BlockUnbroken(cues[0]);
      var head := Vtt.BlockLines(Vtt.CueBlock(cues[0]));
      var rest := Vtt.Render(Vtt.CueBlocks(cues[1..]));
      assert Vtt.Render(Vtt.CueBlocks(cues)) == head + rest;
      UnbrokenAppend(head, rest);
    }
  }

  lemma UnbrokenAppend(a: seq<string>, b: seq<string>)
    requires forall i :: 0 <= i < |a| ==> '\n' !in a[i]
    requires forall i :: 0 <= i < |b| ==> '\n' !in b[i]
    ensures forall i :: 0 <= i < |a + b| ==> '\n' !in (a + b)[i]
  {
    forall i | |a| <= i < |a + b|
      ensures '\n' !in (a + b)[i]
    {
      assert (a + b)[i] == b[i - |a|];
    }
  }

  /** WebVTT text written from writable cues, with lines joined by '\n',
      parses back to the cues under the format name `vtt`. */
  lemma VttContentRoundTrip(cues: seq<Cue>)
    requires forall k :: 0 <= k < |cues| ==> Vtt.Writable(cues[k])
    ensures Parse(Some(Join(Vtt.WriteVtt(cues), '\n')), Some("vtt")) == Ok(cues)
  {
    var lines := Vtt.WriteVtt(cues);
    WrittenLinesUnbroken(cues);
    forall i | 0 <= i < |lines|
      ensures '\n' !in lines[i]
    {
      if i > 0 {
        assert lines[i] == Vtt.Render(Vtt.CueBlocks(cues))[i - 1];
      }
    }
    SplitJoin(lines, '\n');
    JoinLength(lines, '\n');
    assert LowerAscii("vtt") == "vtt";
    VttRoutes(Join(lines, '\n'), "vtt");
    Vtt.VttFileRoundTrip(cues);
  }

  /** A join is at least as long as its first piece. */
  lemma JoinLength(parts: seq<string>, sep: char)
    requires |parts| > 0
    ensures |Join(parts, sep)| >= |parts[0]|
  {
  }
}
