/** The parser's output record and the text-accumulation step that the SRT
    and WebVTT scanners share. */
module Cues {
  import opened Results
  import opened Strings

  /** One subtitle: `{index?, startTime, endTime, text}`, times in
      milliseconds. Only SRT cues carry an index. */
  datatype Cue = Cue(index: Option<nat>, startMs: nat, endMs: nat, text: string)

  /** What `parse` throws: its own two errors, and the TypeErrors the SRT
      and WebVTT scanners run into on two kinds of malformed input. */
  datatype ParseError =
    | MissingInput                      // no content or no format name
    | UnsupportedFormat(format: string) // a format name outside srt/ass/ssa/vtt
    | MissingTimingLine                 // an SRT index line is the last line
    | NoPendingCue                      // a malformed WebVTT timing line before any cue

  /** A line that ends a cue's text: empty once trimmed. */
  predicate IsBlankLine(line: string)
  {
    Trim(line) == ""
  }

  /** None of the lines is blank. */
  predicate NoBlankLines(lines: seq<string>)
  {
    forall k :: 0 <= k < |lines| ==> !IsBlankLine(lines[k])
  }

  /** The first blank line at or after `i`, or the end of input: the lines
      in between are a cue's text. */
  function TextEnd(lines: seq<string>, i: nat): (j: nat)
    ensures i <= j && (i <= |lines| ==> j <= |lines|)
    decreases |lines| - i
  {
    if i < |lines| && !IsBlankLine(lines[i]) then TextEnd(lines, i + 1) else i
  }

  /** The lines `TextEnd` passes over are not blank, and it stops at a
      blank line or at the end of input. */
  lemma {:induction false} TextEndShape(lines: seq<string>, i: nat)
    ensures forall k :: i <= k < TextEnd(lines, i) ==> k < |lines| && !IsBlankLine(lines[k])
    ensures TextEnd(lines, i) < |lines| ==> IsBlankLine(lines[TextEnd(lines, i)])
    decreases |lines| - i
  {
    if i < |lines| && !IsBlankLine(lines[i]) {
      TextEndShape(lines, i + 1);
      forall k | i <= k < TextEnd(lines, i)
        ensures k < |lines| && !IsBlankLine(lines[k])
      {
        if k > i {
          assert i + 1 <= k < TextEnd(lines, i + 1);
        }
      }
    } else {
      assert TextEnd(lines, i) == i;
    }
  }

  /** A run of non-blank lines followed by a blank line or the end of input
      is exactly the text `TextEnd` finds. */
  lemma {:induction false} TextEndAt(lines: seq<string>, i: nat, n: nat)
    requires i + n <= |lines|
    requires forall k :: i <= k < i + n ==> !IsBlankLine(lines[k])
    requires i + n == |lines| || IsBlankLine(lines[i + n])
    ensures TextEnd(lines, i) == i + n
    decreases n
  {
    if n > 0 {
      TextEndAt(lines, i + 1, n - 1);
    }
  }

  /** What `text += line + '\n'` builds over a run of lines. */
  function Accumulate(run: seq<string>): string
  {
    if |run| == 0 then "" else run[0] + "\n" + Accumulate(run[1..])
  }

  lemma {:induction false} AccumulateSnoc(run: seq<string>, line: string)
    ensures Accumulate(run + [line]) == Accumulate(run) + line + "\n"
    decreases |run|
  {
    if |run| == 0 {
      assert run + [line] == [line];
    } else {
      assert (run + [line])[1..] == run[1..] + [line];
      AccumulateSnoc(run[1..], line);
    }
  }

  /** Over a non-empty run, the accumulated text is the lines joined by
      newlines, with one more newline at the end. */
  lemma {:induction false} AccumulateJoin(run: seq<string>)
    requires |run| >= 1
    ensures Accumulate(run) == Join(run, '\n') + "\n"
    decreases |run|
  {
    if |run| > 1 {
      AccumulateJoin(run[1..]);
    }
  }

  /** The text of a cue whose text lines are `lines[i..j]`, trimmed at both ends. */
  function CueText(lines: seq<string>, i: nat, j: nat): string
    requires i <= j <= |lines|
  {
    Trim(Accumulate(lines[i..j]))
  }
}
