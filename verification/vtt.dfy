/** `SubtitleParser.parseVTT`, eagle-subtitle-plugin-v1.0.0-fixed/main.js:570-617,
    over the lines of the file (the text split on '\n').

    The header loop passes over the lines before the first line containing
    `-->`. The main loop then looks at every line it reaches, trimmed: a
    line without `-->` is passed over; a line with `-->` first pushes the
    cue in hand, if any, and opens a new cue from the leftmost
    `HH:MM:SS.mmm --> HH:MM:SS.mmm` in it. The non-blank lines that follow
    are the cue's text, each followed by a newline, and the text is
    trimmed once they are read. When a `-->` line holds no such pair of
    stamps the cue in hand stays in hand: the source pushed it already, so
    it is pushed once more later, and the text lines that follow are added
    to it. Since the source pushes the same object each time, every copy
    ends up with the final text; `Pending` keeps the cue in hand with the
    number of times it has been pushed. Before any cue is in hand such a
    line makes the source dereference `null`, modelled as `NoPendingCue`. */
module Vtt {
  import opened Results
  import opened Strings
  import opened TimeCodes
  import opened Cues

  const Arrow: string := "-->"

  /** A line that holds the arrow `-->` anywhere in it, whatever else it
      holds. */
  predicate IsArrowLine(line: string)
  {
    Includes(line, Arrow)
  }

  /** The header loop: the first line at or after `i` containing `-->`,
      untrimmed, or the end of input. */
  function SkipHeader(lines: seq<string>, i: nat): (j: nat)
    requires i <= |lines|
    ensures i <= j <= |lines|
    decreases |lines| - i
  {
    if i < |lines| && !IsArrowLine(lines[i]) then SkipHeader(lines, i + 1) else i
  }

  /** The cue in hand and how often the source has pushed it already. */
  datatype Pending = Pending(cue: Cue, pushes: nat)

  function Repeat(c: Cue, n: nat): (r: seq<Cue>)
    ensures |r| == n && forall k :: 0 <= k < n ==> r[k] == c
  {
    seq(n, _ => c)
  }

  /** What pushing the cue in hand once more adds to the result: every
      push of that one object, all showing its final state. */
  function Flushed(pending: Option<Pending>): seq<Cue>
  {
    if pending.None? then [] else Repeat(pending.value.cue, pending.value.pushes + 1)
  }

  /** The cue in hand after a `-->` line without stamps: pushed once more,
      and the text lines `run` added to its text, which is trimmed again. */
  function Extended(p: Pending, run: seq<string>): (r: Pending)
    ensures r.pushes == p.pushes + 1
    ensures r.cue.index == p.cue.index && r.cue.startMs == p.cue.startMs && r.cue.endMs == p.cue.endMs
    ensures Trim(r.cue.text) == r.cue.text
  {
    TrimIdempotent(p.cue.text + Accumulate(run));
    Pending(p.cue.(text := Trim(p.cue.text + Accumulate(run))), p.pushes + 1)
  }

  /** The text lines after the `-->` line at `i`: the non-blank lines that follow it. */
  function TextRun(lines: seq<string>, i: nat): seq<string>
    requires i < |lines|
  {
    lines[i + 1..TextEnd(lines, i + 1)]
  }

  /** Where the main loop resumes after the `-->` line at `i`: past the
      blank line that ends its text. */
  function Resume(lines: seq<string>, i: nat): nat
  {
    TextEnd(lines, i + 1) + 1
  }

  /** A line that holds a pair of stamps once trimmed. */
  predicate IsTimed(line: string)
  {
    VttTimingLine(Trim(line)).Some?
  }

  /** The cue a timed `-->` line at `i` opens, with its text read. */
  function OpenedCue(lines: seq<string>, i: nat): Cue
    requires i < |lines| && IsTimed(lines[i])
  {
    var t := VttTimingLine(Trim(lines[i])).value;
    Cue(None, t.0, t.1, Trim(Accumulate(TextRun(lines, i))))
  }

  /** The cues the main loop produces from line `i` with `pending` in hand. */
  function VttScan(lines: seq<string>, i: nat, pending: Option<Pending>): Result<seq<Cue>, ParseError>
    decreases |lines| - i
  {
    if i >= |lines| then Ok(Flushed(pending))
    else if !IsArrowLine(Trim(lines[i])) then VttScan(lines, i + 1, pending)
    else if IsTimed(lines[i]) then
      Prepend(Flushed(pending), VttScan(lines, Resume(lines, i), Some(Pending(OpenedCue(lines, i), 0))))
    else if pending.None? then Err(NoPendingCue)
    else VttScan(lines, Resume(lines, i), Some(Extended(pending.value, TextRun(lines, i))))
  }

  lemma ScanSkip(lines: seq<string>, i: nat, pending: Option<Pending>)
    requires i < |lines| && !IsArrowLine(Trim(lines[i]))
    ensures VttScan(lines, i, pending) == VttScan(lines, i + 1, pending)
  {
  }

  lemma ScanOpen(lines: seq<string>, i: nat, pending: Option<Pending>)
    requires i < |lines| && IsArrowLine(Trim(lines[i])) && IsTimed(lines[i])
    ensures VttScan(lines, i, pending) ==
      Prepend(Flushed(pending), VttScan(lines, Resume(lines, i), Some(Pending(OpenedCue(lines, i), 0))))
  {
  }

  lemma ScanExtend(lines: seq<string>, i: nat, p: Pending)
    requires i < |lines| && IsArrowLine(Trim(lines[i])) && !IsTimed(lines[i])
    ensures VttScan(lines, i, Some(p)) == VttScan(lines, Resume(lines, i), Some(Extended(p, TextRun(lines, i))))
  {
  }

  /** `parseVTT` on the lines of a file. It fails exactly when the first
      line containing `-->` holds no `HH:MM:SS.mmm --> HH:MM:SS.mmm`, and
      then with `NoPendingCue`; otherwise it yields one cue per `-->` line
      its main loop reaches, each without an index, with times a
      two-digit-hour clock can denote and with trimmed text. */
  function ParseVtt(lines: seq<string>): (r: Result<seq<Cue>, ParseError>)
    ensures r.Err? <==>
      SkipHeader(lines, 0) < |lines| && VttTimingLine(Trim(lines[SkipHeader(lines, 0)])).None?
    ensures r.Err? ==> r.error == NoPendingCue
    ensures r.Ok? ==> |r.value| == ArrowLines(lines, 0)
    ensures r.Ok? ==> AllShaped(r.value)
  {
    FailsAtFirstArrow(lines);
    SkipHeaderScan(lines, 0);
    VttCount(lines, 0, None);
    VttCuesShaped(lines, 0, None);
    VttScan(lines, SkipHeader(lines, 0), None)
  }

  // ---------------------------------------------------------------------
  // the header loop

  lemma ArrowHasNoWhitespace()
    ensures |Arrow| > 0 && forall k :: 0 <= k < |Arrow| ==> !IsWhitespace(Arrow[k])
  {
  }

  /** Trimming a line does not change whether it contains `-->`. */
  lemma ArrowLineTrim(line: string)
    ensures IsArrowLine(Trim(line)) <==> IsArrowLine(line)
  {
    ArrowHasNoWhitespace();
    IncludesTrim(line, Arrow);
  }

  /** The header loop stops at a line containing `-->` or at the end of
      input. */
  lemma {:induction false} SkipHeaderStops(lines: seq<string>, i: nat)
    requires i <= |lines|
    ensures SkipHeader(lines, i) < |lines| ==> IsArrowLine(lines[SkipHeader(lines, i)])
    decreases |lines| - i
  {
    if i < |lines| && !IsArrowLine(lines[i]) {
      SkipHeaderStops(lines, i + 1);
    }
  }

  /** The header loop changes nothing: the main loop would pass over the
      same lines. */
  lemma {:induction false} SkipHeaderScan(lines: seq<string>, i: nat)
    requires i <= |lines|
    ensures VttScan(lines, i, None) == VttScan(lines, SkipHeader(lines, i), None)
    decreases |lines| - i
  {
    if i < |lines| && !IsArrowLine(lines[i]) {
      ArrowLineTrim(lines[i]);
      SkipHeaderScan(lines, i + 1);
    }
  }

  lemma ParseVttFromStart(lines: seq<string>)
    ensures ParseVtt(lines) == VttScan(lines, 0, None)
  {
    SkipHeaderScan(lines, 0);
  }

  // ---------------------------------------------------------------------
  // failure, count and shape

  /** With a cue in hand the scan never fails. */
  lemma {:induction false} PendingNeverFails(lines: seq<string>, i: nat, p: Pending)
    ensures VttScan(lines, i, Some(p)).Ok?
    decreases |lines| - i
  {
    if i < |lines| {
      if !IsArrowLine(Trim(lines[i])) {
        ScanSkip(lines, i, Some(p));
        PendingNeverFails(lines, i + 1, p);
      } else if IsTimed(lines[i]) {
        ScanOpen(lines, i, Some(p));
        PendingNeverFails(lines, Resume(lines, i), Pending(OpenedCue(lines, i), 0));
      } else {
        ScanExtend(lines, i, p);
        PendingNeverFails(lines, Resume(lines, i), Extended(p, TextRun(lines, i)));
      }
    }
  }

  /** From the end of the header the scan fails exactly when the first
      line containing `-->` holds no pair of stamps. */
  lemma FailsAtFirstArrow(lines: seq<string>)
    ensures VttScan(lines, SkipHeader(lines, 0), None).Err? <==>
      SkipHeader(lines, 0) < |lines| && VttTimingLine(Trim(lines[SkipHeader(lines, 0)])).None?
    ensures VttScan(lines, SkipHeader(lines, 0), None).Err? ==>
      VttScan(lines, SkipHeader(lines, 0), None).error == NoPendingCue
  {
    var j := SkipHeader(lines, 0);
    SkipHeaderStops(lines, 0);
    if j < |lines| {
      ArrowLineTrim(lines[j]);
      FirstCue(lines, j);
    }
  }

  /** At the first `-->` line, with no cue in hand, the scan fails exactly
      when the line holds no pair of stamps. */
  lemma FirstCue(lines: seq<string>, j: nat)
    requires j < |lines| && IsArrowLine(Trim(lines[j]))
    ensures VttScan(lines, j, None).Err? <==> !IsTimed(lines[j])
    ensures VttScan(lines, j, None).Err? ==> VttScan(lines, j, None).error == NoPendingCue
  {
    if IsTimed(lines[j]) {
      var p := Pending(OpenedCue(lines, j), 0);
      ScanOpen(lines, j, None);
      PendingNeverFails(lines, Resume(lines, j), p);
    }
  }

  /** Number of lines with `-->` the main loop reaches from line `i`: the
      ones that are not swallowed as cue text. */
  function ArrowLines(lines: seq<string>, i: nat): nat
    decreases |lines| - i
  {
    if i >= |lines| then 0
    else if !IsArrowLine(Trim(lines[i])) then ArrowLines(lines, i + 1)
    else 1 + ArrowLines(lines, Resume(lines, i))
  }

  /** Every `-->` line the scan reaches contributes exactly one cue to the
      result, on top of the pushes of the cue in hand. */
  lemma {:induction false} VttCount(lines: seq<string>, i: nat, pending: Option<Pending>)
    ensures VttScan(lines, i, pending).Ok? ==>
      |VttScan(lines, i, pending).value| == |Flushed(pending)| + ArrowLines(lines, i)
    decreases |lines| - i
  {
    if i < |lines| {
      if !IsArrowLine(Trim(lines[i])) {
        ScanSkip(lines, i, pending);
        VttCount(lines, i + 1, pending);
      } else if IsTimed(lines[i]) {
        ScanOpen(lines, i, pending);
        VttCount(lines, Resume(lines, i), Some(Pending(OpenedCue(lines, i), 0)));
      } else if pending.Some? {
        ScanExtend(lines, i, pending.value);
        VttCount(lines, Resume(lines, i), Some(Extended(pending.value, TextRun(lines, i))));
      }
    }
  }

  /** What every WebVTT cue looks like: no index, times a two-digit-hour
      clock can denote, and trimmed text. */
  predicate VttShaped(c: Cue)
  {
    c.index.None? && c.startMs <= MaxClockMs && c.endMs <= MaxClockMs && Trim(c.text) == c.text
  }

  predicate AllShaped(cues: seq<Cue>)
  {
    forall k :: 0 <= k < |cues| ==> VttShaped(cues[k])
  }

  /** Every cue of a successful scan is shaped, when the cue in hand is. */
  lemma {:induction false} VttCuesShaped(lines: seq<string>, i: nat, pending: Option<Pending>)
    requires pending.Some? ==> VttShaped(pending.value.cue)
    ensures VttScan(lines, i, pending).Ok? ==> AllShaped(VttScan(lines, i, pending).value)
    decreases |lines| - i
  {
    if i >= |lines| {
      FlushedShaped(pending);
    } else if !IsArrowLine(Trim(lines[i])) {
      ScanSkip(lines, i, pending);
      VttCuesShaped(lines, i + 1, pending);
    } else if IsTimed(lines[i]) {
      var c := OpenedCue(lines, i);
      OpenedShaped(lines, i);
      ScanOpen(lines, i, pending);
      VttCuesShaped(lines, Resume(lines, i), Some(Pending(c, 0)));
      FlushedShaped(pending);
      ShapedPrepend(Flushed(pending), VttScan(lines, Resume(lines, i), Some(Pending(c, 0))));
    } else if pending.Some? {
      ExtendedShaped(pending.value, TextRun(lines, i));
      ScanExtend(lines, i, pending.value);
      VttCuesShaped(lines, Resume(lines, i), Some(Extended(pending.value, TextRun(lines, i))));
    }
  }

  lemma FlushedShaped(pending: Option<Pending>)
    requires pending.Some? ==> VttShaped(pending.value.cue)
    ensures AllShaped(Flushed(pending))
  {
  }

  lemma OpenedShaped(lines: seq<string>, i: nat)
    requires i < |lines| && IsTimed(lines[i])
    ensures VttShaped(OpenedCue(lines, i))
  {
    TrimIdempotent(Accumulate(TextRun(lines, i)));
  }

  lemma ExtendedShaped(p: Pending, run: seq<string>)
    requires VttShaped(p.cue)
    ensures VttShaped(Extended(p, run).cue)
  {
    TrimIdempotent(p.cue.text + Accumulate(run));
  }

  lemma ShapedPrepend(a: seq<Cue>, r: Result<seq<Cue>, ParseError>)
    requires AllShaped(a) && (r.Ok? ==> AllShaped(r.value))
    ensures Prepend(a, r).Ok? ==> AllShaped(Prepend(a, r).value)
  {
    if r.Ok? {
      var s := a + r.value;
      assert forall k :: |a| <= k < |s| ==> s[k] == r.value[k - |a|];
    }
  }

  // ---------------------------------------------------------------------
  // the shape of a file the scan reads block by block

  /** One cue of a WebVTT file as lines: lines without `-->`, the timing
      line, and the text lines. */
  datatype Block = Block(gap: seq<string>, timingLine: string, textLines: seq<string>)

  function BlockLines(b: Block): seq<string>
  {
    b.gap + [b.timingLine] + b.textLines
  }

  function Render(blocks: seq<Block>): seq<string>
  {
    if |blocks| == 0 then [] else BlockLines(blocks[0]) + Render(blocks[1..])
  }

  /** The cue a block with a timed timing line stands for. */
  function BlockCue(b: Block): Cue
    requires IsTimed(b.timingLine)
  {
    var t := VttTimingLine(Trim(b.timingLine)).value;
    Cue(None, t.0, t.1, Trim(Accumulate(b.textLines)))
  }

  predicate AllTimed(blocks: seq<Block>)
  {
    |blocks| == 0 || (IsTimed(blocks[0].timingLine) && AllTimed(blocks[1..]))
  }

  function BlockCues(blocks: seq<Block>): (r: seq<Cue>)
    requires AllTimed(blocks)
    ensures |r| == |blocks|
  {
    if |blocks| == 0 then [] else [BlockCue(blocks[0])] + BlockCues(blocks[1..])
  }

  predicate NoArrowLines(lines: seq<string>)
  {
    forall k :: 0 <= k < |lines| ==> !IsArrowLine(Trim(lines[k]))
  }

  /** A block the scan reads in one step: no `-->` before the timing line,
      `-->` in it, and no blank line among the text lines. */
  predicate BlockShaped(b: Block)
  {
    NoArrowLines(b.gap) && IsArrowLine(Trim(b.timingLine)) && NoBlankLines(b.textLines)
  }

  /** Lines that start with a blank line. */
  predicate StartsBlank(lines: seq<string>)
  {
    |lines| > 0 && IsBlankLine(lines[0])
  }

  /** Blocks followed by trailing lines form a file the scan reads block by
      block: every block is shaped, the tail holds no `-->`, and a blank
      line separates each block's text from whatever follows. */
  predicate WellFormed(blocks: seq<Block>, tail: seq<string>)
  {
    if |blocks| == 0 then NoArrowLines(tail)
    else
      && BlockShaped(blocks[0])
      && (if |blocks| > 1 then StartsBlank(blocks[1].gap) else |tail| == 0 || StartsBlank(tail))
      && WellFormed(blocks[1..], tail)
  }

  /** A line with a pair of stamps contains `-->`. */
  lemma TimedIsArrow(line: string)
    requires IsTimed(line)
    ensures IsArrowLine(Trim(line))
  {
    var t := Trim(line);
    var k: nat :| Patterns.MatchesAt(VttRange, t, k);
    Patterns.MatchesConcat(VttStamp + RangeArrow, VttStamp, t, k);
    Patterns.MatchesConcat(VttStamp, RangeArrow, t, k);
    assert Patterns.Accepts(RangeArrow[1], t[k + 13]);
    assert Patterns.Accepts(RangeArrow[2], t[k + 14]);
    assert Patterns.Accepts(RangeArrow[3], t[k + 15]);
    assert t[k + 13..k + 16] == Arrow;
    assert OccursAt(t, Arrow, k + 13);
  }

  /** Where the parts of a block sit when the block starts at line `i`. */
  lemma BlockLayout(lines: seq<string>, i: nat, b: Block, rest: seq<string>)
    requires i <= |lines| && lines[i..] == BlockLines(b) + rest
    ensures |BlockLines(b)| == |b.gap| + 1 + |b.textLines|
    ensures |lines| == i + |BlockLines(b)| + |rest|
    ensures lines[i + |b.gap|] == b.timingLine
    ensures lines[i + |b.gap| + 1..i + |BlockLines(b)|] == b.textLines
    ensures |rest| > 0 ==> lines[i + |BlockLines(b)|] == rest[0]
  {
    var g, t := |b.gap|, |b.textLines|;
    assert lines[i + g] == lines[i..][g];
    forall k | 0 <= k < t
      ensures lines[i + g + 1..i + g + 1 + t][k] == b.textLines[k]
    {
      assert lines[i + g + 1 + k] == lines[i..][g + 1 + k];
    }
    if |rest| > 0 {
      assert lines[i + g + 1 + t] == lines[i..][g + 1 + t];
    }
  }

  /** Lines without `-->` are passed over. */
  lemma {:induction false} SkipNoArrow(lines: seq<string>, i: nat, n: nat, pending: Option<Pending>)
    requires i + n <= |lines|
    requires forall k :: i <= k < i + n ==> !IsArrowLine(Trim(lines[k]))
    ensures VttScan(lines, i, pending) == VttScan(lines, i + n, pending)
    decreases n
  {
    if n > 0 {
      ScanSkip(lines, i, pending);
      SkipNoArrow(lines, i + 1, n - 1, pending);
    }
  }

  /** A block's text ends where the block ends, and the scan resumes right
      after the block. */
  lemma BlockText(lines: seq<string>, i: nat, b: Block, rest: seq<string>)
    requires i <= |lines| && lines[i..] == BlockLines(b) + rest
    requires NoBlankLines(b.textLines)
    requires |rest| > 0 ==> IsBlankLine(rest[0])
    ensures i + |b.gap| < |lines|
    ensures TextRun(lines, i + |b.gap|) == b.textLines
    ensures Resume(lines, i + |b.gap|) == i + |BlockLines(b)| + 1
  {
    BlockLayout(lines, i, b, rest);
    var p := i + |b.gap|;
    var q := i + |BlockLines(b)|;
    forall k | p + 1 <= k < q
      ensures !IsBlankLine(lines[k])
    {
      assert lines[k] == lines[p + 1..q][k - (p + 1)];
    }
    TextEndAt(lines, p + 1, |b.textLines|);
  }

  /** Resuming after the line that ends a text is resuming at that line,
      when it is blank or the end of input. */
  lemma ResumeAfterText(lines: seq<string>, q: nat, pending: Option<Pending>)
    requires q <= |lines|
    requires q < |lines| ==> IsBlankLine(lines[q])
    ensures VttScan(lines, q + 1, pending) == VttScan(lines, q, pending)
  {
    if q < |lines| {
      assert !IsArrowLine(Trim(lines[q]));
      ScanSkip(lines, q, pending);
    }
  }

  /** Where a block's parts sit when it starts at line `i` and is followed
      by a blank line or the end of input: the lines before its timing line
      hold no `-->`, the timing line does, its text is the block's text,
      and the scan resumes right after the block. */
  lemma BlockFacts(lines: seq<string>, i: nat, b: Block, rest: seq<string>)
    requires i <= |lines| && lines[i..] == BlockLines(b) + rest
    requires BlockShaped(b)
    requires |rest| > 0 ==> IsBlankLine(rest[0])
    ensures i + |b.gap| < i + |BlockLines(b)| <= |lines|
    ensures forall k :: i <= k < i + |b.gap| ==> !IsArrowLine(Trim(lines[k]))
    ensures lines[i + |b.gap|] == b.timingLine && IsArrowLine(Trim(lines[i + |b.gap|]))
    ensures TextRun(lines, i + |b.gap|) == b.textLines
    ensures Resume(lines, i + |b.gap|) == i + |BlockLines(b)| + 1
    ensures i + |BlockLines(b)| < |lines| ==> IsBlankLine(lines[i + |BlockLines(b)|])
  {
    BlockLayout(lines, i, b, rest);
    BlockText(lines, i, b, rest);
    forall k | i <= k < i + |b.gap|
      ensures !IsArrowLine(Trim(lines[k]))
    {
      assert lines[k] == lines[i..][k - i] == BlockLines(b)[k - i] == b.gap[k - i];
    }
  }

  /** Lines without `-->` and then a timed `-->` line at `i + g`, followed
      by the text `b.textLines` and a blank line or the end of input: the
      cue in hand is pushed, the block's cue is put in hand, and the scan
      resumes at `n`, after that blank line. */
  lemma GapThenOpen(lines: seq<string>, i: nat, g: nat, n: nat, pending: Option<Pending>, b: Block)
    requires i + g < n <= |lines|
    requires forall k :: i <= k < i + g ==> !IsArrowLine(Trim(lines[k]))
    requires lines[i + g] == b.timingLine && IsArrowLine(Trim(lines[i + g])) && IsTimed(b.timingLine)
    requires TextRun(lines, i + g) == b.textLines && Resume(lines, i + g) == n + 1
    requires n < |lines| ==> IsBlankLine(lines[n])
    ensures VttScan(lines, i, pending) ==
      Prepend(Flushed(pending), VttScan(lines, n, Some(Pending(BlockCue(b), 0))))
  {
    SkipNoArrow(lines, i, g, pending);
    OpenAt(lines, i + g, n, pending, b);
  }

  /** The timed `-->` line at `q` holding a block's timing line and
      followed by its text opens the block's cue. */
  lemma OpenAt(lines: seq<string>, q: nat, n: nat, pending: Option<Pending>, b: Block)
    requires q < n <= |lines| && lines[q] == b.timingLine && IsTimed(b.timingLine)
    requires IsArrowLine(Trim(lines[q]))
    requires TextRun(lines, q) == b.textLines && Resume(lines, q) == n + 1
    requires n < |lines| ==> IsBlankLine(lines[n])
    ensures VttScan(lines, q, pending) ==
      Prepend(Flushed(pending), VttScan(lines, n, Some(Pending(BlockCue(b), 0))))
  {
    ScanOpen(lines, q, pending);
    OpenedBlockCue(lines, q, b);
    ResumeAfterText(lines, n, Some(Pending(BlockCue(b), 0)));
  }

  /** The cue a `-->` line opens is the cue of the block it belongs to. */
  lemma OpenedBlockCue(lines: seq<string>, q: nat, b: Block)
    requires q < |lines| && lines[q] == b.timingLine && IsTimed(b.timingLine)
    requires TextRun(lines, q) == b.textLines
    ensures OpenedCue(lines, q) == BlockCue(b)
  {
  }

  /** Lines without `-->` and then a `-->` line without stamps at `i + g`,
      followed by the text `run` and a blank line or the end of input: the
      text is added to the cue in hand, and the scan resumes at `n`. */
  lemma GapThenExtend(lines: seq<string>, i: nat, g: nat, n: nat, p: Pending, run: seq<string>)
    requires i + g < n <= |lines|
    requires forall k :: i <= k < i + g ==> !IsArrowLine(Trim(lines[k]))
    requires IsArrowLine(Trim(lines[i + g])) && !IsTimed(lines[i + g])
    requires TextRun(lines, i + g) == run && Resume(lines, i + g) == n + 1
    requires n < |lines| ==> IsBlankLine(lines[n])
    ensures VttScan(lines, i, Some(p)) == VttScan(lines, n, Some(Extended(p, run)))
  {
    SkipNoArrow(lines, i, g, Some(p));
    ScanExtend(lines, i + g, p);
    ResumeAfterText(lines, n, Some(Extended(p, run)));
  }

  /** The first block of a well-formed rendered run is shaped and timed,
      and what follows it starts with a blank line unless it is empty. */
  lemma RenderedHead(lines: seq<string>, i: nat, blocks: seq<Block>, tail: seq<string>)
    requires i <= |lines| && lines[i..] == Render(blocks) + tail
    requires WellFormed(blocks, tail) && |blocks| > 0
    ensures lines[i..] == BlockLines(blocks[0]) + (Render(blocks[1..]) + tail)
    ensures BlockShaped(blocks[0])
    ensures |Render(blocks[1..]) + tail| > 0 ==> IsBlankLine((Render(blocks[1..]) + tail)[0])
  {
    RenderedSplit(lines, i, blocks, tail);
    RestStartsBlank(blocks, tail);
  }

  /** A rendered run of blocks is its first block followed by the rest of
      the run. */
  lemma RenderedSplit(lines: seq<string>, i: nat, blocks: seq<Block>, tail: seq<string>)
    requires i <= |lines| && lines[i..] == Render(blocks) + tail && |blocks| > 0
    ensures lines[i..] == BlockLines(blocks[0]) + (Render(blocks[1..]) + tail)
    ensures i + |BlockLines(blocks[0])| <= |lines|
    ensures lines[i + |BlockLines(blocks[0])|..] == Render(blocks[1..]) + tail
  {
    RenderCons(blocks);
    Assoc(BlockLines(blocks[0]), Render(blocks[1..]), tail);
    DropPrefix(lines, i, BlockLines(blocks[0]), Render(blocks[1..]) + tail);
  }

  lemma RenderCons(blocks: seq<Block>)
    requires |blocks| > 0
    ensures Render(blocks) == BlockLines(blocks[0]) + Render(blocks[1..])
  {
  }

  /** In a well-formed run, what follows the first block starts with a
      blank line unless it is empty. */
  lemma RestStartsBlank(blocks: seq<Block>, tail: seq<string>)
    requires WellFormed(blocks, tail) && |blocks| > 0
    ensures |Render(blocks[1..]) + tail| > 0 ==> IsBlankLine((Render(blocks[1..]) + tail)[0])
  {
    var rest := Render(blocks[1..]) + tail;
    if |rest| > 0 {
      if |blocks| > 1 {
        assert Render(blocks[1..]) == BlockLines(blocks[1]) + Render(blocks[2..]);
        assert rest[0] == blocks[1].gap[0];
      } else {
        assert rest == tail;
      }
    }
  }

  /** Lines after the last block hold no `-->` and add nothing: the cue in
      hand is pushed one last time. */
  lemma ScanTail(lines: seq<string>, i: nat, tail: seq<string>, pending: Option<Pending>)
    requires i <= |lines| && lines[i..] == tail && NoArrowLines(tail)
    ensures VttScan(lines, i, pending) == Ok(Flushed(pending))
  {
    forall k | i <= k < |lines|
      ensures !IsArrowLine(Trim(lines[k]))
    {
      assert lines[k] == tail[k - i];
    }
    SkipNoArrow(lines, i, |lines| - i, pending);
  }

  /** The scan from the start of a rendered run of timed blocks pushes the
      cue in hand and then yields one cue per block, in order. */
  lemma {:induction false} ScanRendered(lines: seq<string>, i: nat, blocks: seq<Block>, tail: seq<string>,
                                        pending: Option<Pending>)
    requires i <= |lines| && lines[i..] == Render(blocks) + tail
    requires WellFormed(blocks, tail) && AllTimed(blocks)
    ensures VttScan(lines, i, pending) == Ok(Flushed(pending) + BlockCues(blocks))
    decreases |blocks|, 1
  {
    if |blocks| == 0 {
      ScanTail(lines, i, tail, pending);
      assert Flushed(pending) + BlockCues(blocks) == Flushed(pending);
    } else {
      RenderedHead(lines, i, blocks, tail);
      ScanCons(lines, i, blocks[0], blocks[1..], tail, pending);
      CuesCons(VttScan(lines, i, pending), pending, blocks);
    }
  }

  /** The scan from a timed block followed by a well-formed rendered run:
      the block's cue is put in hand and the run is read after it. */
  lemma {:induction false} ScanCons(lines: seq<string>, i: nat, b: Block, rest: seq<Block>, tail: seq<string>,
                                    pending: Option<Pending>)
    requires i <= |lines| && lines[i..] == BlockLines(b) + (Render(rest) + tail)
    requires BlockShaped(b) && IsTimed(b.timingLine)
    requires |Render(rest) + tail| > 0 ==> IsBlankLine((Render(rest) + tail)[0])
    requires WellFormed(rest, tail) && AllTimed(rest)
    ensures VttScan(lines, i, pending) == Ok(Flushed(pending) + ([BlockCue(b)] + BlockCues(rest)))
    decreases |rest| + 1, 0
  {
    BlockOpen(lines, i, b, Render(rest) + tail, pending);
    AfterBlock(lines, i, b, Render(rest) + tail);
    ScanRendered(lines, i + |BlockLines(b)|, rest, tail, Some(Pending(BlockCue(b), 0)));
    OpenedRun(VttScan(lines, i, pending), pending, b, rest,
              VttScan(lines, i + |BlockLines(b)|, Some(Pending(BlockCue(b), 0))));
  }

  /** What follows a block is what was put after it. */
  lemma AfterBlock(lines: seq<string>, i: nat, b: Block, rest: seq<string>)
    requires i <= |lines| && lines[i..] == BlockLines(b) + rest
    ensures i + |BlockLines(b)| <= |lines| && lines[i + |BlockLines(b)|..] == rest
  {
    assert lines[i + |BlockLines(b)|..] == lines[i..][|BlockLines(b)|..];
  }

  /** A timed block at line `i`, followed by a blank line or the end of
      input, pushes the cue in hand and puts its own cue in hand; the scan
      resumes right after the block. */
  lemma BlockOpen(lines: seq<string>, i: nat, b: Block, rest: seq<string>, pending: Option<Pending>)
    requires i <= |lines| && lines[i..] == BlockLines(b) + rest
    requires BlockShaped(b) && IsTimed(b.timingLine)
    requires |rest| > 0 ==> IsBlankLine(rest[0])
    ensures VttScan(lines, i, pending) ==
      Prepend(Flushed(pending), VttScan(lines, i + |BlockLines(b)|, Some(Pending(BlockCue(b), 0))))
  {
    var g, n := |b.gap|, i + |BlockLines(b)|;
    BlockFacts(lines, i, b, rest);
    GapThenOpen(lines, i, g, n, pending, b);
  }

  /** A block whose `-->` line carries no stamps, followed by a blank line
      or the end of input, adds its text to the cue in hand; the scan
      resumes right after the block. */
  lemma BlockExtend(lines: seq<string>, i: nat, b: Block, rest: seq<string>, p: Pending)
    requires i <= |lines| && lines[i..] == BlockLines(b) + rest
    requires BlockShaped(b) && !IsTimed(b.timingLine)
    requires |rest| > 0 ==> IsBlankLine(rest[0])
    ensures VttScan(lines, i, Some(p)) == VttScan(lines, i + |BlockLines(b)|, Some(Extended(p, b.textLines)))
  {
    BlockFacts(lines, i, b, rest);
    GapThenExtend(lines, i, |b.gap|, i + |BlockLines(b)|, p, b.textLines);
  }

  /** Pushing the cue in hand before the cues of a run whose first cue is
      put in hand gives the cue in hand's pushes, then the run's cues. */
  lemma OpenedRun(whole: Result<seq<Cue>, ParseError>, pending: Option<Pending>,
                  b: Block, rest: seq<Block>, after: Result<seq<Cue>, ParseError>)
    requires IsTimed(b.timingLine) && AllTimed(rest)
    requires whole == Prepend(Flushed(pending), after)
    requires after == Ok(Flushed(Some(Pending(BlockCue(b), 0))) + BlockCues(rest))
    ensures whole == Ok(Flushed(pending) + ([BlockCue(b)] + BlockCues(rest)))
  {
    assert Flushed(Some(Pending(BlockCue(b), 0))) == [BlockCue(b)];
  }

  /** The cues of a run are its first block's cue and then the rest's. */
  lemma CuesCons(whole: Result<seq<Cue>, ParseError>, pending: Option<Pending>, blocks: seq<Block>)
    requires |blocks| > 0 && AllTimed(blocks)
    requires whole == Ok(Flushed(pending) + ([BlockCue(blocks[0])] + BlockCues(blocks[1..])))
    ensures whole == Ok(Flushed(pending) + BlockCues(blocks))
  {
  }

  /** A WebVTT file made of well-formed blocks with timed timing lines parses to exactly one
      cue per block, in file order. */
  lemma VttBlocksParse(blocks: seq<Block>, tail: seq<string>)
    requires WellFormed(blocks, tail) && AllTimed(blocks)
    ensures ParseVtt(Render(blocks) + tail) == Ok(BlockCues(blocks))
  {
    var lines := Render(blocks) + tail;
    ParseVttFromStart(lines);
    ScanRendered(lines, 0, blocks, tail, None);
    assert Flushed(None) + BlockCues(blocks) == BlockCues(blocks);
  }

  /** A timed block followed by a block whose `-->` line carries no stamps
      gives the first block's cue twice, and both copies carry the second
      block's text appended to the first's: the one cue object is pushed
      twice and changed after the first push. */
  lemma StamplessRepeat(b0: Block, b1: Block, tail: seq<string>)
    requires BlockShaped(b0) && IsTimed(b0.timingLine)
    requires BlockShaped(b1) && !IsTimed(b1.timingLine)
    requires StartsBlank(b1.gap) && NoArrowLines(tail) && (|tail| == 0 || StartsBlank(tail))
    ensures var c := BlockCue(b0);
            var shared := c.(text := Trim(c.text + Accumulate(b1.textLines)));
            ParseVtt(BlockLines(b0) + BlockLines(b1) + tail) == Ok([shared, shared])
  {
    var lines := BlockLines(b0) + BlockLines(b1) + tail;
    ParseVttFromStart(lines);
    Assoc(BlockLines(b0), BlockLines(b1), tail);
    assert lines[0..] == lines;
    StamplessScan(lines, 0, b0, b1, tail, None);
    ExtendedTwice(BlockCue(b0), b1.textLines);
  }

  /** A cue put in hand and then extended once is pushed twice, both
      times with the extended text. */
  lemma ExtendedTwice(c: Cue, run: seq<string>)
    ensures var shared := c.(text := Trim(c.text + Accumulate(run)));
            Flushed(None) + Flushed(Some(Extended(Pending(c, 0), run))) == [shared, shared]
  {
    var shared := c.(text := Trim(c.text + Accumulate(run)));
    assert Flushed(Some(Extended(Pending(c, 0), run))) == Repeat(shared, 2);
  }

  /** From a timed block followed by a block without stamps: the cue in
      hand is pushed, then the first block's cue, extended, twice. */
  lemma StamplessScan(lines: seq<string>, i: nat, b0: Block, b1: Block, tail: seq<string>, pending: Option<Pending>)
    requires i <= |lines| && lines[i..] == BlockLines(b0) + (BlockLines(b1) + tail)
    requires BlockShaped(b0) && IsTimed(b0.timingLine)
    requires BlockShaped(b1) && !IsTimed(b1.timingLine)
    requires StartsBlank(b1.gap) && NoArrowLines(tail) && (|tail| == 0 || StartsBlank(tail))
    ensures VttScan(lines, i, pending) ==
      Ok(Flushed(pending) + Flushed(Some(Extended(Pending(BlockCue(b0), 0), b1.textLines))))
  {
    var j := i + |BlockLines(b0)|;
    var p := Pending(BlockCue(b0), 0);
    StartsWithGap(b1, tail);
    BlockOpen(lines, i, b0, BlockLines(b1) + tail, pending);
    AfterBlock(lines, i, b0, BlockLines(b1) + tail);
    ExtendThenTail(lines, j, b1, tail, p);
    PrependOk(VttScan(lines, i, pending), Flushed(pending), VttScan(lines, j, Some(p)),
              Flushed(Some(Extended(p, b1.textLines))));
  }

  /** A block whose gap starts blank, followed by anything, starts blank. */
  lemma StartsWithGap(b: Block, tail: seq<string>)
    requires StartsBlank(b.gap)
    ensures |BlockLines(b) + tail| > 0 && IsBlankLine((BlockLines(b) + tail)[0])
  {
    assert (BlockLines(b) + tail)[0] == b.gap[0];
  }

  /** A block without stamps and then trailing lines: the cue in hand is
      extended and pushed at the end. */
  lemma ExtendThenTail(lines: seq<string>, j: nat, b1: Block, tail: seq<string>, p: Pending)
    requires j <= |lines| && lines[j..] == BlockLines(b1) + tail
    requires BlockShaped(b1) && !IsTimed(b1.timingLine)
    requires NoArrowLines(tail) && (|tail| == 0 || StartsBlank(tail))
    ensures VttScan(lines, j, Some(p)) == Ok(Flushed(Some(Extended(p, b1.textLines))))
  {
    BlockExtend(lines, j, b1, tail, p);
    AfterBlock(lines, j, b1, tail);
    ScanTail(lines, j + |BlockLines(b1)|, tail, Some(Extended(p, b1.textLines)));
  }

  // ---------------------------------------------------------------------
  // writing a file the scan reads back

  /** A cue a WebVTT file can carry unchanged through the scan: no number,
      stamps below 100 hours, text already trimmed and without blank
      lines (so not empty either). */
  predicate Writable(c: Cue)
  {
    && c.index.None?
    && c.startMs < 100 * MsPerHour && c.endMs < 100 * MsPerHour
    && Trim(c.text) == c.text
    && NoBlankLines(Split(c.text, '\n'))
  }

  function TimingText(c: Cue): string
  {
    FormatVttTime(c.startMs) + " --> " + FormatVttTime(c.endMs)
  }

  /** A cue written as a block: a blank line, the timing line, the text lines. */
  function CueBlock(c: Cue): Block
  {
    Block([""], TimingText(c), Split(c.text, '\n'))
  }

  function CueBlocks(cues: seq<Cue>): (r: seq<Block>)
    ensures |r| == |cues|
  {
    if |cues| == 0 then [] else [CueBlock(cues[0])] + CueBlocks(cues[1..])
  }

  /** A WebVTT file holding `cues`: the `WEBVTT` line, then one block per cue. */
  function WriteVtt(cues: seq<Cue>): seq<string>
  {
    ["WEBVTT"] + Render(CueBlocks(cues))
  }

  /** Text lines read back, each followed by a newline and then trimmed,
      are the text that was split into them. */
  lemma TextRoundTrip(text: string)
    requires Trim(text) == text && NoBlankLines(Split(text, '\n'))
    ensures Trim(Accumulate(Split(text, '\n'))) == text
  {
    var parts := Split(text, '\n');
    AccumulateJoin(parts);
    JoinSplit(text, '\n');
    TrimShape(text);
    assert [] + text + "\n" == text + "\n";
    TrimExact([], text, "\n");
  }

  /** A written timing line is timed, and its stamps are the cue's times. */
  lemma TimingTextRoundTrip(c: Cue)
    requires c.startMs < 100 * MsPerHour && c.endMs < 100 * MsPerHour
    ensures Trim(TimingText(c)) == TimingText(c)
    ensures VttTimingLine(Trim(TimingText(c))) == Some((c.startMs, c.endMs))
  {
    TimingTextTrimmed(c);
    VttTimingLineRoundTrip(c.startMs, c.endMs);
  }

  lemma TimingTextTrimmed(c: Cue)
    requires c.startMs < 100 * MsPerHour && c.endMs < 100 * MsPerHour
    ensures Trim(TimingText(c)) == TimingText(c)
  {
    var a := FormatVttTime(c.startMs);
    var b := FormatVttTime(c.endMs);
    StampEdges(c.startMs);
    StampEdges(c.endMs);
    var t := a + " --> " + b;
    assert t[0] == a[0] && t[|t| - 1] == b[11];
    assert [] + t + [] == t;
    TrimExact([], t, []);
  }

  /** A written stamp is 12 characters long and starts and ends with a digit. */
  lemma StampEdges(ms: nat)
    requires ms < 100 * MsPerHour
    ensures |FormatVttTime(ms)| == 12
    ensures IsDigit(FormatVttTime(ms)[0]) && IsDigit(FormatVttTime(ms)[11])
  {
    VttTimeRoundTrip(ms);
    assert Patterns.Accepts(VttStamp[0], FormatVttTime(ms)[0]);
    assert Patterns.Accepts(VttStamp[11], FormatVttTime(ms)[11]);
  }

  /** No line of a writable cue's block holds a line break. */
  lemma BlockUnbroken(c: Cue)
    requires Writable(c)
    ensures forall i :: 0 <= i < |BlockLines(CueBlock(c))| ==> '\n' !in BlockLines(CueBlock(c))[i]
  {
    var lines := BlockLines(CueBlock(c));
    TimingTextUnbroken(c);
    forall i | 0 <= i < |lines|
      ensures '\n' !in lines[i]
    {
      if i >= 2 {
        assert lines[i] == Split(c.text, '\n')[i - 2];
      }
    }
  }

  /** A written timing line holds no line break. */
  lemma TimingTextUnbroken(c: Cue)
    requires c.startMs < 100 * MsPerHour && c.endMs < 100 * MsPerHour
    ensures '\n' !in TimingText(c)
  {
    StampUnbroken(c.startMs);
    StampUnbroken(c.endMs);
  }

  lemma StampUnbroken(ms: nat)
    requires ms < 100 * MsPerHour
    ensures '\n' !in FormatVttTime(ms)
  {
    var s := FormatVttTime(ms);
    VttTimeRoundTrip(ms);
    forall i | 0 <= i < |s|
      ensures s[i] != '\n'
    {
      assert Patterns.Accepts(VttStamp[i], s[i]);
    }
  }

  /** The empty line holds no `-->`. */
  lemma BlankGap()
    ensures NoArrowLines([""]) && StartsBlank([""])
  {
    assert Trim("") == "" by {
      TrimEmptyIffBlank("");
    }
  }

  /** A writable cue's block is shaped, timed, and stands for the cue. */
  lemma CueBlockRoundTrip(c: Cue)
    requires Writable(c)
    ensures BlockShaped(CueBlock(c)) && IsTimed(CueBlock(c).timingLine)
    ensures BlockCue(CueBlock(c)) == c
  {
    TimingTextRoundTrip(c);
    TimedIsArrow(TimingText(c));
    BlankGap();
    TextRoundTrip(c.text);
  }

  /** The blocks of cues are the first cue's block and then the rest's. */
  lemma CueBlocksCons(cues: seq<Cue>)
    requires |cues| > 0
    ensures CueBlocks(cues)[0] == CueBlock(cues[0])
    ensures CueBlocks(cues)[1..] == CueBlocks(cues[1..])
  {
  }

  /** The blocks of writable cues are well formed and timed. */
  lemma {:induction false} CueBlocksWellFormed(cues: seq<Cue>)
    requires forall k :: 0 <= k < |cues| ==> Writable(cues[k])
    ensures WellFormed(CueBlocks(cues), []) && AllTimed(CueBlocks(cues))
    decreases |cues|
  {
    if |cues| == 0 {
      BlankGap();
    } else {
      CueBlocksWellFormed(cues[1..]);
      CueBlockRoundTrip(cues[0]);
      CueBlocksCons(cues);
      if |cues| > 1 {
        CueBlocksCons(cues[1..]);
        BlankGap();
      }
    }
  }

  /** The blocks of writable cues stand for the cues. */
  lemma {:induction false} CueBlocksRoundTrip(cues: seq<Cue>)
    requires forall k :: 0 <= k < |cues| ==> Writable(cues[k])
    ensures AllTimed(CueBlocks(cues)) && BlockCues(CueBlocks(cues)) == cues
    decreases |cues|
  {
    CueBlocksWellFormed(cues);
    if |cues| > 0 {
      CueBlocksRoundTrip(cues[1..]);
      CueBlockRoundTrip(cues[0]);
      CueBlocksCons(cues);
    }
  }

  /** Lines without `-->` before a well-formed run of timed blocks are
      passed over, and the run parses to its blocks' cues. */
  lemma HeaderThenBlocks(header: seq<string>, blocks: seq<Block>, tail: seq<string>)
    requires NoArrowLines(header) && WellFormed(blocks, tail) && AllTimed(blocks)
    ensures ParseVtt(header + (Render(blocks) + tail)) == Ok(BlockCues(blocks))
  {
    HeaderScan(header + (Render(blocks) + tail), header, blocks, tail);
  }

  lemma HeaderScan(lines: seq<string>, header: seq<string>, blocks: seq<Block>, tail: seq<string>)
    requires lines == header + (Render(blocks) + tail)
    requires NoArrowLines(header) && WellFormed(blocks, tail) && AllTimed(blocks)
    ensures ParseVtt(lines) == Ok(BlockCues(blocks))
  {
    ParseVttFromStart(lines);
    SkipLines(lines, header, Render(blocks) + tail);
    ScanRendered(lines, |header|, blocks, tail, None);
    FromNothing(ParseVtt(lines), VttScan(lines, 0, None), VttScan(lines, |header|, None), BlockCues(blocks));
  }

  /** A scan that starts with no cue in hand yields just what follows. */
  lemma FromNothing(whole: Result<seq<Cue>, ParseError>, start: Result<seq<Cue>, ParseError>,
                    after: Result<seq<Cue>, ParseError>, x: seq<Cue>)
    requires whole == start && start == after && after == Ok(Flushed(None) + x)
    ensures whole == Ok(x)
  {
    assert Flushed(None) + x == x;
  }

  /** Leading lines without `-->` are passed over before any cue is in hand. */
  lemma SkipLines(lines: seq<string>, header: seq<string>, rest: seq<string>)
    requires lines == header + rest && NoArrowLines(header)
    ensures |header| <= |lines| && lines[|header|..] == rest
    ensures VttScan(lines, 0, None) == VttScan(lines, |header|, None)
  {
    forall k | 0 <= k < |header|
      ensures !IsArrowLine(Trim(lines[k]))
    {
      assert lines[k] == header[k];
    }
    SkipNoArrow(lines, 0, |header|, None);
    assert lines[|header|..] == rest;
  }

  /** The `WEBVTT` line holds no `-->`. */
  lemma HeaderNoArrow()
    ensures NoArrowLines(["WEBVTT"])
  {
    var s := "WEBVTT";
    assert Trim(s) == s by {
      assert [] + s + [] == s;
      TrimExact([], s, []);
    }
    forall k | 0 <= k <= |s|
      ensures !OccursAt(s, Arrow, k)
    {
      if k + 3 <= |s| {
        assert s[k..k + 3][0] == s[k] != '-';
      }
    }
  }

  /** Writing writable cues to a WebVTT file and parsing it gives them back. */
  lemma VttFileRoundTrip(cues: seq<Cue>)
    requires forall k :: 0 <= k < |cues| ==> Writable(cues[k])
    ensures ParseVtt(WriteVtt(cues)) == Ok(cues)
  {
    CueBlocksWellFormed(cues);
    CueBlocksRoundTrip(cues);
    HeaderNoArrow();
    HeaderThenBlocks(["WEBVTT"], CueBlocks(cues), []);
    assert Render(CueBlocks(cues)) + [] == Render(CueBlocks(cues));
  }
}
