/** `SubtitleParser.parseSRT` over the lines of the file (the text split on
    '\n'), eagle-subtitle-plugin-v1.0.0-fixed/main.js:453-504.

    The scan looks for index lines; the line after an index line is always
    taken as its timing line, and the non-blank lines after that are its
    text. The scan is stated in two layers: the entries of the file, each
    an index line, a timing line and text lines (`ScanEntries`), and the
    cue each entry denotes (`EntryCue`). A cue is complete once the scan
    has moved past it, so flushing the pending cue at the next index line
    or at the end of input is the same as emitting each cue as soon as it
    is read; `ParseSrtLoop` keeps the source's pending-cue loop and is
    proved to agree with `ParseSrt`. */
module Srt {
  import opened Results
  import opened Strings
  import opened TimeCodes
  import opened Cues

  /** `line && !isNaN(line)` on the trimmed line, read as "a non-empty run
      of decimal digits". */
  predicate IsIndexLine(line: string)
  {
    IsDecimal(Trim(line))
  }

  /** Number of index lines in `lines[i..]`. */
  function IndexLines(lines: seq<string>, i: nat): nat
    decreases |lines| - i
  {
    if i >= |lines| then 0 else (if IsIndexLine(lines[i]) then 1 else 0) + IndexLines(lines, i + 1)
  }

  lemma {:induction false} IndexLinesMonotone(lines: seq<string>, i: nat, j: nat)
    requires i <= j
    ensures IndexLines(lines, j) <= IndexLines(lines, i)
    decreases j - i
  {
    if i < j {
      IndexLinesMonotone(lines, i + 1, j);
    }
  }

  // ---------------------------------------------------------------------
  // entries and the cues they denote

  /** One cue as it stands in the file: its index line, its timing line and
      its text lines. */
  datatype Entry = Entry(indexLine: string, timingLine: string, textLines: seq<string>)

  /** The cue an entry denotes: the index is `parseInt` of the trimmed index
      line; the times are those of the leftmost
      `HH:MM:SS,mmm --> HH:MM:SS,mmm` in the trimmed timing line, and both
      stay 0 when there is none; the text is the text lines, each followed
      by a newline, trimmed. */
  function EntryCue(e: Entry): (c: Cue)
    ensures c.index.Some?
    ensures c.startMs <= MaxClockMs && c.endMs <= MaxClockMs
    ensures Trim(c.text) == c.text
  {
    var times := SrtTimingLine(Trim(e.timingLine));
    TrimIdempotent(Accumulate(e.textLines));
    Cue(Some(DecimalValue(Trim(e.indexLine))),
        if times.Some? then times.value.0 else 0,
        if times.Some? then times.value.1 else 0,
        Trim(Accumulate(e.textLines)))
  }

  function EntryCues(es: seq<Entry>): (r: seq<Cue>)
    ensures |r| == |es|
    ensures forall k :: 0 <= k < |es| ==> r[k] == EntryCue(es[k])
  {
    if |es| == 0 then [] else [EntryCue(es[0])] + EntryCues(es[1..])
  }

  /** The cues of a successful scan; failures pass through. */
  function Denote(r: Result<seq<Entry>, ParseError>): Result<seq<Cue>, ParseError>
  {
    match r
    case Ok(es) => Ok(EntryCues(es))
    case Err(e) => Err(e)
  }

  lemma DenotePrepend(e: Entry, r: Result<seq<Entry>, ParseError>)
    ensures Denote(Prepend([e], r)) == Prepend([EntryCue(e)], Denote(r))
  {
    if r.Ok? {
      assert ([e] + r.value)[1..] == r.value;
    }
  }

  /** The entry opened by the index line at `p`: the next line is its
      timing line and the non-blank lines after that are its text. */
  function EntryAt(lines: seq<string>, p: nat): Entry
    requires p + 1 < |lines|
  {
    Entry(lines[p], lines[p + 1], lines[p + 2..TextEnd(lines, p + 2)])
  }

  /** The entries the scan from line `i` reads: lines that are not index
      lines are passed over; an index line that is the last line fails (the
      source then reads past the end of the line array); any other index
      line opens an entry, and the scan resumes after the line that ends
      the entry's text. */
  function ScanEntries(lines: seq<string>, i: nat): Result<seq<Entry>, ParseError>
    decreases |lines| - i
  {
    if i >= |lines| then Ok([])
    else if !IsIndexLine(lines[i]) then ScanEntries(lines, i + 1)
    else if i + 1 == |lines| then Err(MissingTimingLine)
    else Prepend([EntryAt(lines, i)], ScanEntries(lines, TextEnd(lines, i + 2) + 1))
  }

  /** The cues the scan from line `i` produces: no more than there are
      index lines, every one numbered, and a failure is `MissingTimingLine`
      with an index line as the last line. */
  function ScanSrt(lines: seq<string>, i: nat): (r: Result<seq<Cue>, ParseError>)
    ensures r.Ok? ==> |r.value| <= IndexLines(lines, i)
    ensures r.Ok? ==> forall k :: 0 <= k < |r.value| ==> r.value[k].index.Some?
    ensures r.Err? ==> r.error == MissingTimingLine && i < |lines| && IsIndexLine(lines[|lines| - 1])
  {
    EntriesBound(lines, i);
    EntriesFailure(lines, i);
    Denote(ScanEntries(lines, i))
  }

  /** `parseSRT` on the lines of a file: no more cues than index lines,
      every cue numbered, and a failure is `MissingTimingLine` with an
      index line as the last line. */
  function ParseSrt(lines: seq<string>): (r: Result<seq<Cue>, ParseError>)
    ensures r.Ok? ==> |r.value| <= IndexLines(lines, 0)
    ensures r.Ok? ==> forall k :: 0 <= k < |r.value| ==> r.value[k].index.Some?
    ensures r.Err? ==> r.error == MissingTimingLine && |lines| > 0 && IsIndexLine(lines[|lines| - 1])
  {
    ScanSrt(lines, 0)
  }

  lemma ScanEntriesSkip(lines: seq<string>, i: nat)
    requires i < |lines| && !IsIndexLine(lines[i])
    ensures ScanEntries(lines, i) == ScanEntries(lines, i + 1)
  {
  }

  lemma ScanEntriesOpen(lines: seq<string>, i: nat)
    requires i + 1 < |lines| && IsIndexLine(lines[i])
    ensures ScanEntries(lines, i) == Prepend([EntryAt(lines, i)], ScanEntries(lines, TextEnd(lines, i + 2) + 1))
  {
  }

  /** One step of the scan at line `i`: a line that is not an index line is
      passed over; an index line that is the last line fails; any other
      index line yields its cue, and the scan resumes after the blank line
      that ends the cue's text. */
  lemma ScanSrtStep(lines: seq<string>, i: nat)
    requires i < |lines|
    ensures !IsIndexLine(lines[i]) ==> ScanSrt(lines, i) == ScanSrt(lines, i + 1)
    ensures IsIndexLine(lines[i]) && i + 1 == |lines| ==> ScanSrt(lines, i) == Err(MissingTimingLine)
    ensures IsIndexLine(lines[i]) && i + 1 < |lines| ==>
      ScanSrt(lines, i) == Prepend([EntryCue(EntryAt(lines, i))], ScanSrt(lines, TextEnd(lines, i + 2) + 1))
  {
    if !IsIndexLine(lines[i]) {
      ScanEntriesSkip(lines, i);
    } else if i + 1 < |lines| {
      ScanSrtOpen(lines, i);
    }
  }

  lemma ScanSrtOpen(lines: seq<string>, i: nat)
    requires i + 1 < |lines| && IsIndexLine(lines[i])
    ensures ScanSrt(lines, i) == Prepend([EntryCue(EntryAt(lines, i))], ScanSrt(lines, TextEnd(lines, i + 2) + 1))
  {
    ScanEntriesOpen(lines, i);
    DenotePrepend(EntryAt(lines, i), ScanEntries(lines, TextEnd(lines, i + 2) + 1));
  }

  /** There are at most as many entries as index lines. */
  lemma {:induction false} EntriesBound(lines: seq<string>, i: nat)
    ensures ScanEntries(lines, i).Ok? ==> |ScanEntries(lines, i).value| <= IndexLines(lines, i)
    decreases |lines| - i
  {
    if i < |lines| {
      if !IsIndexLine(lines[i]) {
        EntriesBound(lines, i + 1);
      } else if i + 1 < |lines| {
        var j := TextEnd(lines, i + 2);
        ScanEntriesOpen(lines, i);
        EntriesBound(lines, j + 1);
        IndexLinesMonotone(lines, i + 1, j + 1);
      }
    }
  }

  /** The scan fails only with `MissingTimingLine`, when the last line is an
      index line. */
  lemma {:induction false} EntriesFailure(lines: seq<string>, i: nat)
    ensures ScanEntries(lines, i).Err? ==>
      ScanEntries(lines, i).error == MissingTimingLine && i < |lines| && IsIndexLine(lines[|lines| - 1])
    decreases |lines| - i
  {
    if i < |lines| {
      if !IsIndexLine(lines[i]) {
        EntriesFailure(lines, i + 1);
      } else if i + 1 < |lines| {
        var j := TextEnd(lines, i + 2);
        ScanEntriesOpen(lines, i);
        EntriesFailure(lines, j + 1);
      }
    }
  }

  /** Lines that are not index lines are passed over. */
  lemma {:induction false} SkipNonIndex(lines: seq<string>, i: nat, n: nat)
    requires i + n <= |lines|
    requires forall k :: i <= k < i + n ==> !IsIndexLine(lines[k])
    ensures ScanEntries(lines, i) == ScanEntries(lines, i + n)
    decreases n
  {
    if n > 0 {
      ScanEntriesSkip(lines, i);
      SkipNonIndex(lines, i + 1, n - 1);
    }
  }

  // ---------------------------------------------------------------------
  // the shape of a file the scan reads block by block

  /** One cue of an SRT file as lines: lines that are not index lines, the
      index line, the timing line (any line at all), and the text lines. */
  datatype Block = Block(gap: seq<string>, indexLine: string, timingLine: string, textLines: seq<string>)

  function BlockLines(b: Block): seq<string>
  {
    b.gap + [b.indexLine, b.timingLine] + b.textLines
  }

  function Render(blocks: seq<Block>): seq<string>
  {
    if |blocks| == 0 then [] else BlockLines(blocks[0]) + Render(blocks[1..])
  }

  /** The entry a block stands for. */
  function BlockEntry(b: Block): Entry
  {
    Entry(b.indexLine, b.timingLine, b.textLines)
  }

  function BlockEntries(blocks: seq<Block>): (r: seq<Entry>)
    ensures |r| == |blocks|
    ensures forall k :: 0 <= k < |blocks| ==> r[k] == BlockEntry(blocks[k])
  {
    if |blocks| == 0 then [] else [BlockEntry(blocks[0])] + BlockEntries(blocks[1..])
  }

  /** The cue a block stands for. */
  function BlockCue(b: Block): Cue
  {
    EntryCue(BlockEntry(b))
  }

  predicate NoIndexLines(lines: seq<string>)
  {
    forall k :: 0 <= k < |lines| ==> !IsIndexLine(lines[k])
  }

  /** Blocks followed by trailing lines form a file the scan reads block by
      block: gaps and the tail hold no index line, text lines are not
      blank, and a blank line separates each block's text from whatever
      follows. */
  predicate WellFormed(blocks: seq<Block>, tail: seq<string>)
  {
    && (forall k :: 0 <= k < |blocks| ==> IsIndexLine(blocks[k].indexLine))
    && (forall k :: 0 <= k < |blocks| ==> NoIndexLines(blocks[k].gap))
    && (forall k :: 0 <= k < |blocks| ==> NoBlankLines(blocks[k].textLines))
    && (forall k :: 1 <= k < |blocks| ==> |blocks[k].gap| > 0 && IsBlankLine(blocks[k].gap[0]))
    && NoIndexLines(tail)
    && (|blocks| > 0 && |tail| > 0 ==> IsBlankLine(tail[0]))
  }

  lemma EntryAtBlock(lines: seq<string>, p: nat, q: nat, b: Block)
    requires p + 2 <= q <= |lines| && TextEnd(lines, p + 2) == q
    requires lines[p] == b.indexLine && lines[p + 1] == b.timingLine && lines[p + 2..q] == b.textLines
    ensures EntryAt(lines, p) == BlockEntry(b)
  {
  }

  /** Where the parts of a block sit when the block starts at line `i`. */
  lemma BlockLayout(lines: seq<string>, i: nat, b: Block, rest: seq<string>)
    requires i <= |lines| && lines[i..] == BlockLines(b) + rest
    ensures |BlockLines(b)| == |b.gap| + 2 + |b.textLines|
    ensures |lines| == i + |BlockLines(b)| + |rest|
    ensures lines[i..i + |b.gap|] == b.gap
    ensures lines[i + |b.gap|] == b.indexLine && lines[i + |b.gap| + 1] == b.timingLine
    ensures lines[i + |b.gap| + 2..i + |BlockLines(b)|] == b.textLines
    ensures |rest| > 0 ==> lines[i + |BlockLines(b)|] == rest[0]
  {
    var g, t := |b.gap|, |b.textLines|;
    forall k | 0 <= k < g
      ensures lines[i..i + g][k] == b.gap[k]
    {
      assert lines[i + k] == lines[i..][k];
    }
    assert lines[i + g] == lines[i..][g];
    assert lines[i + g + 1] == lines[i..][g + 1];
    forall k | 0 <= k < t
      ensures lines[i + g + 2..i + g + 2 + t][k] == b.textLines[k]
    {
      assert lines[i + g + 2 + k] == lines[i..][g + 2 + k];
    }
    if |rest| > 0 {
      assert lines[i + g + 2 + t] == lines[i..][g + 2 + t];
    }
  }

  /** The lines before a block's index line are passed over. */
  lemma BlockGap(lines: seq<string>, i: nat, b: Block, rest: seq<string>)
    requires i <= |lines| && lines[i..] == BlockLines(b) + rest
    requires NoIndexLines(b.gap)
    ensures ScanEntries(lines, i) == ScanEntries(lines, i + |b.gap|)
  {
    var g := |b.gap|;
    assert |lines| >= i + g + 2 by {
      assert |lines[i..]| == |BlockLines(b)| + |rest|;
    }
    forall k | i <= k < i + g
      ensures !IsIndexLine(lines[k])
    {
      assert lines[k] == lines[i..][k - i] == BlockLines(b)[k - i] == b.gap[k - i];
    }
    SkipNonIndex(lines, i, g);
  }

  /** A block's text ends where the block ends. */
  lemma BlockText(lines: seq<string>, i: nat, b: Block, rest: seq<string>)
    requires i <= |lines| && lines[i..] == BlockLines(b) + rest
    requires NoBlankLines(b.textLines)
    requires |rest| > 0 ==> IsBlankLine(rest[0])
    ensures TextEnd(lines, i + |b.gap| + 2) == i + |BlockLines(b)|
  {
    BlockLayout(lines, i, b, rest);
    var p := i + |b.gap|;
    var q := i + |BlockLines(b)|;
    forall k | p + 2 <= k < q
      ensures !IsBlankLine(lines[k])
    {
      assert lines[k] == lines[p + 2..q][k - (p + 2)];
    }
    TextEndAt(lines, p + 2, |b.textLines|);
  }

  /** The scan reads a block whose index line is at `p` and whose text
      ends at `q` as one entry, and resumes at `q`, when the block is
      followed by the end of input or a blank line. */
  lemma OpenBlock(lines: seq<string>, p: nat, q: nat, b: Block)
    requires p + 2 <= q <= |lines|
    requires lines[p] == b.indexLine && lines[p + 1] == b.timingLine && lines[p + 2..q] == b.textLines
    requires IsIndexLine(b.indexLine)
    requires TextEnd(lines, p + 2) == q
    requires q < |lines| ==> IsBlankLine(lines[q])
    ensures ScanEntries(lines, p) == Prepend([BlockEntry(b)], ScanEntries(lines, q))
  {
    EntryAtBlock(lines, p, q, b);
    ResumeAfterText(lines, q);
  }

  /** Resuming after the line that ends a text is resuming at that line,
      when it is blank or the end of input. */
  lemma ResumeAfterText(lines: seq<string>, q: nat)
    requires q <= |lines|
    requires q < |lines| ==> IsBlankLine(lines[q])
    ensures ScanEntries(lines, q + 1) == ScanEntries(lines, q)
  {
    if q < |lines| {
      TrimEmptyIffBlank(lines[q]);
      ScanEntriesSkip(lines, q);
    }
  }

  /** The scan reads a block at line `i` as one entry and resumes right
      after it, when what follows the block starts with a blank line or is
      empty. */
  lemma BlockStep(lines: seq<string>, i: nat, b: Block, rest: seq<string>)
    requires i <= |lines| && lines[i..] == BlockLines(b) + rest
    requires IsIndexLine(b.indexLine) && NoIndexLines(b.gap) && NoBlankLines(b.textLines)
    requires |rest| > 0 ==> IsBlankLine(rest[0])
    ensures ScanEntries(lines, i) == Prepend([BlockEntry(b)], ScanEntries(lines, i + |BlockLines(b)|))
  {
    BlockLayout(lines, i, b, rest);
    BlockGap(lines, i, b, rest);
    BlockText(lines, i, b, rest);
    OpenBlock(lines, i + |b.gap|, i + |BlockLines(b)|, b);
  }

  lemma WellFormedRest(blocks: seq<Block>, tail: seq<string>)
    requires WellFormed(blocks, tail) && |blocks| > 0
    ensures WellFormed(blocks[1..], tail)
  {
    var r := blocks[1..];
    assert forall k :: 0 <= k < |r| ==> r[k] == blocks[k + 1];
  }

  /** A rendered run of blocks is its first block followed by the rest of
      the run. */
  lemma RenderedSplit(lines: seq<string>, i: nat, blocks: seq<Block>, tail: seq<string>)
    requires i <= |lines| && lines[i..] == Render(blocks) + tail && |blocks| > 0
    ensures lines[i..] == BlockLines(blocks[0]) + (Render(blocks[1..]) + tail)
    ensures i + |BlockLines(blocks[0])| <= |lines|
    ensures lines[i + |BlockLines(blocks[0])|..] == Render(blocks[1..]) + tail
  {
    var n := |BlockLines(blocks[0])|;
    assert lines[i..] == BlockLines(blocks[0]) + (Render(blocks[1..]) + tail);
    assert lines[i + n..] == lines[i..][n..];
  }

  /** In a well-formed run, what follows the first block starts with a
      blank line unless it is empty. */
  lemma RestStartsBlank(blocks: seq<Block>, tail: seq<string>)
    requires WellFormed(blocks, tail) && |blocks| > 0
    ensures |Render(blocks[1..]) + tail| > 0 ==> IsBlankLine((Render(blocks[1..]) + tail)[0])
  {
    var rest := Render(blocks[1..]) + tail;
    if |rest| > 0 {
      if |blocks| > 1 {
        assert Render(blocks[1..]) == BlockLines(blocks[1]) + Render(blocks[2..]);
        assert rest[0] == blocks[1].gap[0];
      } else {
        assert rest == tail;
      }
    }
  }

  /** The first of a rendered run of blocks is read as one entry, and the
      scan resumes where the rest of the run starts. */
  lemma RenderedStep(lines: seq<string>, i: nat, blocks: seq<Block>, tail: seq<string>)
    requires i <= |lines| && lines[i..] == Render(blocks) + tail && |blocks| > 0
    requires IsIndexLine(blocks[0].indexLine) && NoIndexLines(blocks[0].gap) && NoBlankLines(blocks[0].textLines)
    requires |Render(blocks[1..]) + tail| > 0 ==> IsBlankLine((Render(blocks[1..]) + tail)[0])
    ensures ScanEntries(lines, i) == Prepend([BlockEntry(blocks[0])], ScanEntries(lines, i + |BlockLines(blocks[0])|))
  {
    var rest := Render(blocks[1..]) + tail;
    RenderedSplit(lines, i, blocks, tail);
    assert lines[i..] == BlockLines(blocks[0]) + rest;
    BlockStep(lines, i, blocks[0], rest);
  }

  /** What follows the first of a rendered run of blocks is the rendered
      rest of the run, and it is well formed too. */
  lemma RenderedNext(lines: seq<string>, i: nat, blocks: seq<Block>, tail: seq<string>)
    requires i <= |lines| && lines[i..] == Render(blocks) + tail
    requires WellFormed(blocks, tail) && |blocks| > 0
    ensures i + |BlockLines(blocks[0])| <= |lines|
    ensures lines[i + |BlockLines(blocks[0])|..] == Render(blocks[1..]) + tail
    ensures WellFormed(blocks[1..], tail)
  {
    RenderedSplit(lines, i, blocks, tail);
    WellFormedRest(blocks, tail);
  }

  /** The scan from the start of a rendered run of blocks reads one entry
      per block, in order. */
  lemma {:induction false} ScanRendered(lines: seq<string>, i: nat, blocks: seq<Block>, tail: seq<string>)
    requires i <= |lines| && lines[i..] == Render(blocks) + tail
    requires WellFormed(blocks, tail)
    ensures ScanEntries(lines, i) == Ok(BlockEntries(blocks))
    decreases |blocks|
  {
    if |blocks| == 0 {
      ScanTail(lines, i, tail);
    } else {
      RenderedNext(lines, i, blocks, tail);
      ScanRendered(lines, i + |BlockLines(blocks[0])|, blocks[1..], tail);
      RenderedCons(lines, i, blocks, tail);
    }
  }

  /** When the scan reads the rest of a rendered run block by block, it
      reads the whole run block by block. */
  lemma RenderedCons(lines: seq<string>, i: nat, blocks: seq<Block>, tail: seq<string>)
    requires i <= |lines| && lines[i..] == Render(blocks) + tail
    requires WellFormed(blocks, tail) && |blocks| > 0
    requires i + |BlockLines(blocks[0])| <= |lines|
    requires ScanEntries(lines, i + |BlockLines(blocks[0])|) == Ok(BlockEntries(blocks[1..]))
    ensures ScanEntries(lines, i) == Ok(BlockEntries(blocks))
  {
    RestStartsBlank(blocks, tail);
    RenderedStep(lines, i, blocks, tail);
    PrependOk(ScanEntries(lines, i), [BlockEntry(blocks[0])],
              ScanEntries(lines, i + |BlockLines(blocks[0])|), BlockEntries(blocks[1..]));
    PrependBlock(blocks);
  }

  /** Lines after the last block hold no index line and add no entry. */
  lemma ScanTail(lines: seq<string>, i: nat, tail: seq<string>)
    requires i <= |lines| && lines[i..] == tail && NoIndexLines(tail)
    ensures ScanEntries(lines, i) == Ok([])
  {
    forall k | i <= k < |lines|
      ensures !IsIndexLine(lines[k])
    {
      assert lines[k] == tail[k - i];
    }
    SkipNonIndex(lines, i, |lines| - i);
  }

  lemma PrependBlock(blocks: seq<Block>)
    requires |blocks| > 0
    ensures BlockEntries(blocks) == [BlockEntry(blocks[0])] + BlockEntries(blocks[1..])
  {
  }

  /** An SRT file made of well-formed blocks parses to exactly one cue per
      block, in file order, each the cue its block stands for. */
  lemma SrtBlocksParse(blocks: seq<Block>, tail: seq<string>)
    requires WellFormed(blocks, tail)
    ensures ParseSrt(Render(blocks) + tail).Ok?
    ensures |ParseSrt(Render(blocks) + tail).value| == |blocks|
    ensures forall k :: 0 <= k < |blocks| ==> ParseSrt(Render(blocks) + tail).value[k] == BlockCue(blocks[k])
  {
    ScanRendered(Render(blocks) + tail, 0, blocks, tail);
  }

  /** What a block's cue holds: the number written on the index line, the
      two times of a well-formed timing line (both 0 when the line holds no
      `HH:MM:SS,mmm --> HH:MM:SS,mmm`), and the text lines joined by
      newlines, trimmed. */
  lemma BlockCueFields(b: Block, number: nat, width: nat, start: nat, end: nat)
    requires start < 100 * MsPerHour && end < 100 * MsPerHour
    ensures number < Pow10(width) && Trim(b.indexLine) == PadDecimal(number, width)
            ==> BlockCue(b).index == Some(number)
    ensures |b.textLines| > 0 ==> BlockCue(b).text == Trim(Join(b.textLines, '\n'))
    ensures Trim(b.timingLine) == FormatSrtTime(start) + " --> " + FormatSrtTime(end)
            ==> BlockCue(b).startMs == start && BlockCue(b).endMs == end
    ensures (forall k :: !Patterns.MatchesAt(SrtRange, Trim(b.timingLine), k))
            ==> BlockCue(b).startMs == 0 && BlockCue(b).endMs == 0
  {
    if number < Pow10(width) && Trim(b.indexLine) == PadDecimal(number, width) {
      DecimalOfPad(number, width);
    }
    if |b.textLines| > 0 {
      AccumulateJoin(b.textLines);
      TrimBlankSuffix(Join(b.textLines, '\n'), "\n");
    }
    if Trim(b.timingLine) == FormatSrtTime(start) + " --> " + FormatSrtTime(end) {
      SrtTimingLineRoundTrip(start, end);
    }
  }

  // ---------------------------------------------------------------------
  // the source's loop

  function Flush(pending: Option<Cue>): seq<Cue>
  {
    if pending.Some? then [pending.value] else []
  }

  /** The inner loop of `parseSRT`: from line `i`, appends each line and a
      newline until a blank line or the end of input, and stops at that
      line. */
  method ReadText(lines: seq<string>, i: nat) returns (text: string, j: nat)
    requires i <= |lines|
    ensures j == TextEnd(lines, i)
    ensures text == Accumulate(lines[i..j])
  {
    j := i;
    text := "";
    while j < |lines| && !IsBlankLine(lines[j])
      invariant i <= j <= |lines|
      invariant TextEnd(lines, j) == TextEnd(lines, i)
      invariant text == Accumulate(lines[i..j])
      decreases |lines| - j
    {
      AccumulateSnoc(lines[i..j], lines[j]);
      assert lines[i..j + 1] == lines[i..j] + [lines[j]];
      text := text + lines[j] + "\n";
      j := j + 1;
    }
  }

  /** The body of `parseSRT`'s loop at an index line `start` that is not
      the last line: a cue numbered by the index line, timed by the next
      line when that holds a timing range, with the text that follows; it
      stops at the line that ends the text. The cue is the one the entry at
      `start` denotes. */
  method ReadCue(lines: seq<string>, start: nat) returns (cue: Cue, end: nat)
    requires start + 1 < |lines|
    ensures end == TextEnd(lines, start + 2)
    ensures cue == EntryCue(EntryAt(lines, start))
  {
    var timing := SrtTimingLine(Trim(lines[start + 1]));
    cue := Cue(Some(DecimalValue(Trim(lines[start]))), 0, 0, "");
    if timing.Some? {
      cue := cue.(startMs := timing.value.0, endMs := timing.value.1);
    }
    var text;
    text, end := ReadText(lines, start + 2);
    cue := cue.(text := Trim(text));
  }

  /** Reading the cue at an index line moves the scan past the cue's text:
      what is still to come from `start`, after the cues already collected,
      is that cue and then what comes after the line `next - 1` that ends
      its text. */
  lemma LoopStep(lines: seq<string>, start: nat, done: seq<Cue>, cue: Cue, next: nat,
                 whole: Result<seq<Cue>, ParseError>)
    requires start + 1 < |lines| && IsIndexLine(lines[start])
    requires cue == EntryCue(EntryAt(lines, start)) && next == TextEnd(lines, start + 2) + 1
    requires whole == Prepend(done, ScanSrt(lines, start))
    ensures whole == Prepend(done + Flush(Some(cue)), ScanSrt(lines, next))
  {
    OpenEntry(lines, start, done, whole);
    assert Flush(Some(cue)) == [cue];
  }

  lemma OpenEntry(lines: seq<string>, start: nat, done: seq<Cue>, whole: Result<seq<Cue>, ParseError>)
    requires start + 1 < |lines| && IsIndexLine(lines[start])
    requires whole == Prepend(done, ScanSrt(lines, start))
    ensures whole == Prepend(done + [EntryCue(EntryAt(lines, start))], ScanSrt(lines, TextEnd(lines, start + 2) + 1))
  {
    ScanSrtOpen(lines, start);
    PrependPrepend(done, [EntryCue(EntryAt(lines, start))], ScanSrt(lines, TextEnd(lines, start + 2) + 1));
  }

  /** An index line on the last line makes the whole parse fail. */
  lemma LoopFail(lines: seq<string>, start: nat, done: seq<Cue>, whole: Result<seq<Cue>, ParseError>)
    requires start + 1 == |lines| && IsIndexLine(lines[start])
    requires whole == Prepend(done, ScanSrt(lines, start))
    ensures whole == Err(MissingTimingLine)
  {
    ScanSrtStep(lines, start);
  }

  /** A line that is not an index line is passed over. */
  lemma LoopSkip(lines: seq<string>, prev: nat, next: nat, done: seq<Cue>, whole: Result<seq<Cue>, ParseError>)
    requires prev < |lines| && !IsIndexLine(lines[prev]) && next == prev + 1
    requires whole == Prepend(done, ScanSrt(lines, prev))
    ensures whole == Prepend(done, ScanSrt(lines, next))
  {
    ScanSrtStep(lines, prev);
  }

  /** At the end of input the parse is what has been collected. */
  lemma LoopEnd(lines: seq<string>, i: nat, done: seq<Cue>, whole: Result<seq<Cue>, ParseError>)
    requires i >= |lines|
    requires whole == Prepend(done, ScanSrt(lines, i))
    ensures whole == Ok(done)
  {
    assert ScanSrt(lines, i) == Ok([]);
    assert done + [] == done;
  }

  /** The loop of `parseSRT` as written: a pending cue flushed when the next
      index line opens a cue and at the end of input, an inner loop that
      appends each text line and a newline. */
  method ParseSrtLoop(lines: seq<string>) returns (r: Result<seq<Cue>, ParseError>)
    ensures r == ParseSrt(lines)
  {
    var subtitles: seq<Cue> := [];
    var current: Option<Cue> := None;
    var i := 0;
    ghost var whole := ParseSrt(lines);
    assert subtitles + Flush(current) == [];
    PrependEmpty(ScanSrt(lines, 0));
    while i < |lines|
      invariant i <= |lines| + 1
      invariant whole == Prepend(subtitles + Flush(current), ScanSrt(lines, i))
      decreases |lines| + 1 - i
    {
      var line := lines[i];
      if IsIndexLine(line) {
        subtitles := subtitles + Flush(current);
        if i + 1 >= |lines| {
          LoopFail(lines, i, subtitles, whole);
          return Err(MissingTimingLine);
        }
        var start := i;
        var cue, end := ReadCue(lines, start);
        current := Some(cue);
        i := end + 1;  // the inner loop stops at the blank line; the for loop steps past it
        LoopStep(lines, start, subtitles, cue, i, whole);
      } else {
        i := i + 1;
        LoopSkip(lines, i - 1, i, subtitles + Flush(current), whole);
      }
    }
    subtitles := subtitles + Flush(current);
    LoopEnd(lines, i, subtitles, whole);
    r := Ok(subtitles);
  }
}
