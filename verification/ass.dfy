/** `SubtitleParser.parseASS` and `parseASSDialogue`,
    eagle-subtitle-plugin-v1.0.0-fixed/main.js:519-555.

    Every line is trimmed. A line equal to `[Events]` switches the scan into
    the events section for good (no later line switches it off); inside
    that section a line starting with `Dialogue:` is read as a dialogue
    event, and any other line is ignored. A dialogue event is the text after
    the nine characters of `Dialogue:`, split on commas: with fewer than ten
    fields it is dropped, otherwise fields 1 and 2 are the start and end
    times and fields 9 onward, joined by commas again, are the text, with
    every `\N` turned into a line break. ASS cues carry no index and their
    text is not trimmed beyond the trimming of the whole line. */
module Ass {
  import opened Results
  import opened Strings
  import opened TimeCodes
  import opened Cues

  const EventsHeader: string := "[Events]"
  const DialoguePrefix: string := "Dialogue:"

  // ---------------------------------------------------------------------
  // line breaks in dialogue text

  /** `s.replace(/\\N/g, '\n')`: each `\N`, from left to right, becomes a
      line break. The text gets no longer, and text without `\N` is left
      alone. */
  function UnescapeBreaks(s: string): (r: string)
    ensures |r| <= |s|
    ensures NoBreakMark(s) ==> r == s
  {
    if |s| == 0 then ""
    else if |s| >= 2 && s[0] == '\\' && s[1] == 'N' then "\n" + UnescapeBreaks(s[2..])
    else
      NoBreakMarkTail(s);
      [s[0]] + UnescapeBreaks(s[1..])
  }

  /** The inverse direction: each line break written as `\N`. */
  function EscapeBreaks(s: string): string
  {
    if |s| == 0 then ""
    else (if s[0] == '\n' then "\\N" else [s[0]]) + EscapeBreaks(s[1..])
  }

  /** No backslash is directly followed by `N`. */
  predicate NoBreakMark(s: string)
  {
    forall i :: 0 <= i < |s| - 1 ==> !(s[i] == '\\' && s[i + 1] == 'N')
  }

  lemma NoBreakMarkTail(s: string)
    requires |s| > 0
    ensures NoBreakMark(s) ==> NoBreakMark(s[1..])
  {
    if NoBreakMark(s) {
      forall i | 0 <= i < |s[1..]| - 1
        ensures !(s[1..][i] == '\\' && s[1..][i + 1] == 'N')
      {
        assert s[1..][i] == s[i + 1] && s[1..][i + 1] == s[i + 2];
      }
    }
  }

  /** What the escaped text starts with. */
  lemma EscapeHead(s: string)
    requires |s| > 0
    ensures |EscapeBreaks(s)| > 0
    ensures EscapeBreaks(s)[0] == (if s[0] == '\n' then '\\' else s[0])
  {
  }

  /** Reading back escaped text gives the text, as long as the text itself
      holds no `\N` that the reader would take for a line break. */
  lemma {:induction false} UnescapeEscape(s: string)
    requires NoBreakMark(s)
    ensures UnescapeBreaks(EscapeBreaks(s)) == s
    decreases |s|
  {
    if |s| > 0 {
      var rest := s[1..];
      NoBreakMarkTail(s);
      UnescapeEscape(rest);
      var e := EscapeBreaks(rest);
      if s[0] == '\n' {
        assert EscapeBreaks(s) == "\\N" + e;
        assert ("\\N" + e)[2..] == e;
      } else {
        assert EscapeBreaks(s) == [s[0]] + e;
        assert ([s[0]] + e)[1..] == e;
        if s[0] == '\\' && |rest| > 0 {
          EscapeHead(rest);
          assert s[1] == rest[0];
        }
      }
      assert s == [s[0]] + rest;
    }
  }

  /** The replacement leaves no `\N` behind. */
  lemma {:induction false} UnescapeNoMark(s: string)
    ensures NoBreakMark(UnescapeBreaks(s))
    ensures |s| > 0 && s[0] != '\\' ==> |UnescapeBreaks(s)| > 0 && UnescapeBreaks(s)[0] == s[0]
    ensures |s| > 0 && s[0] == '\\' ==> |UnescapeBreaks(s)| > 0 && UnescapeBreaks(s)[0] != 'N'
    decreases |s|
  {
    if |s| > 0 {
      if |s| >= 2 && s[0] == '\\' && s[1] == 'N' {
        UnescapeNoMark(s[2..]);
        var u := UnescapeBreaks(s[2..]);
        assert UnescapeBreaks(s) == "\n" + u;
        forall i | 0 <= i < |"\n" + u| - 1
          ensures !(("\n" + u)[i] == '\\' && ("\n" + u)[i + 1] == 'N')
        {
          if i > 0 {
            assert ("\n" + u)[i] == u[i - 1] && ("\n" + u)[i + 1] == u[i];
          }
        }
      } else {
        UnescapeNoMark(s[1..]);
        var u := UnescapeBreaks(s[1..]);
        assert UnescapeBreaks(s) == [s[0]] + u;
        forall i | 0 <= i < |[s[0]] + u| - 1
          ensures !(([s[0]] + u)[i] == '\\' && ([s[0]] + u)[i + 1] == 'N')
        {
          if i > 0 {
            assert ([s[0]] + u)[i] == u[i - 1] && ([s[0]] + u)[i + 1] == u[i];
          } else if s[0] == '\\' {
            assert |s| >= 2 && s[1] != 'N';
            assert u[0] != 'N';
          }
        }
      }
    }
  }

  // ---------------------------------------------------------------------
  // dialogue events

  /** `line.substring(9)`: empty when the line is shorter. */
  function AfterPrefix(line: string): string
  {
    if |line| >= 9 then line[9..] else ""
  }

  /** `parseASSDialogue`: the cue of a dialogue event, or nothing when it
      has fewer than ten comma-separated fields. */
  function ParseDialogue(line: string): (r: Option<Cue>)
    ensures r.Some? <==> Count(AfterPrefix(line), ',') >= 9
    ensures r.Some? ==> r.value.index.None? && r.value.startMs % 10 == 0 && r.value.endMs % 10 == 0
  {
    var parts := Split(AfterPrefix(line), ',');
    if |parts| >= 10 then
      Some(Cue(None, AssTime(parts[1]), AssTime(parts[2]), UnescapeBreaks(Join(parts[9..], ','))))
    else None
  }

  /** A trimmed line that is read as a dialogue event inside the events section. */
  predicate IsDialogueLine(trimmed: string)
  {
    StartsWith(trimmed, DialoguePrefix)
  }

  function OptionSeq(o: Option<Cue>): (r: seq<Cue>)
    ensures |r| <= 1
  {
    if o.Some? then [o.value] else []
  }

  /** The cues the loop of `parseASS` collects from `lines`, entering them
      with the events flag `inEvents`: at most one per line that starts
      with `Dialogue:`, each without index and with times in whole
      centiseconds. */
  function AssScan(lines: seq<string>, inEvents: bool): (r: seq<Cue>)
    ensures |r| <= DialogueCount(lines)
    ensures forall k :: 0 <= k < |r| ==> DialogueShaped(r[k])
  {
    if |lines| == 0 then []
    else
      var t := Trim(lines[0]);
      if t == EventsHeader then AssScan(lines[1..], true)
      else if inEvents && IsDialogueLine(t) then
        ShapedAppend(OptionSeq(ParseDialogue(t)), AssScan(lines[1..], inEvents));
        OptionSeq(ParseDialogue(t)) + AssScan(lines[1..], inEvents)
      else AssScan(lines[1..], inEvents)
  }

  /** `parseASS` on the lines of a file: nothing without an `[Events]`
      line, and otherwise at most one cue per `Dialogue:` line, each
      without index and with times in whole centiseconds. */
  function ParseAss(lines: seq<string>): (r: seq<Cue>)
    ensures (forall k :: 0 <= k < |lines| ==> Trim(lines[k]) != EventsHeader) ==> r == []
    ensures |r| <= DialogueCount(lines)
    ensures forall k :: 0 <= k < |r| ==> DialogueShaped(r[k])
  {
    NoEvents(lines);
    AssScan(lines, false)
  }

  /** Without an `[Events]` line nothing is collected. */
  lemma NoEvents(lines: seq<string>)
    ensures (forall k :: 0 <= k < |lines| ==> Trim(lines[k]) != EventsHeader) ==> AssScan(lines, false) == []
  {
    if forall k :: 0 <= k < |lines| ==> Trim(lines[k]) != EventsHeader {
      BeforeEvents(lines, []);
      assert lines + [] == lines;
    }
  }

  /** Number of lines that start with `Dialogue:` once trimmed. */
  function DialogueCount(lines: seq<string>): nat
  {
    if |lines| == 0 then 0
    else (if IsDialogueLine(Trim(lines[0])) then 1 else 0) + DialogueCount(lines[1..])
  }

  /** What every cue `parseASSDialogue` builds looks like: no index, times
      in whole centiseconds. */
  predicate DialogueShaped(c: Cue)
  {
    c.index.None? && c.startMs % 10 == 0 && c.endMs % 10 == 0
  }

  lemma ShapedAppend(a: seq<Cue>, b: seq<Cue>)
    requires forall k :: 0 <= k < |a| ==> DialogueShaped(a[k])
    requires forall k :: 0 <= k < |b| ==> DialogueShaped(b[k])
    ensures forall k :: 0 <= k < |a + b| ==> DialogueShaped((a + b)[k])
  {
    forall k | 0 <= k < |a + b|
      ensures DialogueShaped((a + b)[k])
    {
      if k >= |a| {
        assert (a + b)[k] == b[k - |a|];
      }
    }
  }

  /** Before the events section nothing is collected: lines none of which
      is `[Events]` once trimmed contribute no cue and leave the flag off. */
  lemma {:induction false} BeforeEvents(header: seq<string>, rest: seq<string>)
    requires forall k :: 0 <= k < |header| ==> Trim(header[k]) != EventsHeader
    ensures AssScan(header + rest, false) == AssScan(rest, false)
    decreases |header|
  {
    if |header| > 0 {
      assert (header + rest)[0] == header[0];
      assert (header + rest)[1..] == header[1..] + rest;
      BeforeEvents(header[1..], rest);
    } else {
      assert header + rest == rest;
    }
  }

  /** Inside the events section the lines are read one by one, independently:
      the cues of two runs of lines are the cues of each run in turn. */
  lemma {:induction false} EventsAppend(a: seq<string>, b: seq<string>)
    ensures AssScan(a + b, true) == AssScan(a, true) + AssScan(b, true)
    decreases |a|
  {
    if |a| == 0 {
      assert a + b == b;
    } else {
      assert (a + b)[0] == a[0];
      assert (a + b)[1..] == a[1..] + b;
      EventsAppend(a[1..], b);
    }
  }

  // ---------------------------------------------------------------------
  // writing dialogue events

  /** The nine fields before the text: layer, start, end, style, name,
      three margins and effect. */
  function DialogueHead(c: Cue): seq<string>
  {
    [" 0", FormatAssTime(c.startMs), FormatAssTime(c.endMs), "Default", "", "0", "0", "0", ""]
  }

  /** The dialogue event line for a cue. */
  function DialogueLine(c: Cue): string
  {
    DialoguePrefix + Join(DialogueHead(c), ',') + [','] + EscapeBreaks(c.text)
  }

  /** A cue an ASS file carries exactly: no index, times in whole
      centiseconds below 100 hours, text holding no `\N` and not ending in
      whitespace other than a line break (trimming the line would drop it). */
  predicate Writable(c: Cue)
  {
    && c.index.None?
    && c.startMs < 100 * MsPerHour && c.startMs % 10 == 0
    && c.endMs < 100 * MsPerHour && c.endMs % 10 == 0
    && NoBreakMark(c.text)
    && (|c.text| == 0 || c.text[|c.text| - 1] == '\n' || !IsWhitespace(c.text[|c.text| - 1]))
  }

  /** A rendered time holds no comma. */
  lemma AssTimeNoComma(ms: nat)
    ensures ',' !in FormatAssTime(ms)
  {
    var hd := if ms < 10 * MsPerHour then 1 else 2;
    var h, m, s, f := PadDecimal(HoursOf(ms), hd), PadDecimal(MinutesOf(ms), 2),
                      PadDecimal(SecondsOf(ms), 2), PadDecimal(FractionOf(ms, 2), 2);
    assert ',' !in h && ',' !in m && ',' !in s && ',' !in f;
  }

  lemma EscapeLast(s: string)
    requires |s| > 0
    ensures |EscapeBreaks(s)| > 0
    ensures EscapeBreaks(s)[|EscapeBreaks(s)| - 1] == (if s[|s| - 1] == '\n' then 'N' else s[|s| - 1])
    decreases |s|
  {
    if |s| > 1 {
      EscapeLast(s[1..]);
    }
  }

  /** A dialogue line is already trimmed and starts with `Dialogue:`. */
  lemma DialogueLineTrimmed(c: Cue)
    requires Writable(c)
    ensures Trim(DialogueLine(c)) == DialogueLine(c)
    ensures IsDialogueLine(DialogueLine(c))
    ensures DialogueLine(c) != EventsHeader
  {
    var line := DialogueLine(c);
    assert line[0] == 'D';
    if |c.text| > 0 {
      EscapeLast(c.text);
      assert line[|line| - 1] == EscapeBreaks(c.text)[|EscapeBreaks(c.text)| - 1];
    } else {
      assert line[|line| - 1] == ',';
    }
    assert [] + line + [] == line;
    TrimExact([], line, []);
    assert line[..9] == DialoguePrefix;
  }

  /** The fields of a dialogue line are its nine head fields followed by the
      comma-separated pieces of its escaped text. */
  lemma DialogueLineFields(c: Cue)
    ensures Split(AfterPrefix(DialogueLine(c)), ',')
         == DialogueHead(c) + Split(EscapeBreaks(c.text), ',')
  {
    DialogueLineBody(c);
    HeadNoComma(c);
    SplitAfterJoin(DialogueHead(c), EscapeBreaks(c.text), ',');
  }

  lemma DialogueLineBody(c: Cue)
    ensures AfterPrefix(DialogueLine(c)) == Join(DialogueHead(c), ',') + [','] + EscapeBreaks(c.text)
  {
    var body := Join(DialogueHead(c), ',') + [','] + EscapeBreaks(c.text);
    assert DialogueLine(c) == DialoguePrefix + body;
  }

  lemma HeadNoComma(c: Cue)
    ensures forall i :: 0 <= i < |DialogueHead(c)| ==> ',' !in DialogueHead(c)[i]
  {
    AssTimeNoComma(c.startMs);
    AssTimeNoComma(c.endMs);
  }

  /** Reading the dialogue line of a writable cue gives the cue back. */
  lemma DialogueRoundTrip(c: Cue)
    requires Writable(c)
    ensures ParseDialogue(DialogueLine(c)) == Some(c)
  {
    var e := EscapeBreaks(c.text);
    var parts := Split(AfterPrefix(DialogueLine(c)), ',');
    DialogueLineFields(c);
    assert parts[1] == FormatAssTime(c.startMs) && parts[2] == FormatAssTime(c.endMs);
    assert parts[9..] == Split(e, ',');
    AssTimeRoundTrip(c.startMs);
    AssTimeRoundTrip(c.endMs);
    JoinSplit(e, ',');
    UnescapeEscape(c.text);
  }

  function DialogueLines(cues: seq<Cue>): (r: seq<string>)
    ensures |r| == |cues|
    ensures forall k :: 0 <= k < |cues| ==> r[k] == DialogueLine(cues[k])
  {
    if |cues| == 0 then [] else [DialogueLine(cues[0])] + DialogueLines(cues[1..])
  }

  /** Inside the events section, the dialogue lines of writable cues read
      back as exactly those cues, in order. */
  lemma {:induction false} EventsRoundTrip(cues: seq<Cue>)
    requires forall k :: 0 <= k < |cues| ==> Writable(cues[k])
    ensures AssScan(DialogueLines(cues), true) == cues
    decreases |cues|
  {
    if |cues| > 0 {
      EventsStep(cues);
      EventsRoundTrip(cues[1..]);
      ConsTail(cues);
    }
  }

  /** The first dialogue line reads back as the first cue. */
  lemma EventsStep(cues: seq<Cue>)
    requires |cues| > 0 && Writable(cues[0])
    ensures AssScan(DialogueLines(cues), true) == [cues[0]] + AssScan(DialogueLines(cues[1..]), true)
  {
    var lines := DialogueLines(cues);
    DialogueLineTrimmed(cues[0]);
    DialogueRoundTrip(cues[0]);
    assert lines[1..] == DialogueLines(cues[1..]);
  }

  lemma EventsHeaderTrimmed()
    ensures Trim(EventsHeader) == EventsHeader
  {
    assert [] + EventsHeader + [] == EventsHeader;
    TrimExact([], EventsHeader, []);
  }

  /** The `[Events]` line switches the scan into the events section. */
  lemma EnterEvents(body: seq<string>)
    ensures AssScan([EventsHeader] + body, false) == AssScan(body, true)
  {
    EventsHeaderTrimmed();
    assert ([EventsHeader] + body)[1..] == body;
  }

  /** Lines before the `[Events]` line contribute nothing: scanning starts
      afresh after it. */
  lemma HeaderThenEvents(header: seq<string>, body: seq<string>)
    requires forall k :: 0 <= k < |header| ==> Trim(header[k]) != EventsHeader
    ensures ParseAss(header + [EventsHeader] + body) == AssScan(body, true)
  {
    assert header + [EventsHeader] + body == header + ([EventsHeader] + body);
    BeforeEvents(header, [EventsHeader] + body);
    EnterEvents(body);
  }

  /** A file made of a header without an `[Events]` line, the `[Events]`
      line, and the dialogue lines of writable cues parses to those cues. */
  lemma AssFileRoundTrip(header: seq<string>, cues: seq<Cue>)
    requires forall k :: 0 <= k < |header| ==> Trim(header[k]) != EventsHeader
    requires forall k :: 0 <= k < |cues| ==> Writable(cues[k])
    ensures ParseAss(header + [EventsHeader] + DialogueLines(cues)) == cues
  {
    EventsRoundTrip(cues);
    HeaderThenEvents(header, DialogueLines(cues));
  }
}
