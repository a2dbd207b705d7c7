/** Time codes of the three subtitle formats (`parseSRTTime`,
    `parseASSTime`, `parseVTTTime` and the timing-line patterns of
    `parseSRT` and `parseVTT`). A time is a whole number of milliseconds:
    `H*3600 + M*60 + S + F/1000` seconds becomes `((H*60 + M)*60 + S)*1000 + F`
    and an ASS centisecond field counts ten milliseconds. The fields are
    not range-checked: "00:99:99,000" is 100 minutes 39 seconds. */
module TimeCodes {
  import opened Results
  import opened Strings
  import opened Patterns

  const MsPerHour: nat := 3_600_000

  /** `\d{hd}:\d{2}:\d{2}<sep>\d{fd}` */
  function Clock(hd: nat, sep: char, fd: nat): (p: seq<Class>)
    ensures |p| == hd + 7 + fd
  {
    seq(hd + 7 + fd, i =>
      if i == hd || i == hd + 3 then Lit(':') else if i == hd + 6 then Lit(sep) else AnyDigit)
  }

  /** `\d{2}:\d{2}:\d{2},\d{3}` of `parseSRTTime` */
  const SrtStamp: seq<Class> := Clock(2, ',', 3)
  /** `\d{2}:\d{2}:\d{2}\.\d{3}` of `parseVTTTime` */
  const VttStamp: seq<Class> := Clock(2, '.', 3)
  /** `\d{1,2}:\d{2}:\d{2}\.\d{2}` of `parseASSTime` is these two, the
      two-digit hour tried first */
  const AssStampLong: seq<Class> := Clock(2, '.', 2)
  const AssStampShort: seq<Class> := Clock(1, '.', 2)
  /** The literal " --> " between the two stamps of a timing line. */
  const RangeArrow: seq<Class> := [Lit(' '), Lit('-'), Lit('-'), Lit('>'), Lit(' ')]
  const SrtRange: seq<Class> := SrtStamp + RangeArrow + SrtStamp
  const VttRange: seq<Class> := VttStamp + RangeArrow + VttStamp

  /** Milliseconds per unit of the fraction field: 1 for `\d{3}`, 10 for `\d{2}`. */
  function FractionUnit(fd: nat): nat
  {
    if fd == 2 then 10 else 1
  }

  /** Milliseconds in a fraction field of `fd` digits holding `f`. */
  function FractionMs(f: nat, fd: nat): nat
  {
    if fd == 2 then f * 10 else f
  }

  /** Milliseconds denoted by the clock whose hour field starts at `k`. */
  function ClockMs(s: string, k: nat, hd: nat, fd: nat): nat
    requires k + hd + 7 + fd <= |s|
  {
    var h := DecimalValue(s[k..k + hd]);
    var m := DecimalValue(s[k + hd + 1..k + hd + 3]);
    var sec := DecimalValue(s[k + hd + 4..k + hd + 6]);
    var f := DecimalValue(s[k + hd + 7..k + hd + 7 + fd]);
    ((h * 60 + m) * 60 + sec) * 1000 + FractionMs(f, fd)
  }

  /** The largest value a two-digit-hour clock can denote: 99:99:99 and a full fraction. */
  const MaxClockMs: nat := ((99 * 60 + 99) * 60 + 99) * 1000 + 999

  lemma ClockMsBound(s: string, k: nat, hd: nat, fd: nat)
    requires k + hd + 7 + fd <= |s| && hd <= 2 && (fd == 2 || fd == 3)
    ensures ClockMs(s, k, hd, fd) <= MaxClockMs
  {
    var h := DecimalValue(s[k..k + hd]);
    var m := DecimalValue(s[k + hd + 1..k + hd + 3]);
    var sec := DecimalValue(s[k + hd + 4..k + hd + 6]);
    var f := DecimalValue(s[k + hd + 7..k + hd + 7 + fd]);
    assert h <= 99 by {
      DecimalBound(s[k..k + hd]);
      assert Pow10(hd) <= 100 by { assert Pow10(0) == 1 && Pow10(1) == 10 && Pow10(2) == 100; }
    }
    assert m <= 99 && sec <= 99 by {
      DecimalBound(s[k + hd + 1..k + hd + 3]);
      DecimalBound(s[k + hd + 4..k + hd + 6]);
      assert Pow10(2) == 100;
    }
    assert FractionMs(f, fd) <= 999 by {
      DecimalBound(s[k + hd + 7..k + hd + 7 + fd]);
      assert Pow10(2) == 100 && Pow10(3) == 1000;
    }
  }

  /** A clock with a two-digit fraction is a whole number of centiseconds. */
  lemma CentiClock(s: string, k: nat, hd: nat)
    requires k + hd + 9 <= |s|
    ensures ClockMs(s, k, hd, 2) % 10 == 0
  {
    var h := DecimalValue(s[k..k + hd]);
    var m := DecimalValue(s[k + hd + 1..k + hd + 3]);
    var sec := DecimalValue(s[k + hd + 4..k + hd + 6]);
    var f := DecimalValue(s[k + hd + 7..k + hd + 9]);
    assert ClockMs(s, k, hd, 2) == 10 * (((h * 60 + m) * 60 + sec) * 100 + f);
  }

  /** `parseSRTTime`: the leftmost `HH:MM:SS,mmm` in `s`, or 0 if there is none. */
  function SrtTime(s: string): (ms: nat)
    ensures ms <= MaxClockMs
    ensures (forall k :: !MatchesAt(SrtStamp, s, k)) ==> ms == 0
  {
    match FirstMatch(SrtStamp, s, 0)
    case None => 0
    case Some(k) =>
      ClockMsBound(s, k, 2, 3);
      ClockMs(s, k, 2, 3)
  }

  /** `parseVTTTime`: the leftmost `HH:MM:SS.mmm` in `s`, or 0 if there is none. */
  function VttTime(s: string): (ms: nat)
    ensures ms <= MaxClockMs
    ensures (forall k :: !MatchesAt(VttStamp, s, k)) ==> ms == 0
  {
    match FirstMatch(VttStamp, s, 0)
    case None => 0
    case Some(k) =>
      ClockMsBound(s, k, 2, 3);
      ClockMs(s, k, 2, 3)
  }

  /** `parseASSTime`: the leftmost `H:MM:SS.cc` or `HH:MM:SS.cc` in `s`, or 0. */
  function AssTime(s: string): (ms: nat)
    ensures ms <= MaxClockMs
    ensures ms % 10 == 0
    ensures (forall k :: !MatchesAt(AssStampLong, s, k) && !MatchesAt(AssStampShort, s, k)) ==> ms == 0
  {
    match FirstMatchOfTwo(AssStampLong, AssStampShort, s, 0)
    case None => 0
    case Some((k, short)) =>
      var hd := if short then 1 else 2;
      ClockMsBound(s, k, hd, 2);
      CentiClock(s, k, hd);
      ClockMs(s, k, hd, 2)
  }

  // ---------------------------------------------------------------------
  // rendering, the inverse direction

  /** `h:m:sec<sep>f` */
  function ClockText(h: string, m: string, sec: string, sep: char, f: string): string
  {
    h + [':'] + m + [':'] + sec + [sep] + f
  }

  predicate AllDigits(s: string)
  {
    forall i :: 0 <= i < |s| ==> IsDigit(s[i])
  }

  /** A clock written from digit fields matches the clock pattern and
      denotes the source's H*3600 + M*60 + S + fraction, whatever the
      field values (no field is range-checked). */
  lemma ClockTextValue(h: string, m: string, sec: string, sep: char, f: string)
    requires AllDigits(h) && AllDigits(m) && AllDigits(sec) && AllDigits(f)
    requires |m| == 2 && |sec| == 2 && (|f| == 2 || |f| == 3)
    ensures |ClockText(h, m, sec, sep, f)| == |h| + 7 + |f|
    ensures MatchesAt(Clock(|h|, sep, |f|), ClockText(h, m, sec, sep, f), 0)
    ensures ClockMs(ClockText(h, m, sec, sep, f), 0, |h|, |f|)
         == ((DecimalValue(h) * 60 + DecimalValue(m)) * 60 + DecimalValue(sec)) * 1000
            + FractionMs(DecimalValue(f), |f|)
  {
    ClockTextSlices(h, m, sec, sep, f);
    ClockTextMatches(h, m, sec, sep, f);
  }

  /** Where the fields sit in a clock text. */
  lemma ClockTextSlices(h: string, m: string, sec: string, sep: char, f: string)
    requires |m| == 2 && |sec| == 2
    ensures var t, hd := ClockText(h, m, sec, sep, f), |h|;
      && |t| == hd + 7 + |f|
      && t[0..hd] == h && t[hd + 1..hd + 3] == m && t[hd + 4..hd + 6] == sec && t[hd + 7..hd + 7 + |f|] == f
      && t[hd] == ':' && t[hd + 3] == ':' && t[hd + 6] == sep
  {
    var t, hd := ClockText(h, m, sec, sep, f), |h|;
    assert t == h + [':'] + m + [':'] + sec + [sep] + f;
    assert t[0..hd] == h;
    assert t[hd + 1..hd + 3] == m;
    assert t[hd + 4..hd + 6] == sec;
    assert t[hd + 7..hd + 7 + |f|] == f;
  }

  lemma ClockTextMatches(h: string, m: string, sec: string, sep: char, f: string)
    requires AllDigits(h) && AllDigits(m) && AllDigits(sec) && AllDigits(f)
    requires |m| == 2 && |sec| == 2
    ensures MatchesAt(Clock(|h|, sep, |f|), ClockText(h, m, sec, sep, f), 0)
  {
    var t, hd := ClockText(h, m, sec, sep, f), |h|;
    ClockTextSlices(h, m, sec, sep, f);
    var p := Clock(hd, sep, |f|);
    forall i | 0 <= i < |p|
      ensures Accepts(p[i], t[i])
    {
      if i < hd {
        assert t[i] == t[0..hd][i];
      } else if hd + 1 <= i < hd + 3 {
        assert t[i] == t[hd + 1..hd + 3][i - hd - 1];
      } else if hd + 4 <= i < hd + 6 {
        assert t[i] == t[hd + 4..hd + 6][i - hd - 4];
      } else if hd + 7 <= i {
        assert t[i] == t[hd + 7..hd + 7 + |f|][i - hd - 7];
      }
    }
  }

  /** The fields a time is rendered with. */
  function HoursOf(ms: nat): nat { ms / 1000 / 60 / 60 }
  function MinutesOf(ms: nat): nat { ms / 1000 / 60 % 60 }
  function SecondsOf(ms: nat): nat { ms / 1000 % 60 }
  function FractionOf(ms: nat, fd: nat): nat { if fd == 2 then ms % 1000 / 10 else ms % 1000 }

  /** Renders a time in the clock layout, truncating below the fraction unit. */
  function FormatClock(ms: nat, hd: nat, sep: char, fd: nat): string
  {
    ClockText(PadDecimal(HoursOf(ms), hd), PadDecimal(MinutesOf(ms), 2), PadDecimal(SecondsOf(ms), 2),
              sep, PadDecimal(FractionOf(ms, fd), fd))
  }

  /** A time is recomposed from its rendered fields, and the fields fit their widths. */
  lemma FieldsOfTime(ms: nat, hd: nat, fd: nat)
    requires fd == 2 || fd == 3
    requires ms < MsPerHour * Pow10(hd)
    requires fd == 3 || ms % 10 == 0
    ensures ms == ((HoursOf(ms) * 60 + MinutesOf(ms)) * 60 + SecondsOf(ms)) * 1000
                  + FractionMs(FractionOf(ms, fd), fd)
    ensures HoursOf(ms) < Pow10(hd) && MinutesOf(ms) < 60 && SecondsOf(ms) < 60
    ensures FractionOf(ms, fd) < Pow10(fd)
  {
    var q := ms / 1000;
    var t := q / 60;
    var h := t / 60;
    assert ms == ((h * 60 + t % 60) * 60 + q % 60) * 1000 + ms % 1000;
    assert h * MsPerHour <= ms;
    assert Pow10(2) == 100 && Pow10(3) == 1000;
  }

  /** Whole-number division undoes the mixed-radix composition of a clock. */
  lemma TimeOfFields(h: nat, m: nat, sec: nat, f: nat, fd: nat)
    requires fd == 2 || fd == 3
    requires m < 60 && sec < 60 && f < Pow10(fd)
    ensures var total := ComposeMs(h, m, sec, f, fd);
      HoursOf(total) == h && MinutesOf(total) == m && SecondsOf(total) == sec
      && FractionOf(total, fd) == f
  {
    assert Pow10(2) == 100 && Pow10(3) == 1000;
    var fm := FractionMs(f, fd);
    var t1 := (h * 60 + m) * 60 + sec;
    assert (t1 * 1000 + fm) / 1000 == t1 && (t1 * 1000 + fm) % 1000 == fm;
    assert t1 / 60 == h * 60 + m && t1 % 60 == sec;
    assert (h * 60 + m) / 60 == h && (h * 60 + m) % 60 == m;
  }

  /** Rendering a time and reading it back loses nothing when the hours fit
      the hour field and the time is a whole number of fraction units. */
  lemma FormatClockValue(ms: nat, hd: nat, sep: char, fd: nat)
    requires fd == 2 || fd == 3
    requires ms < MsPerHour * Pow10(hd)
    requires fd == 3 || ms % 10 == 0
    ensures |FormatClock(ms, hd, sep, fd)| == hd + 7 + fd
    ensures MatchesAt(Clock(hd, sep, fd), FormatClock(ms, hd, sep, fd), 0)
    ensures ClockMs(FormatClock(ms, hd, sep, fd), 0, hd, fd) == ms
  {
    FieldsOfTime(ms, hd, fd);
    DecimalOfPad(HoursOf(ms), hd);
    DecimalOfPad(MinutesOf(ms), 2);
    DecimalOfPad(SecondsOf(ms), 2);
    DecimalOfPad(FractionOf(ms, fd), fd);
    ClockTextValue(PadDecimal(HoursOf(ms), hd), PadDecimal(MinutesOf(ms), 2),
                   PadDecimal(SecondsOf(ms), 2), sep, PadDecimal(FractionOf(ms, fd), fd));
  }

  /** A text matching the clock pattern is the clock text of its four digit fields. */
  lemma ClockFields(s: string, hd: nat, sep: char, fd: nat)
    requires |s| == hd + 7 + fd && MatchesAt(Clock(hd, sep, fd), s, 0)
    ensures AllDigits(s[..hd]) && AllDigits(s[hd + 1..hd + 3])
    ensures AllDigits(s[hd + 4..hd + 6]) && AllDigits(s[hd + 7..])
    ensures s == ClockText(s[..hd], s[hd + 1..hd + 3], s[hd + 4..hd + 6], sep, s[hd + 7..])
  {
    ClockSeparators(s, hd, sep, fd);
    ClockDigits(s, hd, sep, fd);
    SplitClock(s, hd);
  }

  lemma ClockSeparators(s: string, hd: nat, sep: char, fd: nat)
    requires |s| == hd + 7 + fd && MatchesAt(Clock(hd, sep, fd), s, 0)
    ensures s[hd] == ':' && s[hd + 3] == ':' && s[hd + 6] == sep
  {
    var p := Clock(hd, sep, fd);
    assert Accepts(p[hd], s[hd]);
    assert Accepts(p[hd + 3], s[hd + 3]);
    assert Accepts(p[hd + 6], s[hd + 6]);
  }

  lemma ClockDigits(s: string, hd: nat, sep: char, fd: nat)
    requires |s| == hd + 7 + fd && MatchesAt(Clock(hd, sep, fd), s, 0)
    ensures AllDigits(s[..hd]) && AllDigits(s[hd + 1..hd + 3])
    ensures AllDigits(s[hd + 4..hd + 6]) && AllDigits(s[hd + 7..])
  {
    var p := Clock(hd, sep, fd);
    forall i | 0 <= i < |s| && i != hd && i != hd + 3 && i != hd + 6
      ensures IsDigit(s[i])
    {
      assert Accepts(p[i], s[i]);
    }
    SliceDigits(s, 0, hd);
    SliceDigits(s, hd + 1, hd + 3);
    SliceDigits(s, hd + 4, hd + 6);
    SliceDigits(s, hd + 7, |s|);
  }

  lemma SliceDigits(s: string, a: nat, b: nat)
    requires a <= b <= |s|
    requires forall i :: a <= i < b ==> IsDigit(s[i])
    ensures AllDigits(s[a..b])
  {
    forall i | 0 <= i < b - a
      ensures IsDigit(s[a..b][i])
    {
      assert s[a..b][i] == s[a + i];
    }
  }

  /** A text of clock length is its four fields and the three characters between them. */
  lemma SplitClock(s: string, hd: nat)
    requires |s| >= hd + 7
    ensures s == s[..hd] + [s[hd]] + s[hd + 1..hd + 3] + [s[hd + 3]] + s[hd + 4..hd + 6] + [s[hd + 6]] + s[hd + 7..]
  {
  }

  /** The time a clock denotes, composed from field values. */
  function ComposeMs(h: nat, m: nat, sec: nat, f: nat, fd: nat): nat
  {
    ((h * 60 + m) * 60 + sec) * 1000 + FractionMs(f, fd)
  }

  /** Rendering a time composed from in-range fields writes those fields back. */
  lemma FormatOfFields(h: nat, m: nat, sec: nat, f: nat, hd: nat, sep: char, fd: nat)
    requires fd == 2 || fd == 3
    requires m < 60 && sec < 60 && f < Pow10(fd)
    ensures FormatClock(ComposeMs(h, m, sec, f, fd), hd, sep, fd)
         == ClockText(PadDecimal(h, hd), PadDecimal(m, 2), PadDecimal(sec, 2), sep, PadDecimal(f, fd))
  {
    TimeOfFields(h, m, sec, f, fd);
  }

  /** A matching clock text is the padded rendering of its field values,
      and denotes their composition. */
  lemma ClockAsFields(s: string, hd: nat, sep: char, fd: nat)
    requires fd == 2 || fd == 3
    requires |s| == hd + 7 + fd && MatchesAt(Clock(hd, sep, fd), s, 0)
    ensures var h, m, sec, f := DecimalValue(s[..hd]), DecimalValue(s[hd + 1..hd + 3]),
                                DecimalValue(s[hd + 4..hd + 6]), DecimalValue(s[hd + 7..]);
      && s == ClockText(PadDecimal(h, hd), PadDecimal(m, 2), PadDecimal(sec, 2), sep, PadDecimal(f, fd))
      && ClockMs(s, 0, hd, fd) == ComposeMs(h, m, sec, f, fd)
      && f < Pow10(fd)
  {
    ClockFields(s, hd, sep, fd);
    ClockPadded(s, hd, sep, fd);
    ClockComposed(s, hd, fd);
  }

  lemma ClockPadded(s: string, hd: nat, sep: char, fd: nat)
    requires |s| == hd + 7 + fd
    requires AllDigits(s[..hd]) && AllDigits(s[hd + 1..hd + 3])
    requires AllDigits(s[hd + 4..hd + 6]) && AllDigits(s[hd + 7..])
    requires s == ClockText(s[..hd], s[hd + 1..hd + 3], s[hd + 4..hd + 6], sep, s[hd + 7..])
    ensures s == ClockText(PadDecimal(DecimalValue(s[..hd]), hd), PadDecimal(DecimalValue(s[hd + 1..hd + 3]), 2),
                           PadDecimal(DecimalValue(s[hd + 4..hd + 6]), 2), sep, PadDecimal(DecimalValue(s[hd + 7..]), fd))
  {
    PadOfDecimal(s[..hd]);
    PadOfDecimal(s[hd + 1..hd + 3]);
    PadOfDecimal(s[hd + 4..hd + 6]);
    PadOfDecimal(s[hd + 7..]);
  }

  lemma ClockComposed(s: string, hd: nat, fd: nat)
    requires |s| == hd + 7 + fd
    ensures ClockMs(s, 0, hd, fd)
         == ComposeMs(DecimalValue(s[..hd]), DecimalValue(s[hd + 1..hd + 3]),
                      DecimalValue(s[hd + 4..hd + 6]), DecimalValue(s[hd + 7..]), fd)
    ensures DecimalValue(s[hd + 7..]) < Pow10(fd)
  {
    assert s[0..hd] == s[..hd];
    assert s[hd + 7..hd + 7 + fd] == s[hd + 7..];
    DecimalBound(s[hd + 7..]);
  }

  /** Reading a clock whose minutes and seconds are below 60 and rendering
      the time again reproduces the text exactly. */
  lemma ClockCanonical(s: string, hd: nat, sep: char, fd: nat)
    requires fd == 2 || fd == 3
    requires |s| == hd + 7 + fd && MatchesAt(Clock(hd, sep, fd), s, 0)
    requires DecimalValue(s[hd + 1..hd + 3]) < 60 && DecimalValue(s[hd + 4..hd + 6]) < 60
    ensures FormatClock(ClockMs(s, 0, hd, fd), hd, sep, fd) == s
  {
    ClockAsFields(s, hd, sep, fd);
    FormatOfFields(DecimalValue(s[..hd]), DecimalValue(s[hd + 1..hd + 3]),
                   DecimalValue(s[hd + 4..hd + 6]), DecimalValue(s[hd + 7..]), hd, sep, fd);
  }

  // ---------------------------------------------------------------------
  // the per-format statements

  /** `HH:MM:SS,mmm` */
  function FormatSrtTime(ms: nat): string
  {
    FormatClock(ms, 2, ',', 3)
  }

  /** `HH:MM:SS.mmm` */
  function FormatVttTime(ms: nat): string
  {
    FormatClock(ms, 2, '.', 3)
  }

  /** `H:MM:SS.cc`, with a second hour digit from ten hours on. */
  function FormatAssTime(ms: nat): string
  {
    FormatClock(ms, if ms < 10 * MsPerHour then 1 else 2, '.', 2)
  }

  /** `parseSRTTime` of `HH:MM:SS,mmm` is ((H*60 + M)*60 + S)*1000 + mmm milliseconds. */
  lemma SrtTimeOfFields(h: string, m: string, sec: string, f: string)
    requires AllDigits(h) && AllDigits(m) && AllDigits(sec) && AllDigits(f)
    requires |h| == 2 && |m| == 2 && |sec| == 2 && |f| == 3
    ensures SrtTime(ClockText(h, m, sec, ',', f))
         == ((DecimalValue(h) * 60 + DecimalValue(m)) * 60 + DecimalValue(sec)) * 1000 + DecimalValue(f)
  {
    var t := ClockText(h, m, sec, ',', f);
    ClockTextValue(h, m, sec, ',', f);
    FirstMatchAt(SrtStamp, t, 0, 0);
    assert SrtTime(t) == ClockMs(t, 0, 2, 3);
  }

  /** `parseVTTTime` of `HH:MM:SS.mmm` is ((H*60 + M)*60 + S)*1000 + mmm milliseconds. */
  lemma VttTimeOfFields(h: string, m: string, sec: string, f: string)
    requires AllDigits(h) && AllDigits(m) && AllDigits(sec) && AllDigits(f)
    requires |h| == 2 && |m| == 2 && |sec| == 2 && |f| == 3
    ensures VttTime(ClockText(h, m, sec, '.', f))
         == ((DecimalValue(h) * 60 + DecimalValue(m)) * 60 + DecimalValue(sec)) * 1000 + DecimalValue(f)
  {
    ClockTextValue(h, m, sec, '.', f);
    FirstMatchAt(VttStamp, ClockText(h, m, sec, '.', f), 0, 0);
  }

  /** `parseASSTime` of `H:MM:SS.cc` (one or two hour digits) is
      ((H*60 + M)*60 + S)*1000 + cc*10 milliseconds. */
  lemma AssTimeOfFields(h: string, m: string, sec: string, f: string)
    requires AllDigits(h) && AllDigits(m) && AllDigits(sec) && AllDigits(f)
    requires (|h| == 1 || |h| == 2) && |m| == 2 && |sec| == 2 && |f| == 2
    ensures AssTime(ClockText(h, m, sec, '.', f))
         == ((DecimalValue(h) * 60 + DecimalValue(m)) * 60 + DecimalValue(sec)) * 1000 + DecimalValue(f) * 10
  {
    var t := ClockText(h, m, sec, '.', f);
    ClockTextValue(h, m, sec, '.', f);
    if |h| == 1 {
      assert t[1] == ':';
      assert !MatchesAt(AssStampLong, t, 0) by {
        assert !Accepts(AssStampLong[1], t[1]);
      }
    } else {
    }
  }

  /** SRT time codes round-trip for every time below 100 hours. */
  lemma SrtTimeRoundTrip(ms: nat)
    requires ms < 100 * MsPerHour
    ensures |FormatSrtTime(ms)| == 12 && MatchesAt(SrtStamp, FormatSrtTime(ms), 0)
    ensures SrtTime(FormatSrtTime(ms)) == ms
  {
    FormatClockValue(ms, 2, ',', 3);
    FirstMatchAt(SrtStamp, FormatSrtTime(ms), 0, 0);
  }

  /** VTT time codes round-trip for every time below 100 hours. */
  lemma VttTimeRoundTrip(ms: nat)
    requires ms < 100 * MsPerHour
    ensures |FormatVttTime(ms)| == 12 && MatchesAt(VttStamp, FormatVttTime(ms), 0)
    ensures VttTime(FormatVttTime(ms)) == ms
  {
    FormatClockValue(ms, 2, '.', 3);
    FirstMatchAt(VttStamp, FormatVttTime(ms), 0, 0);
  }

  /** ASS time codes round-trip for every whole number of centiseconds below 100 hours. */
  lemma AssTimeRoundTrip(ms: nat)
    requires ms < 100 * MsPerHour && ms % 10 == 0
    ensures AssTime(FormatAssTime(ms)) == ms
  {
    var t := FormatAssTime(ms);
    if ms < 10 * MsPerHour {
      FormatClockValue(ms, 1, '.', 2);
      assert !MatchesAt(AssStampLong, t, 0) by {
        assert Accepts(Clock(1, '.', 2)[1], t[1]);
        assert !Accepts(AssStampLong[1], t[1]);
      }
    } else {
      FormatClockValue(ms, 2, '.', 2);
    }
  }

  /** An SRT time code with minutes and seconds below 60 is reproduced by
      reading and re-rendering it. */
  lemma SrtTimeCanonical(s: string)
    requires |s| == 12 && MatchesAt(SrtStamp, s, 0)
    requires DecimalValue(s[3..5]) < 60 && DecimalValue(s[6..8]) < 60
    ensures FormatSrtTime(SrtTime(s)) == s
  {
    FirstMatchAt(SrtStamp, s, 0, 0);
    ClockCanonical(s, 2, ',', 3);
  }

  /** A VTT time code with minutes and seconds below 60 is reproduced by
      reading and re-rendering it. */
  lemma VttTimeCanonical(s: string)
    requires |s| == 12 && MatchesAt(VttStamp, s, 0)
    requires DecimalValue(s[3..5]) < 60 && DecimalValue(s[6..8]) < 60
    ensures FormatVttTime(VttTime(s)) == s
  {
    FirstMatchAt(VttStamp, s, 0, 0);
    ClockCanonical(s, 2, '.', 3);
  }

  /** An ASS time code with minutes and seconds below 60 is reproduced by
      reading and re-rendering it, when its hour has the width the writer
      gives it: one digit below ten hours, two without a leading zero from
      ten hours on. */
  lemma AssTimeCanonical(s: string)
    requires || (|s| == 10 && MatchesAt(AssStampShort, s, 0))
             || (|s| == 11 && MatchesAt(AssStampLong, s, 0) && s[0] != '0')
    requires DecimalValue(s[|s| - 8..|s| - 6]) < 60 && DecimalValue(s[|s| - 5..|s| - 3]) < 60
    ensures FormatAssTime(AssTime(s)) == s
  {
    var hd := |s| - 9;
    if hd == 1 {
      assert !MatchesAt(AssStampLong, s, 0) by {
        assert Accepts(AssStampShort[1], s[1]);
        assert !Accepts(AssStampLong[1], s[1]);
      }
    }
    assert AssTime(s) == ClockMs(s, 0, hd, 2);
    HourWidth(s, hd);
    ClockCanonical(s, hd, '.', 2);
  }

  /** The hour field of a canonical ASS stamp decides the width the writer
      picks: below ten hours for one digit, from ten hours on for two. */
  lemma HourWidth(s: string, hd: nat)
    requires hd == 1 || hd == 2
    requires |s| == hd + 9 && MatchesAt(Clock(hd, '.', 2), s, 0)
    requires hd == 2 ==> s[0] != '0'
    requires DecimalValue(s[hd + 1..hd + 3]) < 60 && DecimalValue(s[hd + 4..hd + 6]) < 60
    ensures hd == 1 ==> ClockMs(s, 0, hd, 2) < 10 * MsPerHour
    ensures hd == 2 ==> 10 * MsPerHour <= ClockMs(s, 0, hd, 2) < 100 * MsPerHour
  {
    var h := DecimalValue(s[0..hd]);
    var f := DecimalValue(s[hd + 7..hd + 9]);
    assert f < 100 by {
      DecimalBound(s[hd + 7..hd + 9]);
      assert Pow10(2) == 100;
    }
    if hd == 1 {
      assert h < 10 by {
        DecimalBound(s[0..1]);
        assert Pow10(1) == 10;
      }
    } else {
      assert Accepts(Clock(hd, '.', 2)[0], s[0]) && Accepts(Clock(hd, '.', 2)[1], s[1]);
      assert s[0..2][..1] == s[0..1];
      assert 10 <= h < 100 by {
        DecimalBound(s[0..1]);
        assert DecimalValue(s[0..1]) == DigitValue(s[0]);
        assert Pow10(1) == 10;
      }
    }
  }

  // ---------------------------------------------------------------------
  // timing lines

  /** The timing-line test of `parseSRT`: the leftmost
      `HH:MM:SS,mmm --> HH:MM:SS,mmm` in the line, each captured stamp then
      read by `parseSRTTime`. */
  function SrtTimingLine(line: string): (r: Option<(nat, nat)>)
    ensures r.None? <==> forall k :: !MatchesAt(SrtRange, line, k)
    ensures r.Some? ==> r.value.0 <= MaxClockMs && r.value.1 <= MaxClockMs
  {
    match FirstMatch(SrtRange, line, 0)
    case None => None
    case Some(k) => Some((SrtTime(line[k..k + 12]), SrtTime(line[k + 17..k + 29])))
  }

  /** An SRT timing line's times are those of the leftmost range in it,
      each stamp read by `parseSRTTime`. */
  lemma SrtTimingLineLeftmost(line: string)
    requires SrtTimingLine(line).Some?
    ensures exists k: nat :: MatchesAt(SrtRange, line, k) && (forall j :: 0 <= j < k ==> !MatchesAt(SrtRange, line, j))
              && SrtTimingLine(line).value == (SrtTime(line[k..k + 12]), SrtTime(line[k + 17..k + 29]))
  {
    var k := FirstMatch(SrtRange, line, 0).value;
    assert MatchesAt(SrtRange, line, k);
  }

  /** The timing-line test of `parseVTT`: the leftmost
      `HH:MM:SS.mmm --> HH:MM:SS.mmm` in the line, each captured stamp then
      read by `parseVTTTime`. */
  function VttTimingLine(line: string): (r: Option<(nat, nat)>)
    ensures r.None? <==> forall k :: !MatchesAt(VttRange, line, k)
    ensures r.Some? ==> r.value.0 <= MaxClockMs && r.value.1 <= MaxClockMs
  {
    match FirstMatch(VttRange, line, 0)
    case None => None
    case Some(k) => Some((VttTime(line[k..k + 12]), VttTime(line[k + 17..k + 29])))
  }

  /** A WebVTT timing line's times are those of the leftmost range in it,
      each stamp read by `parseVTTTime`. */
  lemma VttTimingLineLeftmost(line: string)
    requires VttTimingLine(line).Some?
    ensures exists k: nat :: MatchesAt(VttRange, line, k) && (forall j :: 0 <= j < k ==> !MatchesAt(VttRange, line, j))
              && VttTimingLine(line).value == (VttTime(line[k..k + 12]), VttTime(line[k + 17..k + 29]))
  {
    var k := FirstMatch(VttRange, line, 0).value;
    assert MatchesAt(VttRange, line, k);
  }

  /** Two stamps joined by " --> " match the range pattern built from them. */
  lemma RangeTextMatches(stamp: seq<Class>, a: string, b: string)
    requires |a| == |stamp| && MatchesAt(stamp, a, 0)
    requires |b| == |stamp| && MatchesAt(stamp, b, 0)
    ensures MatchesAt(stamp + RangeArrow + stamp, a + " --> " + b, 0)
    ensures (a + " --> " + b)[0..|stamp|] == a
    ensures (a + " --> " + b)[|stamp| + 5..|stamp| + 5 + |stamp|] == b
  {
    var t := a + " --> " + b;
    var n := |stamp|;
    assert t[0..n] == a;
    assert t[n + 5..n + 5 + n] == b;
    MatchesInSlice(stamp, t, 0, n, 0);
    MatchesInSlice(stamp, t, n + 5, n + 5 + n, 0);
    assert MatchesAt(RangeArrow, t, n) by {
      assert t[n..n + 5] == " --> ";
      forall i | 0 <= i < 5
        ensures Accepts(RangeArrow[i], t[n + i])
      {
        assert t[n + i] == " --> "[i];
      }
    }
    MatchesConcat(stamp, RangeArrow, t, 0);
    MatchesConcat(stamp + RangeArrow, stamp, t, 0);
  }

  /** A line whose range pattern matches at its start yields the times of
      its first 12 and its last 12 characters. */
  lemma SrtTimingLineAtStart(t: string)
    requires MatchesAt(SrtRange, t, 0)
    ensures SrtTimingLine(t) == Some((SrtTime(t[0..12]), SrtTime(t[17..29])))
  {
    FirstMatchAt(SrtRange, t, 0, 0);
  }

  lemma VttTimingLineAtStart(t: string)
    requires MatchesAt(VttRange, t, 0)
    ensures VttTimingLine(t) == Some((VttTime(t[0..12]), VttTime(t[17..29])))
  {
    FirstMatchAt(VttRange, t, 0, 0);
  }

  /** A timing line written from two times below 100 hours reads back as
      exactly those times. */
  lemma SrtTimingLineRoundTrip(start: nat, end: nat)
    requires start < 100 * MsPerHour && end < 100 * MsPerHour
    ensures SrtTimingLine(FormatSrtTime(start) + " --> " + FormatSrtTime(end)) == Some((start, end))
  {
    var a, b := FormatSrtTime(start), FormatSrtTime(end);
    SrtTimeRoundTrip(start);
    SrtTimeRoundTrip(end);
    RangeTextMatches(SrtStamp, a, b);
    SrtTimingLineAtStart(a + " --> " + b);
  }

  /** A timing line written from two times below 100 hours reads back as
      exactly those times. */
  lemma VttTimingLineRoundTrip(start: nat, end: nat)
    requires start < 100 * MsPerHour && end < 100 * MsPerHour
    ensures VttTimingLine(FormatVttTime(start) + " --> " + FormatVttTime(end)) == Some((start, end))
  {
    var a, b := FormatVttTime(start), FormatVttTime(end);
    VttTimeRoundTrip(start);
    VttTimeRoundTrip(end);
    RangeTextMatches(VttStamp, a, b);
    VttTimingLineAtStart(a + " --> " + b);
  }
}
