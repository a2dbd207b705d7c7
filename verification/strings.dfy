/** String helpers with the meaning the JavaScript built-ins give them:
    `trim`, `split`/`join` on one separator character, `startsWith`,
    ASCII decimal digits and zero-padded decimal rendering. */
module Strings {

  /** The ECMAScript WhiteSpace and LineTerminator code points, i.e. exactly
      the characters `String.prototype.trim` removes (including '\r'). */
  predicate IsWhitespace(c: char)
  {
    var n := c as int;
    n == 0x09 || n == 0x0A || n == 0x0B || n == 0x0C || n == 0x0D || n == 0x20
    || n == 0xA0 || n == 0x1680 || (0x2000 <= n <= 0x200A)
    || n == 0x2028 || n == 0x2029 || n == 0x202F || n == 0x205F
    || n == 0x3000 || n == 0xFEFF
  }

  /** Every character is whitespace (the empty string is blank). */
  predicate IsBlank(s: string)
  {
    forall i :: 0 <= i < |s| ==> IsWhitespace(s[i])
  }

  /** Drops leading whitespace. */
  function TrimStart(s: string): (r: string)
    ensures |r| <= |s|
  {
    if |s| > 0 && IsWhitespace(s[0]) then TrimStart(s[1..]) else s
  }

  /** What `TrimStart` leaves: a suffix of its input, after a blank prefix,
      that does not start with whitespace. */
  lemma {:induction false} TrimStartShape(s: string)
    ensures TrimStart(s) == s[|s| - |TrimStart(s)|..]
    ensures IsBlank(s[..|s| - |TrimStart(s)|])
    ensures TrimStart(s) == [] || !IsWhitespace(TrimStart(s)[0])
    decreases |s|
  {
    if |s| > 0 && IsWhitespace(s[0]) {
      var r := TrimStart(s[1..]);
      TrimStartShape(s[1..]);
      assert s[1..][..|s| - 1 - |r|] == s[1..|s| - |r|];
    }
  }

  /** Drops trailing whitespace. */
  function TrimEnd(s: string): (r: string)
    ensures |r| <= |s|
  {
    if |s| > 0 && IsWhitespace(s[|s| - 1]) then TrimEnd(s[..|s| - 1]) else s
  }

  /** What `TrimEnd` leaves: a prefix of its input, before a blank suffix,
      that does not end with whitespace. */
  lemma {:induction false} TrimEndShape(s: string)
    ensures TrimEnd(s) == s[..|TrimEnd(s)|]
    ensures IsBlank(s[|TrimEnd(s)|..])
    ensures TrimEnd(s) == [] || !IsWhitespace(TrimEnd(s)[|TrimEnd(s)| - 1])
    decreases |s|
  {
    if |s| > 0 && IsWhitespace(s[|s| - 1]) {
      var r := TrimEnd(s[..|s| - 1]);
      TrimEndShape(s[..|s| - 1]);
      assert s[..|s| - 1][|r|..] == s[|r|..|s| - 1];
    }
  }

  /** Number of leading whitespace characters. */
  function LeadingBlanks(s: string): (n: nat)
    ensures n <= |s|
  {
    |s| - |TrimStart(s)|
  }

  /** `String.prototype.trim` */
  function Trim(s: string): string
  {
    TrimEnd(TrimStart(s))
  }

  /** What `trim` leaves: the slice of `s` between a blank prefix and a
      blank suffix, neither starting nor ending with whitespace. */
  lemma TrimShape(s: string)
    ensures LeadingBlanks(s) + |Trim(s)| <= |s|
    ensures Trim(s) == s[LeadingBlanks(s)..LeadingBlanks(s) + |Trim(s)|]
    ensures IsBlank(s[..LeadingBlanks(s)]) && IsBlank(s[LeadingBlanks(s) + |Trim(s)|..])
    ensures Trim(s) == [] || (!IsWhitespace(Trim(s)[0]) && !IsWhitespace(Trim(s)[|Trim(s)| - 1]))
  {
    var t := TrimStart(s);
    var r := TrimEnd(t);
    TrimStartShape(s);
    TrimEndShape(t);
    assert t[|r|..] == s[LeadingBlanks(s) + |r|..];
  }

  /** A trimmed string is empty exactly when the input was blank. */
  lemma TrimEmptyIffBlank(s: string)
    ensures Trim(s) == [] <==> IsBlank(s)
  {
    TrimShape(s);
    var n := LeadingBlanks(s);
    if Trim(s) == [] {
      forall i | 0 <= i < |s|
        ensures IsWhitespace(s[i])
      {
        if i < n {
          assert s[..n][i] == s[i];
        } else {
          assert s[n..][i - n] == s[i];
        }
      }
    } else {
      assert s[n] == Trim(s)[0];
    }
  }

  lemma {:induction false} TrimStartSkips(a: string, m: string)
    requires IsBlank(a)
    requires m == [] || !IsWhitespace(m[0])
    ensures TrimStart(a + m) == m
    decreases |a|
  {
    if |a| == 0 {
      assert a + m == m;
    } else {
      assert (a + m)[1..] == a[1..] + m;
      TrimStartSkips(a[1..], m);
    }
  }

  lemma {:induction false} TrimEndSkips(m: string, b: string)
    requires IsBlank(b)
    requires m == [] || !IsWhitespace(m[|m| - 1])
    ensures TrimEnd(m + b) == m
    decreases |b|
  {
    if |b| == 0 {
      assert m + b == m;
    } else {
      assert (m + b)[..|m + b| - 1] == m + b[..|b| - 1];
      TrimEndSkips(m, b[..|b| - 1]);
    }
  }

  /** Characterisation of `trim`: whatever blank runs surround a string that
      neither starts nor ends with whitespace, trimming recovers it. */
  lemma TrimExact(a: string, m: string, b: string)
    requires IsBlank(a) && IsBlank(b)
    requires m == [] || (!IsWhitespace(m[0]) && !IsWhitespace(m[|m| - 1]))
    ensures Trim(a + m + b) == m
  {
    if m == [] {
      assert a + m + b == a + b;
      assert IsBlank(a + b);
      TrimEmptyIffBlank(a + b);
    } else {
      assert a + m + b == a + (m + b);
      TrimStartSkips(a, m + b);
      TrimEndSkips(m, b);
    }
  }

  /** Whitespace appended to a string is trimmed away with the string's own. */
  lemma TrimBlankSuffix(x: string, w: string)
    requires IsBlank(w)
    ensures Trim(x + w) == Trim(x)
  {
    TrimShape(x);
    var n := LeadingBlanks(x);
    var m := Trim(x);
    var a, b := x[..n], x[n + |m|..];
    assert x == a + m + b;
    assert x + w == a + m + (b + w);
    assert IsBlank(b + w) by {
      forall i | 0 <= i < |b + w|
        ensures IsWhitespace((b + w)[i])
      {
        if i >= |b| {
          assert (b + w)[i] == w[i - |b|];
        }
      }
    }
    TrimExact(a, m, b + w);
  }

  /** Trimming twice is trimming once. */
  lemma TrimIdempotent(s: string)
    ensures Trim(Trim(s)) == Trim(s)
  {
    var r := Trim(s);
    TrimShape(s);
    assert [] + r + [] == r;
    TrimExact([], r, []);
  }

  // ---------------------------------------------------------------------
  // split / join

  /** Number of occurrences of `c` in `s`. */
  function Count(s: string, c: char): nat
  {
    if |s| == 0 then 0 else (if s[0] == c then 1 else 0) + Count(s[1..], c)
  }

  /** `s.split(sep)` for a one-character separator: the maximal
      separator-free pieces, one more than there are separators. */
  function Split(s: string, sep: char): (r: seq<string>)
    ensures |r| == Count(s, sep) + 1
    ensures forall i :: 0 <= i < |r| ==> sep !in r[i]
  {
    if |s| == 0 then [""]
    else
      var rest := Split(s[1..], sep);
      if s[0] == sep then [""] + rest
      else
        assert forall i :: 1 <= i < |rest| ==> rest[1..][i - 1] == rest[i];
        [[s[0]] + rest[0]] + rest[1..]
  }

  /** `parts.join(sep)`. */
  function Join(parts: seq<string>, sep: char): string
  {
    if |parts| == 0 then ""
    else if |parts| == 1 then parts[0]
    else parts[0] + [sep] + Join(parts[1..], sep)
  }

  lemma JoinConsHead(x: string, parts: seq<string>, sep: char)
    requires |parts| >= 1
    ensures Join([x + parts[0]] + parts[1..], sep) == x + Join(parts, sep)
  {
    var q := [x + parts[0]] + parts[1..];
    if |parts| > 1 {
      assert q[1..] == parts[1..];
    }
  }

  /** Joining the pieces of a split gives the original string back. */
  lemma {:induction false} JoinSplit(s: string, sep: char)
    ensures Join(Split(s, sep), sep) == s
    decreases |s|
  {
    if |s| > 0 {
      var rest := Split(s[1..], sep);
      JoinSplit(s[1..], sep);
      if s[0] == sep {
        assert ([""] + rest)[1..] == rest;
      } else {
        JoinConsHead([s[0]], rest, sep);
      }
      assert s == [s[0]] + s[1..];
    }
  }

  lemma {:induction false} SplitNoSeparator(x: string, sep: char)
    requires sep !in x
    ensures Split(x, sep) == [x]
    decreases |x|
  {
    if |x| > 0 {
      SplitNoSeparator(x[1..], sep);
      assert x == [x[0]] + x[1..];
    }
  }

  lemma {:induction false} SplitAtSeparator(x: string, y: string, sep: char)
    requires sep !in x
    ensures Split(x + [sep] + y, sep) == [x] + Split(y, sep)
    decreases |x|
  {
    var s := x + [sep] + y;
    if |x| == 0 {
      assert s[1..] == y;
    } else {
      assert s[1..] == x[1..] + [sep] + y;
      SplitAtSeparator(x[1..], y, sep);
      assert x == [x[0]] + x[1..];
    }
  }

  /** Splitting the join of separator-free pieces gives the pieces back. */
  lemma {:induction false} SplitJoin(parts: seq<string>, sep: char)
    requires |parts| >= 1
    requires forall i :: 0 <= i < |parts| ==> sep !in parts[i]
    ensures Split(Join(parts, sep), sep) == parts
    decreases |parts|
  {
    if |parts| == 1 {
      SplitNoSeparator(parts[0], sep);
    } else {
      SplitJoin(parts[1..], sep);
      SplitAtSeparator(parts[0], Join(parts[1..], sep), sep);
      assert parts == [parts[0]] + parts[1..];
    }
  }

  /** Joining two non-empty runs of pieces puts one separator between them. */
  lemma {:induction false} JoinAppend(a: seq<string>, b: seq<string>, sep: char)
    requires |a| >= 1 && |b| >= 1
    ensures Join(a + b, sep) == Join(a, sep) + [sep] + Join(b, sep)
    decreases |a|
  {
    if |a| == 1 {
      assert (a + b)[1..] == b;
    } else {
      assert (a + b)[1..] == a[1..] + b;
      JoinAppend(a[1..], b, sep);
    }
  }

  /** Splitting separator-free pieces joined and followed by a separator and
      `rest` gives the pieces back, then the pieces of `rest`. */
  lemma SplitAfterJoin(head: seq<string>, rest: string, sep: char)
    requires |head| >= 1
    requires forall i :: 0 <= i < |head| ==> sep !in head[i]
    ensures Split(Join(head, sep) + [sep] + rest, sep) == head + Split(rest, sep)
  {
    var tail := Split(rest, sep);
    var parts := head + tail;
    JoinSplit(rest, sep);
    JoinAppend(head, tail, sep);
    forall i | 0 <= i < |parts|
      ensures sep !in parts[i]
    {
      if i >= |head| {
        assert parts[i] == tail[i - |head|];
      }
    }
    SplitJoin(parts, sep);
  }

  /** `s.startsWith(p)`. */
  predicate StartsWith(s: string, p: string)
  {
    |p| <= |s| && s[..|p|] == p
  }

  /** `t` occurs in `s` starting at `k`. */
  predicate OccursAt(s: string, t: string, k: nat)
  {
    k + |t| <= |s| && s[k..k + |t|] == t
  }

  /** `s.includes(t)`. */
  predicate Includes(s: string, t: string)
  {
    exists k :: 0 <= k <= |s| && OccursAt(s, t, k)
  }

  lemma SliceOfSlice(s: string, a: nat, b: nat, c: nat, d: nat)
    requires a <= b <= |s| && c <= d <= b - a
    ensures s[a..b][c..d] == s[a + c..a + d]
  {
    forall i | 0 <= i < d - c
      ensures s[a..b][c..d][i] == s[a + c..a + d][i]
    {
      assert s[a..b][c..d][i] == s[a..b][c + i] == s[a + c + i];
    }
  }

  /** A pattern without whitespace occurs in a string exactly when it
      occurs in the trimmed string: trimming only removes whitespace. */
  lemma IncludesTrim(s: string, t: string)
    requires |t| > 0 && forall i :: 0 <= i < |t| ==> !IsWhitespace(t[i])
    ensures Includes(Trim(s), t) <==> Includes(s, t)
  {
    TrimShape(s);
    var n, m := LeadingBlanks(s), |Trim(s)|;
    if Includes(Trim(s), t) {
      var k :| 0 <= k <= m && OccursAt(Trim(s), t, k);
      OccursInSlice(s, n, n + m, t, k);
    }
    if Includes(s, t) {
      var k :| 0 <= k <= |s| && OccursAt(s, t, k);
      OccursBetweenBlanks(s, n, m, t, k);
    }
  }

  /** An occurrence inside a slice is an occurrence in the whole string. */
  lemma OccursInSlice(s: string, a: nat, b: nat, t: string, k: nat)
    requires a <= b <= |s| && OccursAt(s[a..b], t, k)
    ensures OccursAt(s, t, a + k)
  {
    SliceOfSlice(s, a, b, k, k + |t|);
  }

  /** An occurrence of a pattern without whitespace lies wholly between a
      blank prefix and a blank suffix. */
  lemma OccursBetweenBlanks(s: string, n: nat, m: nat, t: string, k: nat)
    requires n + m <= |s| && IsBlank(s[..n]) && IsBlank(s[n + m..])
    requires |t| > 0 && forall i :: 0 <= i < |t| ==> !IsWhitespace(t[i])
    requires OccursAt(s, t, k)
    ensures n <= k && k + |t| <= n + m && OccursAt(s[n..n + m], t, k - n)
  {
    var e := k + |t| - 1;
    assert s[k] == t[0] && s[e] == t[|t| - 1];
    assert forall i :: 0 <= i < n ==> s[..n][i] == s[i];
    assert forall i :: n + m <= i < |s| ==> s[n + m..][i - (n + m)] == s[i];
    assert n <= k && e < n + m;
    SliceOfSlice(s, n, n + m, k - n, k - n + |t|);
  }

  /** ASCII-only `toLowerCase`. */
  function LowerAscii(s: string): string
  {
    seq(|s|, i requires 0 <= i < |s| =>
      if 'A' <= s[i] <= 'Z' then (s[i] as int + 32) as char else s[i])
  }

  // ---------------------------------------------------------------------
  // decimal digits

  /** The regular-expression class `\d`: ASCII digits only. */
  predicate IsDigit(c: char)
  {
    '0' <= c <= '9'
  }

  /** A non-empty string of ASCII digits. */
  predicate IsDecimal(s: string)
  {
    |s| > 0 && forall i :: 0 <= i < |s| ==> IsDigit(s[i])
  }

  function DigitValue(c: char): nat
  {
    if IsDigit(c) then c as int - '0' as int else 0
  }

  function DigitChar(d: nat): char
    requires d < 10
  {
    ('0' as int + d) as char
  }

  function Pow10(n: nat): (p: nat)
    ensures p >= 1
  {
    if n == 0 then 1 else 10 * Pow10(n - 1)
  }

  /** `parseInt` of a string of decimal digits. */
  function DecimalValue(s: string): nat
  {
    if |s| == 0 then 0 else DecimalValue(s[..|s| - 1]) * 10 + DigitValue(s[|s| - 1])
  }

  /** The `width` low-order decimal digits of `n`, zero-padded. */
  function PadDecimal(n: nat, width: nat): (r: string)
    ensures |r| == width
    ensures forall i :: 0 <= i < |r| ==> IsDigit(r[i])
  {
    if width == 0 then "" else PadDecimal(n / 10, width - 1) + [DigitChar(n % 10)]
  }

  /** A number below 10^w survives rendering in w digits and reading back. */
  lemma {:induction false} DecimalOfPad(n: nat, width: nat)
    requires n < Pow10(width)
    ensures DecimalValue(PadDecimal(n, width)) == n
    decreases width
  {
    if width > 0 {
      var r := PadDecimal(n, width);
      assert r[..|r| - 1] == PadDecimal(n / 10, width - 1);
      DecimalOfPad(n / 10, width - 1);
    }
  }

  /** Reading a digit string and rendering it in as many digits gives it back. */
  lemma {:induction false} PadOfDecimal(s: string)
    requires forall i :: 0 <= i < |s| ==> IsDigit(s[i])
    ensures PadDecimal(DecimalValue(s), |s|) == s
    decreases |s|
  {
    if |s| > 0 {
      var init := s[..|s| - 1];
      PadOfDecimal(init);
      var v := DecimalValue(init);
      var d := DigitValue(s[|s| - 1]);
      assert (v * 10 + d) / 10 == v;
      assert (v * 10 + d) % 10 == d;
      assert s == init + [s[|s| - 1]];
    }
  }

  /** A digit string of length w denotes a number below 10^w. */
  lemma {:induction false} DecimalBound(s: string)
    ensures DecimalValue(s) < Pow10(|s|)
    decreases |s|
  {
    if |s| > 0 {
      DecimalBound(s[..|s| - 1]);
    }
  }
}
