/** The regular expressions of the subtitle parser, all of which are
    fixed-width sequences of `\d` and literal characters (the one
    `\d{1,2}` is written as two alternatives, longer first, as a greedy
    quantifier tries them). `String.prototype.match` with such a pattern
    and no `g` flag reports the leftmost position where some alternative
    matches; `FirstMatch` and `FirstMatchOfTwo` model exactly that. */
module Patterns {
  import opened Results
  import Strings

  /** One position of a fixed-width pattern: `\d` or a literal character. */
  datatype Class = AnyDigit | Lit(c: char)

  predicate Accepts(k: Class, c: char)
  {
    match k
    case AnyDigit => Strings.IsDigit(c)
    case Lit(x) => c == x
  }

  /** The pattern matches the |p| characters of `s` starting at `k`. */
  predicate MatchesAt(p: seq<Class>, s: string, k: nat)
  {
    k + |p| <= |s| && forall i :: 0 <= i < |p| ==> Accepts(p[i], s[k + i])
  }

  /** A fixed-width pattern only looks at the characters it covers: a match
      inside a slice is a match in the whole string, and conversely. */
  lemma MatchesInSlice(p: seq<Class>, s: string, a: nat, b: nat, k: nat)
    requires a <= b <= |s| && a + k + |p| <= b
    ensures MatchesAt(p, s[a..b], k) <==> MatchesAt(p, s, a + k)
  {
    var t := s[a..b];
    forall i | 0 <= i < |p|
      ensures Accepts(p[i], t[k + i]) <==> Accepts(p[i], s[a + k + i])
    {
      assert t[k + i] == s[a + k + i];
    }
  }

  /** A match of a concatenated pattern is a match of each part in turn. */
  lemma MatchesConcat(p: seq<Class>, q: seq<Class>, s: string, k: nat)
    ensures MatchesAt(p + q, s, k) <==> MatchesAt(p, s, k) && MatchesAt(q, s, k + |p|)
  {
    if MatchesAt(p, s, k) && MatchesAt(q, s, k + |p|) {
      forall i | 0 <= i < |p + q|
        ensures Accepts((p + q)[i], s[k + i])
      {
        if i >= |p| {
          assert Accepts(q[i - |p|], s[k + |p| + (i - |p|)]);
        }
      }
    }
    if MatchesAt(p + q, s, k) {
      forall i | 0 <= i < |p|
        ensures Accepts(p[i], s[k + i])
      {
        assert (p + q)[i] == p[i];
      }
      forall i | 0 <= i < |q|
        ensures Accepts(q[i], s[k + |p| + i])
      {
        assert (p + q)[|p| + i] == q[i];
      }
    }
  }

  /** `s.match(p)` for a single pattern: where its leftmost match at or
      after `from` starts. */
  function FirstMatch(p: seq<Class>, s: string, from: nat): (r: Option<nat>)
    ensures r.Some? ==> from <= r.value && MatchesAt(p, s, r.value)
    ensures r.Some? ==> forall j :: from <= j < r.value ==> !MatchesAt(p, s, j)
    ensures r.None? <==> forall k :: from <= k ==> !MatchesAt(p, s, k)
    decreases |s| + 1 - from
  {
    if from + |p| > |s| then None
    else if MatchesAt(p, s, from) then Some(from)
    else FirstMatch(p, s, from + 1)
  }

  /** A pattern that matches at `k` is found there when it matches nowhere
      between `from` and `k`. */
  lemma {:induction false} FirstMatchAt(p: seq<Class>, s: string, from: nat, k: nat)
    requires from <= k && MatchesAt(p, s, k)
    requires forall j :: from <= j < k ==> !MatchesAt(p, s, j)
    ensures FirstMatch(p, s, from) == Some(k)
    decreases k - from
  {
    if from < k {
      FirstMatchAt(p, s, from + 1, k);
    }
  }

  /** `s.match(p|q)` where `p` and `q` are tried in that order at each
      position: the leftmost position where either matches, and whether
      it was the second (`p` wins when both match at the same place). */
  function FirstMatchOfTwo(p: seq<Class>, q: seq<Class>, s: string, from: nat): (r: Option<(nat, bool)>)
    ensures r.Some? ==> from <= r.value.0 && MatchesAt(if r.value.1 then q else p, s, r.value.0)
    ensures r.Some? && r.value.1 ==> !MatchesAt(p, s, r.value.0)
    ensures r.Some? ==> forall j :: from <= j < r.value.0 ==> !MatchesAt(p, s, j) && !MatchesAt(q, s, j)
    ensures r.None? <==> forall k :: from <= k ==> !MatchesAt(p, s, k) && !MatchesAt(q, s, k)
    decreases |s| + 1 - from
  {
    if from > |s| then None
    else if MatchesAt(p, s, from) then Some((from, false))
    else if MatchesAt(q, s, from) then Some((from, true))
    else FirstMatchOfTwo(p, q, s, from + 1)
  }
}
