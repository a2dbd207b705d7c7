/** Failure-carrying datatypes used in place of JavaScript's `null` and
    thrown errors. */
module Results {

  /** A value or nothing: JavaScript `null` / `undefined` versus an object. */
  datatype Option<+T> = None | Some(value: T)

  /** A successful value, or the error a JavaScript call would have thrown. */
  datatype Result<+T, +E> = Ok(value: T) | Err(error: E)

  /** `prefix` followed by the successful value of `r`; errors pass through. */
  function Prepend<T, E>(prefix: seq<T>, r: Result<seq<T>, E>): Result<seq<T>, E>
  {
    match r
    case Ok(rest) => Ok(prefix + rest)
    case Err(e) => Err(e)
  }

  /** Prepending twice is prepending the concatenation. */
  lemma PrependPrepend<T, E>(a: seq<T>, b: seq<T>, r: Result<seq<T>, E>)
    ensures Prepend(a, Prepend(b, r)) == Prepend(a + b, r)
  {
    if r.Ok? {
      assert a + (b + r.value) == (a + b) + r.value;
    }
  }

  /** Prepending nothing changes nothing. */
  lemma PrependEmpty<T, E>(r: Result<seq<T>, E>)
    ensures Prepend([], r) == r
  {
    if r.Ok? {
      assert [] + r.value == r.value;
    }
  }

  /** Prepending to a success is a success. */
  lemma PrependOk<T, E>(x: Result<seq<T>, E>, a: seq<T>, y: Result<seq<T>, E>, b: seq<T>)
    requires x == Prepend(a, y) && y == Ok(b)
    ensures x == Ok(a + b)
  {
  }

  /** Concatenation is associative. */
  lemma Assoc<T>(a: seq<T>, b: seq<T>, c: seq<T>)
    ensures a + b + c == a + (b + c)
  {
  }

  /** What follows a prefix of a suffix. */
  lemma DropPrefix<T>(s: seq<T>, i: nat, a: seq<T>, b: seq<T>)
    requires i <= |s| && s[i..] == a + b
    ensures i + |a| <= |s| && s[i + |a|..] == b
  {
    assert s[i + |a|..] == s[i..][|a|..];
  }

  /** A non-empty sequence is its head followed by its tail. */
  lemma ConsTail<T>(s: seq<T>)
    requires |s| > 0
    ensures [s[0]] + s[1..] == s
  {
  }
}
