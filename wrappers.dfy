/** Failure-compatible wrappers, and a few facts about sequences, shared by
    every module of the model. */
module Wrappers {

  datatype Option<+T> = None | Some(value: T)

  /** A value, or the error a JavaScript function would have thrown instead. */
  datatype Result<+T, +E> = Ok(value: T) | Err(error: E)

  /** The outcome of a check that either returns normally or throws. */
  datatype Outcome<+E> = Pass | Fail(error: E)

  /** Splitting off the head of the left operand of a concatenation. */
  lemma ConsAppend<T>(x: seq<T>, z: seq<T>)
    requires |x| > 0
    ensures x + z == [x[0]] + (x[1..] + z)
  {
    assert x == [x[0]] + x[1..];
  }

  /** A slice of a suffix is a slice of the whole sequence. */
  lemma SliceOfSuffix<T>(s: seq<T>, i: int, lo: int, hi: int)
    requires 0 <= i <= |s| && 0 <= lo <= hi <= |s| - i
    ensures s[i..][lo..hi] == s[i + lo..i + hi]
  {
  }

  /** A prefix of a suffix is a slice of the whole sequence. */
  lemma PrefixOfSuffix<T>(s: seq<T>, u: seq<T>, r: seq<T>)
    requires |u| <= |s| && u == s[|s| - |u|..]
    requires |r| <= |u| && r == u[..|r|]
    ensures r == s[|s| - |u|..|s| - |u| + |r|]
  {
  }
}
