/** Small wrapper types and sequence facts shared by every module of the model. */
module Base {

  /** A value that may be absent: Go's `(v, ok)` pairs and `err == nil` tests. */
  datatype Option<+T> = None | Some(value: T)

  /** The outcome of an operation that either produces a value or fails with an error. */
  datatype Result<+T, +E> = Ok(value: T) | Err(error: E)

  /** The suffix from `i` starts with `s[i]` and goes on with the suffix from `i + 1`. */
  lemma SuffixStep<T>(s: seq<T>, i: nat)
    requires i < |s|
    ensures s[i..][0] == s[i] && s[i..][1..] == s[i + 1..]
  {
  }

  /** A sequence is its prefix up to `n` followed by its suffix from `n`. */
  lemma PrefixSuffix<T>(s: seq<T>, n: nat)
    requires n <= |s|
    ensures s[..n] + s[n..] == s
  {
  }

  /** The suffix from 0 is the whole sequence. */
  lemma WholeSuffix<T>(s: seq<T>)
    ensures s[0..] == s
  {
  }

  /** The suffix from the last position holds the last element alone. */
  lemma LastSuffix<T>(s: seq<T>)
    requires s != []
    ensures s[|s| - 1..] == [s[|s| - 1]]
  {
  }
}
