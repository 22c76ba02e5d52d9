/** Small failure-carrying datatypes shared by every module of the model. */
module Basics {

  datatype Option<+T> = None | Some(value: T)

  /** The outcome of an operation that either produces a value or raises an exception
      carrying a message. */
  datatype Result<+T> = Ok(value: T) | Err(message: string)

  /** True when `prefix` is a prefix of `s` (Python's `str.startswith`). */
  predicate StartsWith(s: string, prefix: string)
  {
    |prefix| <= |s| && s[..|prefix|] == prefix
  }

  /** A string with a non-empty prefix begins with the prefix's first character. */
  lemma StartsWithHead(s: string, prefix: string)
    requires |prefix| > 0
    ensures StartsWith(s, prefix) ==> s[0] == prefix[0]
  {
    if StartsWith(s, prefix) {
      assert s[..|prefix|][0] == s[0];
    }
  }
}
