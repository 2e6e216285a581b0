/** Values that may be absent, such as null pointers, and cleared storage. */
module Basics {
  datatype Option<+T> = None | Some(value: T)

  /** Storage filled with one value, as memset leaves it. */
  function Repeat<T>(x: T, n: nat): (s: seq<T>)
    ensures |s| == n && forall i :: 0 <= i < n ==> s[i] == x
  {
    seq(n, i => x)
  }
}
