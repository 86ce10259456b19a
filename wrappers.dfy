/** Optional values (C and C++ null pointers, failed calls) and repeated values, shared by every module. */
module Wrappers {
  datatype Option<+T> = None | Some(value: T)

  /** `n` copies of `x`. */
  function Repeat<T>(x: T, n: nat): (r: seq<T>)
    ensures |r| == n && forall k :: 0 <= k < n ==> r[k] == x
  {
    if n == 0 then [] else Repeat(x, n - 1) + [x]
  }
}
