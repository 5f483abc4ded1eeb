/** Small value types shared by every part of the model. */
module Common {

  /** Python's `None` or a present value. */
  datatype Option<T> = None | Some(value: T)

  /** The value a Python call returns, or the exception it raises. */
  datatype Result<T, E> = Success(value: T) | Failure(error: E)

  /** Python's slice `s[:n]`: a negative `n` counts from the end, and both ends are clamped. */
  function SliceTo<T>(s: seq<T>, n: int): (r: seq<T>)
    ensures r <= s
    ensures 0 <= n ==> |r| == if n < |s| then n else |s|
    ensures n < 0 ==> |r| == if |s| + n < 0 then 0 else |s| + n
  {
    if n < 0 then (if |s| + n < 0 then [] else s[..|s| + n])
    else if n < |s| then s[..n]
    else s
  }
}
