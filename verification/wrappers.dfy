/** Optional values and fallible results, standing in for Go's nil
    pointers and (value, error) pairs. */
module Wrappers {

  datatype Option<+T> = None | Some(value: T)

  /** A Go (value, error) pair whose error is nil (Success) or not (Failure). */
  datatype Result<+T, +E> = Success(value: T) | Failure(error: E)

  /** Go's `m[k]` on a map: the stored value, or the zero value when `k` is absent. */
  function GetOr<K, V>(m: map<K, V>, k: K, zero: V): (v: V)
    ensures k in m ==> v == m[k]
    ensures k !in m ==> v == zero
  {
    if k in m then m[k] else zero
  }
}
