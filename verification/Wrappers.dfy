/** Optional values and results, used wherever the Go code returns a nil pointer or an error. */
module Wrappers {
  datatype Option<+T> = None | Some(value: T)

  datatype Result<+T, +E> = Ok(value: T) | Err(error: E)

  /** The SQL function COALESCE for one optional parameter. */
  function Coalesce<T>(given: Option<T>, current: T): T {
    match given
    case Some(v) => v
    case None => current
  }
}
