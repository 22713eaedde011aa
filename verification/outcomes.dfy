/** Optional values and results with an error, the shapes the scripts' `dict.get`
    lookups and raised exceptions take in this model. */
module Outcomes {

  /** A value that may be missing, as a JSON field that may be absent. */
  datatype Option<+T> = None | Some(value: T) {

    /** The value, or `default` when missing (Python's `d.get(key, default)`). */
    function GetOr(default: T): T {
      match this
      case Some(v) => v
      case None => default
    }
  }

  /** Either a computed value or the error that stopped the computation. */
  datatype Result<+T, +E> = Ok(value: T) | Err(error: E)
}
