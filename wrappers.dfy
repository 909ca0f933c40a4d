/** Optional values and results, used wherever the source has `None`, a missing key or an
    exception path. */
module Wrappers {

  datatype Option<+T> = None | Some(value: T) {

    /** The value carried, or `default` when there is none (Python's `d.get(k, default)`). */
    function GetOr(default: T): T
    {
      match this
      case Some(v) => v
      case None => default
    }
  }

  /** The Python exceptions the modelled code can raise and does not catch. */
  datatype PyException = ValueError | IndexError | KeyError | AttributeError | TypeError

  /** A computation that returns a value or raises. */
  datatype Result<+T> = Ok(value: T) | Raised(exc: PyException)
}
