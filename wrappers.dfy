/** Optional values and results, as used throughout the model. */
module Wrappers {

  datatype Option<T> = None | Some(value: T) {
    /** Python's `d.get(k, default)` style fallback. */
    function GetOr(default: T): T
    {
      match this
      case Some(v) => v
      case None => default
    }
  }

  /** The outcome of a step that either produces a value or raises with a message. */
  datatype Result<T> = Ok(value: T) | Err(message: string)
}
