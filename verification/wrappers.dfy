/** Optional values and success-or-error results, used wherever the source
    reads an optional field (`x?: T`) or reports an error instead of changing state. */
module Wrappers {

  /** `None` stands for JavaScript's `undefined` (or a value that failed to parse, NaN). */
  datatype Option<+T> = None | Some(value: T) {

    /** The value, or `default` when absent. */
    function GetOr(default: T): T {
      match this
      case Some(v) => v
      case None => default
    }
  }

  /** An operation that either produces a new value or is refused with a message. */
  datatype Result<+T> = Ok(value: T) | Err(message: string)
}
