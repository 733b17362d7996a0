/** Values that stand for Python's optional values and raised exceptions. */
module Exceptions {

  /** An optional value, such as an HTML attribute that may be absent. */
  datatype Option<T> = None | Some(value: T)

  /** What a Python call does: return a value, or raise an exception whose
      `str(e)` is `message`. */
  datatype Outcome<T> = Ok(value: T) | Raised(message: string)
}
