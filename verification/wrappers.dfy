/**
 Failure-carrying values shared by the whole model: `Option` for a Python
 value that may be `None` or a parse that may fail, and `Result` for an
 operation that either returns or raises one of the Python exceptions the
 engine lets escape to its caller.
 */
module Wrappers {

  datatype Option<+T> = None | Some(value: T)

  /** The Python exceptions that reach the engine's callers. */
  datatype PyError =
    | ValueError   // int() given a string it cannot parse
    | KeyError     // subscripting a dict with an absent key

  datatype Result<+T> = Ok(value: T) | Raised(error: PyError)
}
