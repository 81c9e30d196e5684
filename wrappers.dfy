/** Failure-compatible wrappers shared by every module of the model. */
module Wrappers {

  datatype Option<+T> = None | Some(value: T)

  /** The outcome of a call that either returns a value or raises an exception;
      `error` is the text of the exception (`str(e)`). */
  datatype Result<+T> = Ok(value: T) | Err(error: string)

  /** `not o` for an optional `str`: None and the empty string are false in Python. */
  predicate Falsy(o: Option<string>) {
    o.None? || o.value == ""
  }
}
