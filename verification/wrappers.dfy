/** Optional values and success-or-error results, used in place of JavaScript's
    `undefined`/`null` and of the form library's "errors or submitted data". */
module Wrappers {

  /** A value that may be missing (`undefined` or `null` in the client). */
  datatype Option<+T> = None | Some(value: T)

  /** Either a computed value or an error description. */
  datatype Result<+T, +E> = Ok(value: T) | Err(error: E)
}
