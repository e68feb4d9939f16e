/** Option and Result: null references and error callbacks of the source. */
module Wrappers {

  datatype Option<+T> = None | Some(value: T)

  /** Exactly one of the source's two callbacks (success or error) fires. */
  datatype Result<+T> = Success(value: T) | Failure(error: string)
}
