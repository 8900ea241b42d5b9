/** Optional values and results with an error payload, used for every
    operation of the parser that can fail. */
module Outcome {

  datatype Option<+T> = None | Some(value: T)

  /** The outcome of an operation that raises an exception in the source:
      `Err` carries what the exception would carry. */
  datatype Result<+T, +E> = Ok(value: T) | Err(error: E)

}
