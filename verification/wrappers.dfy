/**
 * Optional values and exception-carrying results.
 *
 * Java's `null` becomes `None`; a thrown runtime exception becomes `Err`,
 * tagged with the exception class the source throws.
 */
module Wrappers {

  datatype Option<T> = None | Some(value: T)

  /** The Java exception classes the modelled code throws. */
  datatype Failure =
    | IllegalArgument
    | IllegalState
    | NumberFormat
    | NullPointer
    | IndexOutOfBounds

  datatype Result<T> = Ok(value: T) | Err(error: Failure)
}
