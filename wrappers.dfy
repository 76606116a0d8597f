/** Failure-carrying result types shared by the model. */
module Wrappers {

  /** A value that may be absent: the source's `number[] | null`. */
  datatype Option<T> = None | Some(value: T)

  /** A value or the message of the error the source throws instead. */
  datatype Result<T> = Ok(value: T) | Err(message: string)
}
