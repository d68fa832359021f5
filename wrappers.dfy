/** Optional values and fallible results, used where the source has `undefined`,
    `null` or a thrown error. */
module Wrappers {

  datatype Option<+T> = None | Some(value: T)

  /** A computation that either produced a value or failed with a message
      (a rejected promise or a thrown exception in the source). */
  datatype Result<+T> = Ok(value: T) | Err(message: string)
}
