/** Option and Result, the model's stand-ins for Python's None and for a raised exception. */
module Wrappers {

  datatype Option<T> = None | Some(value: T)

  /** `Err` carries the text of the exception the source would raise at that point. */
  datatype Result<T> = Ok(value: T) | Err(message: string)
}
