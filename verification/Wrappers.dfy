/** Absent values and error returns */
module Wrappers {

  datatype Option<+T> = None | Some(value: T)

  // The error codes that the modelled functions return
  datatype Error = InvalidAddress | Unaligned | NotSupported | NotFound | Failure

  datatype Result<+T> = Ok(value: T) | Err(error: Error)
}
