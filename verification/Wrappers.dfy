/** Result types shared by every module. */
module Wrappers {
  datatype Option<+T> = None | Some(value: T)

  /** The source's error returns; the message text is not modelled. */
  datatype Result<+T> = Ok(value: T) | Err
}
