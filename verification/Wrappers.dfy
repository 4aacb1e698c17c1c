module Wrappers {
  datatype Option<+T> = None | Some(value: T)

  /** A Python call that returns a value or raises. */
  datatype Result<+T> = Ok(value: T) | Raised(reason: string)
}
