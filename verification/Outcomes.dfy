/** The optional value and the service-call result used by the other modules. */
module Outcomes {

  datatype Option<+T> = None | Some(value: T)

  /** What a service call returns: a value, or the domain error it raises. */
  datatype Result<+T, +E> = Ok(value: T) | Err(error: E)
}
