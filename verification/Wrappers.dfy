/** Failure-carrying values shared by the other modules. */
module Wrappers {

  datatype Option<+T> = None | Some(value: T)

  datatype Result<+T, +E> = Ok(value: T) | Err(error: E)

  /** What the network does to one call: nothing, lose the request, or lose the reply. */
  datatype Fault = Fine | RequestLost | ReplyLost
}
