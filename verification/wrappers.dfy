/** Failure-carrying datatypes shared by the rest of the model. */
module Wrappers {

  /** A value that may be absent (JavaScript's `null`/`undefined`). */
  datatype Option<+T> = None | Some(value: T)

  /** The value of a step that may throw; `Failure` carries the error's message. */
  datatype Result<+T> = Success(value: T) | Failure(message: string)

  /** An effect that either completes or throws with a message. */
  datatype Outcome = Done | Threw(message: string)
}
