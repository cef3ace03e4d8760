/** Shared value shapes for outcomes that the JavaScript code expresses with
    `undefined`, rejected promises and thrown errors. */
module Outcomes {

  /** A value that may be absent (`undefined` or `null` in the source). */
  datatype Option<+T> = None | Some(value: T)

  /** A settled promise: fulfilled with a value, or rejected with an `Error`
      whose `message` is given. */
  datatype Result<+T> = Ok(value: T) | Err(message: string)

  /** What one call into the remote image SDK did: it answered with a
      response, or it threw (the cause is only logged, so it is not kept). */
  datatype Reply<+T> = Answered(response: T) | Threw
}
