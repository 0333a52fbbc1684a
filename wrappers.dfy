/** Option and Result, the two failure-carrying shapes the handlers use. */
module Wrappers {

  /** A value that may be absent (`null` or `undefined` in the handlers). */
  datatype Option<+T> = None | Some(value: T)

  /** A computation that either yields a value or throws an `Error` carrying a message. */
  datatype Result<+T> = Ok(value: T) | Err(message: string)
}

/** The two ways an Express handler or middleware ends: it passes control on, or it answers. */
module Http {

  /**
   * `Pass(v)`: the request goes on (`next()`, or the work the handler was asked to do) with `v`;
   * `Respond(status, message)`: `res.status(status).json({ success: false, message })`.
   */
  datatype Gate<+T> = Pass(value: T) | Respond(status: nat, message: string)
}
