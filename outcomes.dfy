/** Failures the core can raise, and the result of an operation that may raise one. */
module Outcomes {

  /** The exceptions of the core that a caller can observe. */
  datatype Error =
    | LedgerFailure    // a transient failure raised by a ledger call
    | SessionExpired   // UnauthorizedAccessException from the authenticator
    | InvalidRange     // ArgumentException from Math.Clamp when min > max

  /** Either the value an operation returns or the exception it raises. */
  datatype Result<T> = Ok(value: T) | Err(error: Error)
}
