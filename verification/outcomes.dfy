/** Failure-carrying wrappers shared by every module of the mailbox model. */
module Outcomes {

  /** A value that may be missing: JavaScript's `undefined`/`null` become `None`. */
  datatype Option<+T> = None | Some(value: T) {

    /** The wrapped value, or `default` when there is none. */
    function GetOr(default: T): T {
      match this
      case Some(v) => v
      case None => default
    }
  }

  /** Either a value or the error that stopped the request. */
  datatype Result<+T, +E> = Ok(value: T) | Err(error: E)

  /** A request field as received in a JSON body, where `undefined` and `null` differ:
      `Absent` is a missing key, `Given(v)` carries whatever was sent (possibly `null`). */
  datatype Field<+T> = Absent | Given(value: T)
}
