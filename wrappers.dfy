/** Failure-carrying results shared by every handler of the backend. */
module Wrappers {

  datatype Option<+T> = None | Some(value: T) {
    /** The value held, or `default` when there is none. */
    function GetOr(default: T): T {
      if Some? then value else default
    }
  }

  /** What a request handler produces: a response value, or the HTTP status
      and message of the error it throws. */
  datatype Result<+T> = Ok(value: T) | Err(status: nat, message: string)
}
