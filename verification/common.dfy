/** Failure-carrying values shared by every module of the model.

    JavaScript code in the modelled application signals failure by throwing;
    statements already executed before the throw are not rolled back.  The
    model therefore returns a `Result` next to the (possibly partially
    updated) state instead of an all-or-nothing answer.
 */
module Common {

  /** A value that may be absent: SQL `NULL`, JavaScript `null`/`undefined`. */
  datatype Option<T> = None | Some(value: T) {

    /** The value, or `default` when absent. */
    function GetOr(default: T): T {
      match this
      case Some(v) => v
      case None => default
    }
  }

  /** Either a value or the message of the error that was thrown. */
  datatype Result<T> = Ok(value: T) | Err(msg: string)
}
