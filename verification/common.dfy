/** Small value wrappers shared by every module: a nullable value and an
    operation that either produces a value or fails with a message. */
module Common {

  /** A JavaScript value that may be `null`/`undefined`. */
  datatype Option<+T> = None | Some(value: T) {

    /** The `??` operator: the wrapped value, or `default` when absent. */
    function GetOr(default: T): T {
      match this
      case Some(v) => v
      case None => default
    }
  }

  /** An asynchronous operation that resolves with a value or throws an `Error`. */
  datatype Result<+T> = Ok(value: T) | Err(message: string)
}
