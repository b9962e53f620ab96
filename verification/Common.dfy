/** Value types shared by every component model. */
module Common {

  /** A value that may be absent. */
  datatype Option<+T> = None | Some(value: T) {

    /** The value, or `default` when absent. */
    function GetOr(default: T): T {
      if Some? then value else default
    }
  }

  /** The result of an operation that may fail. */
  datatype Result<+T, +E> = Ok(value: T) | Err(error: E)

  /** An octet. */
  type byte = b: int | 0 <= b < 256
}
