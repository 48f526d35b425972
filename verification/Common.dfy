/** Small datatypes shared by every module. */
module Common {

  datatype Option<+T> = None | Some(value: T) {
    /** The stored value, or `default` when there is none (SQL's COALESCE). */
    function GetOr(default: T): T {
      if Some? then value else default
    }
  }

  datatype Result<+T, +E> = Ok(value: T) | Err(error: E)
}
