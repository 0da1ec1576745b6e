/** Option and Result: the error-carrying values that stand in for the
    source's `None` returns and raised exceptions. */
module Results {

  datatype Option<T> = None | Some(value: T) {
    function GetOr(default: T): T {
      match this
      case Some(v) => v
      case None => default
    }
  }

  datatype Result<T, E> = Ok(value: T) | Err(error: E)
}
