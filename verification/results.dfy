/** Failure-carrying values shared by the whole model. */
module Results {

  /** A value that may be absent (a Go nil map or slice, a missing field). */
  datatype Option<+T> = None | Some(value: T)

  /** The outcome of an operation that may fail with an error message (a Go `(T, error)` pair). */
  datatype Result<+T> = Ok(value: T) | Err(message: string) {

    /** The success value, or `default` when the operation failed: what a Go caller
        gets when it writes `v, _ := f()` and `f` returns a zero value on error. */
    function OrElse(default: T): T {
      match this
      case Ok(v) => v
      case Err(_) => default
    }
  }
}
