/** Small failure-carrying datatypes shared by every module of the model. */
module Base {

  /** A value that may be missing: a Go `nil`, a Rust `None`, a Python `None`. */
  datatype Option<+T> = None | Some(value: T) {
    function GetOr(default: T): T {
      match this
      case Some(v) => v
      case None => default
    }
  }

  /**
   * The outcome of a step that can abort the whole program: `Done` carries the
   * result, `Fault` stands for a Go panic, a Rust panic or an uncaught Python
   * exception, with a short description of where it happens.
   */
  datatype Outcome<+T> = Done(value: T) | Fault(reason: string)

  /** A Rust `Result<T, String>`: an error the caller reports and survives. */
  datatype Result<+T> = Ok(value: T) | Err(msg: string)

  function Min(a: int, b: int): int { if a <= b then a else b }

  function Max(a: int, b: int): int { if a >= b then a else b }
}
