/** Failure-compatible result types shared by the rune and credential modules. */
module Results {

  /** The Rust `Result<T, E>`: a value or an error. Usable with `:-`. */
  datatype Result<+T, +E> = Ok(value: T) | Err(error: E) {

    predicate IsFailure() {
      Err?
    }

    function PropagateFailure<U>(): Result<U, E>
      requires Err?
    {
      Err(error)
    }

    function Extract(): T
      requires Ok?
    {
      value
    }
  }

  /** The Rust `Option<T>`. */
  datatype Option<+T> = None | Some(value: T)
}
