/** Result types shared by the whole model. */
module Wrappers {

  datatype Option<+T> = None | Some(value: T)

  /** A Rust `Result`. */
  datatype Result<+T, +E> = Ok(value: T) | Err(error: E) {
    predicate IsFailure() { Err? }

    function PropagateFailure<U>(): Result<U, E>
      requires Err?
    {
      Err(error)
    }

    function Extract(): T
      requires Ok?
    {
      value
    }
  }

  /** What a Rust call does when it may also panic: `assert!`, `expect`, `unreachable!`, a division by zero
      and an integer overflow all end in `Panics`. */
  datatype Outcome<+T, +E> = Done(value: T) | Fails(error: E) | Panics {
    predicate IsFailure() { !Done? }

    function PropagateFailure<U>(): Outcome<U, E>
      requires !Done?
    {
      if Panics? then Panics else Fails(error)
    }

    function Extract(): T
      requires Done?
    {
      value
    }
  }
}
