/** Failure-carrying values shared by every module of the model. */
module Wrappers {

  /** The conventional optional value; usable with `:-`. */
  datatype Option<+T> = None | Some(value: T) {
    predicate IsFailure() { None? }

    function PropagateFailure<U>(): Option<U>
      requires None?
    {
      None
    }

    function Extract(): T
      requires Some?
    {
      value
    }
  }

  /**
   * What a call of the source produces: a value, an error returned through
   * `Result::Err`, or a panic (an `unwrap`/`expect` that failed).  The two
   * failure kinds are kept apart because the pipeline treats them differently.
   */
  datatype Outcome<+T> = Ok(value: T) | Err(error: string) | Panic(reason: string) {
    predicate IsFailure() { !Ok? }

    function PropagateFailure<U>(): Outcome<U>
      requires !Ok?
    {
      if Err? then Err(error) else Panic(reason)
    }

    function Extract(): T
      requires Ok?
    {
      value
    }
  }

  /** The message of the panic raised by `Option::unwrap` on `None`. */
  const UnwrapNone := "called `Option::unwrap()` on a `None` value"

  /** The message of the panic raised by `Result::unwrap` on `Err`. */
  const UnwrapErr := "called `Result::unwrap()` on an `Err` value"
}
