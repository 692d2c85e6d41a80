/** Failure-carrying datatypes shared by the model. */
module Wrappers {

  /** An optional value: a capture group that did not take part, a lookup that found nothing. */
  datatype Option<+T> = None | Some(value: T)

  /** The outcome of a step that may throw: `Err` stands for a JavaScript exception. */
  datatype Result<+T, +E> = Ok(value: T) | Err(error: E) {
    predicate IsFailure() { Err? }

    function PropagateFailure<U>(): Result<U, E>
      requires Err?
    {
      Err(error)
    }

    function Extract(): T
      requires Ok?
    {
      value
    }
  }
}
