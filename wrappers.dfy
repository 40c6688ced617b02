/** Option, Result and Python-outcome values shared by the modules of this model. */
module Wrappers {

  datatype Option<+T> = None | Some(value: T)

  /** The outcome of an operation that either succeeds with a value or
      fails with an error (the source raises an exception or returns an
      error record in the failing case). */
  datatype Result<+R, +E> = Success(value: R) | Failure(error: E)

  /** How a Python call ends: with a value, with a ValueError and its
      message, with the NameError of an undefined global, which it names,
      or with the TypeError of calling what is not callable, which it names. */
  datatype PyOutcome<T> =
    | Returns(value: T)
    | ValueErrorWith(message: string)
    | NameErrorOn(name: string)
    | TypeErrorOn(callee: string)
}
