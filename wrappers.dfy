/** Option and Result: the model's stand-ins for `null` and for thrown exceptions. */
module Wrappers {

  /** A value that may be absent (a C# reference that may be null). */
  datatype Option<+T> = None | Some(value: T)

  /** The outcome of an operation that either yields a value or raises an error. */
  datatype Result<+R, +E> = Success(value: R) | Failure(error: E) {

    /** The error as an Option: None on success. */
    function ErrorOption(): (e: Option<E>)
      ensures e.Some? <==> Failure?
      ensures Failure? ==> e.value == error
    {
      match this
      case Success(_) => None
      case Failure(err) => Some(err)
    }
  }
}
