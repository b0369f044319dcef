/** Failure-carrying result types shared by the modules of this model. */
module Wrappers {

  /** A value that may be missing: a dictionary key that is absent, a list that is too short. */
  datatype Option<+T> = None | Some(value: T)

  /** The outcome of an operation that either returns a value or fails with an error. */
  datatype Result<+T, +E> = Ok(value: T) | Err(error: E)

  function GetOr<T>(o: Option<T>, default: T): (r: T)
    ensures o.None? ==> r == default
    ensures o.Some? ==> r == o.value
  {
    match o
    case None => default
    case Some(v) => v
  }
}
