// Optional values, as JavaScript's `null` / `undefined` are used in the
// modelled code.
module Wrappers {
  datatype Option<T> = None | Some(value: T)
  {
    function UnwrapOr(default: T): (r: T)
      ensures this.Some? ==> r == this.value
      ensures this.None? ==> r == default
    {
      match this
      case None => default
      case Some(v) => v
    }
  }

  // Outcome of a computation that may throw: the JavaScript `throw` is the
  // `Failure` case, carrying the error's message.
  datatype Result<T> = Success(value: T) | Failure(error: string)
}
