/** Values that the source's records may leave null or undefined. */
module Wrappers {

  datatype Option<T> = None | Some(value: T)

  /** `x ?? d` */
  function OrElse<T>(x: Option<T>, d: T): (r: T)
    ensures x.None? ==> r == d
    ensures x.Some? ==> r == x.value
  {
    if x.Some? then x.value else d
  }

  /** The outcome of a step that can be refused with a message. */
  datatype Result<T> = Success(value: T) | Failure(error: string)

  /** `x || 0` and `x ?? 0` on a possibly missing amount: a missing amount counts as 0. */
  function OrZero(x: Option<real>): (r: real)
    ensures x.None? ==> r == 0.0
    ensures x.Some? ==> r == x.value
  {
    if x.Some? then x.value else 0.0
  }
}
