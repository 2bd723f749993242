/** Option and Result, the failure-carrying values the model uses in place of
    Java's `null` returns and thrown exceptions. */
module Wrappers {

  /** `None` stands for a Java `null`. */
  datatype Option<+T> = None | Some(value: T) {

    /** The wrapped value, or `default` when there is none. */
    function GetOr(default: T): (r: T)
      ensures Some? ==> r == value
      ensures None? ==> r == default
    {
      match this
      case Some(v) => v
      case None => default
    }
  }

  /** `Failure` stands for an exception thrown out of the modelled operation. */
  datatype Result<+R, +E> = Success(value: R) | Failure(error: E)
}
