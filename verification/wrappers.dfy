/** Optional values and results that carry a Python exception kind. */
module Wrappers {

  datatype Option<+T> = None | Some(value: T)

  /** The exceptions the modelled code can raise. */
  datatype Error =
    | IndexError      // a negative list index past the start of the label list
    | AttributeError  // a method called on None
    | UnicodeError    // a codec (IDNA or UTF-8) rejected its input

  datatype Result<+T> = Success(value: T) | Failure(error: Error) {
    predicate IsFailure() { Failure? }

    function PropagateFailure<U>(): Result<U>
      requires Failure?
    {
      Failure(error)
    }

    function Extract(): T
      requires Success?
    {
      value
    }
  }

  /** A codec's outcome as Python sees it: `None` is a raised `UnicodeError`. */
  function OrUnicodeError<T>(o: Option<T>): (r: Result<T>)
    ensures r.Success? <==> o.Some?
    ensures r.Success? ==> r.value == o.value
    ensures r.Failure? ==> r.error == UnicodeError
  {
    match o
    case None => Failure(UnicodeError)
    case Some(v) => Success(v)
  }
}
