/**
  The .NET exception types that the modelled code raises, catches or lets
  through, identified by type only (messages and inner exceptions are logging
  detail), plus the two result shapes every operation of the model returns.
 */
module Exceptions {

  /** An exception, by its .NET type. */
  datatype Exn =
    | TransactionException
    | ObjectDisposedException
    | InvalidOperationException
    | ArgumentNullException
    | ArgumentException
    | DataException
    | ConstraintException
    | NullReferenceException
    | KeyNotFoundException
    | SystemException
    | InvalidCastException
    | FormatException
    | ArgumentOutOfRangeException
      /** any other exception a driver, a participant or a callback may raise */
    | DriverException

  /** How a call that returns nothing ends: normally, or by raising. */
  datatype Outcome = Returned | Raised(exn: Exn) {

    /** True if the call raised an exception of type `e`. */
    predicate Throws(e: Exn) {
      Raised? && exn == e
    }

    /** The outcome seen by a caller that wraps every exception into `e`
        (`catch (Exception ex) { throw new E(.., ex); }`). */
    function WrappedAs(e: Exn): (r: Outcome)
      ensures r.Returned? <==> Returned?
      ensures r.Raised? ==> r.exn == e
    {
      if Returned? then Returned else Raised(e)
    }
  }

  /** A call that returns a value or raises. */
  datatype Result<+T> = Success(value: T) | Failure(error: Exn) {

    predicate IsFailure() {
      Failure?
    }

    function PropagateFailure<U>(): Result<U>
      requires Failure?
    {
      Failure(error)
    }

    function Extract(): T
      requires Success?
    {
      value
    }
  }

  datatype Option<+T> = None | Some(value: T)
}
