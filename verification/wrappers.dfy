/** Option and Result types, and the exceptions the modelled Python code raises. */
module Wrappers {

  datatype Option<+T> = None | Some(value: T)

  /** Why a `ValueError` was raised. */
  datatype Reason =
    | UndefinedPhaseSpace
    | UndefinedBins
    | UnknownKwargs
    | EdgesUndefined
    | BadEdges            // an edge variable outside the phase space, or upper < lower
    | PhaseSpaceMismatch  // a bin of a Binning lives on another phase space
    | CannotReshape
    | EmptyReduction      // numpy maximum over a zero-size axis
    | UnknownSystematics
    | UnknownLimitMethod
    | UnknownMethod
    | EinsumEllipsis      // an einsum output subscript with more than one '...'

  /** The Python exceptions raised by the modelled code. */
  datatype Exception =
    | ValueError(reason: Reason)
    | TypeError
    | RuntimeError(truthBin: nat)  // a truth value above its limit, with the offending bin
    | AttributeError               // `.group` on a failed regular-expression match
    | IndexError
    | KeyError                     // a dict lookup of a missing key
    | ZeroDivisionError

  datatype Result<+T> = Success(value: T) | Failure(error: Exception) {
    predicate IsFailure() { Failure? }

    function PropagateFailure<U>(): Result<U>
      requires Failure?
    {
      Failure(error)
    }

    function Extract(): T
      requires Success?
    {
      value
    }
  }
}
