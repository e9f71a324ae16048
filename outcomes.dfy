/** Optional values and the two Python exceptions the modelled code can raise. */
module Outcomes {

  /** A value that may be absent (Python's `None`). */
  datatype Option<+T> = None | Some(value: T)

  /** The exceptions the modelled arithmetic and indexing can raise. */
  datatype Error =
    | IndexError         // `iloc[-1]` of an empty series, or `iloc[-2]` of a one-point series when it is read
    | ZeroDivisionError  // `profit / volume` with a zero volume

  /** Either a computed value or the exception that interrupted the computation. */
  datatype Result<+T> = Success(value: T) | Failure(error: Error)
}
