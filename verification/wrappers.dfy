/** Failure-carrying result types shared by the evaluation driver model. */
module Wrappers {

  /** An optional value: `None` when a parse or lookup has nothing to give. */
  datatype Option<+T> = None | Some(value: T)

  /** Either a value or the error that stopped the computation. */
  datatype Result<+T, +E> = Success(value: T) | Failure(error: E)
}
