/** Option and Result, used where the source returns null or throws. */
module Wrappers {

  datatype Option<+T> = None | Some(value: T)

  datatype Result<+T, +E> = Success(value: T) | Failure(error: E)

  /** The exceptions the iterator can raise, named after their Java classes. */
  datatype Thrown =
    | NoSuchElement          // next(int) on an exhausted iterator
    | IllegalArgument        // a negative capacity for the batch's e-mail list
    | ArrayIndexOutOfBounds  // a draw wrote outside the spam-status array

  function Min(a: int, b: int): int { if a <= b then a else b }

  function Max(a: int, b: int): int { if a >= b then a else b }
}
