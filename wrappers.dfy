/** Option and Result values used by every module for the source's exceptions and missing values. */
module Wrappers {

  datatype Option<+T> = None | Some(value: T)

  datatype Result<+R, +E> = Success(value: R) | Failure(error: E)

  /**
   * The Python exceptions the scripts let escape: a failed `assert`, a failed
   * `int()` or tuple unpacking, an index or key missing, iterating over `None`,
   * `sys.exit`.
   */
  datatype PyError = AssertionFailed | ValueError | IndexError | KeyError(key: string) | TypeError | Exit(code: int)
}
