/** Option and Result: optional values and the exceptions of the C++ code. */
module Wrappers {

  datatype Option<+T> = None | Some(value: T)

  datatype Result<+T, +E> = Success(value: T) | Failure(error: E)

  /** The next element of a loop over a set or a map's keys, in any order. */
  method AnyOf<T>(todo: set<T>) returns (next: T)
    requires todo != {}
    ensures next in todo
  {
    next :| next in todo;
  }
}
