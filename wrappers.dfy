/** Option and Result, used for absent references, absent overlay keys and parse errors. */
module Wrappers {

  /** An optional value; None stands for Go's nil pointer or an absent key. */
  datatype Option<+T> = None | Some(value: T)

  /** Either a value or an error, for operations that return (value, error) in Go. */
  datatype Result<+R, +E> = Success(value: R) | Failure(error: E)
}
