/** Failure-carrying return values: the exceptions the modelled C# code throws
    become the `Failure` or `None` case of these datatypes. */
module Wrappers {

  datatype Option<+T> = None | Some(value: T)

  datatype Result<+R, +E> = Success(value: R) | Failure(error: E)
}
