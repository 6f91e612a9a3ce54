/** Failure-carrying results shared by every module of the gateway model.
    `Option` stands for a Java `Optional` or a nullable reference; `Result`
    stands for a value or the exception the source would throw instead. */
module Wrappers {

  datatype Option<+T> = None | Some(value: T)

  datatype Result<+T, +E> = Ok(value: T) | Err(error: E)
}
