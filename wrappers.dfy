/** The error outcomes of the source's exceptions. */
module Wrappers {

  datatype Option<T> = None | Some(value: T)

  /** The result of an operation that either completes or throws. */
  datatype Outcome<E> = Pass | Fail(error: E)
}
