/** Option and Outcome values used for the source's std::optional results and thrown errors. */
module Wrappers {

  datatype Option<+T> = None | Some(value: T)

  /** The outcome of an operation that either returns normally or throws `error`. */
  datatype Outcome<+E> = Pass | Fail(error: E)
}
