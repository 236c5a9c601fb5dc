/** Failure-carrying result types shared by the tokenizer, the builder and the compiler. */
module Wrappers {

  datatype Option<+T> = None | Some(value: T)

  /** The outcome of an operation that the source either returns from or throws out of. */
  datatype Result<+R, +E> = Success(value: R) | Failure(error: E)
}
