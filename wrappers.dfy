/** Failure-carrying values shared by every module of the model. */
module Wrappers {

  datatype Option<+T> = None | Some(value: T)

  /** The outcome of an operation of the source that can fail. `Failure`
      stands both for an error the source returns and for a panic
      (`assert!`, `unwrap`, an index out of range): the message says which. */
  datatype Result<+T, +E> = Success(value: T) | Failure(error: E)

  /** Concatenation is associative; loops that build their output chunk by
      chunk regroup it with this. */
  lemma AppendAssoc<T>(a: seq<T>, b: seq<T>, c: seq<T>)
    ensures a + (b + c) == (a + b) + c
  {
  }
}
