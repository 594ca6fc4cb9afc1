/** Failure-carrying datatypes shared by every module of the model. */
module Wrappers {

  /** A value that may be missing: `Option` in Rust, `None`-or-value in Python. */
  datatype Option<+T> = None | Some(value: T) {

    /** Turns a missing value into the given error. */
    function ToResult<E>(error: E): (r: Result<T, E>)
      ensures r.Ok? <==> Some?
      ensures r.Ok? ==> r.value == value
      ensures r.Err? ==> r.error == error
    {
      match this
      case Some(v) => Ok(v)
      case None => Err(error)
    }
  }

  /** The outcome of a fallible operation: Rust's `Result`, or a raised exception. */
  datatype Result<+T, +E> = Ok(value: T) | Err(error: E) {

    predicate IsFailure()
    {
      Err?
    }

    function PropagateFailure<U>(): Result<U, E>
      requires Err?
    {
      Err(error)
    }

    function Extract(): T
      requires Ok?
    {
      value
    }
  }

  /** The first `n` elements of `s`, or all of `s` when it is shorter. */
  function Take<T>(s: seq<T>, n: nat): (r: seq<T>)
    ensures |r| == if n <= |s| then n else |s|
    ensures r <= s
  {
    if n <= |s| then s[..n] else s
  }
}
