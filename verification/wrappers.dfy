/** Failure-compatible result types shared by every module of the model. */
module Wrappers {

  /** A value that may be absent; stands for Python's `None` where a field is optional. */
  datatype Option<+T> = None | Some(value: T) {
    function GetOr(default: T): T {
      match this
      case Some(v) => v
      case None => default
    }
  }

  /** The outcome of an operation that either succeeds or reports an error. */
  datatype Result<+T, +E> = Ok(value: T) | Err(error: E) {
    predicate IsFailure() {
      Err?
    }

    function PropagateFailure<U>(): Result<U, E>
      requires Err?
    {
      Err(error)
    }

    function Extract(): T
      requires Ok?
    {
      value
    }
  }

  /**
   * A Python dictionary field as seen through `dict.get`: the key may be
   * missing, present with the value `None`, or present with a value.
   */
  datatype Field<+T> = Absent | Null | Val(v: T) {
    /** `d.get(key)`: a missing key and a `None` value both read as `None`. */
    function Get(): Option<T> {
      match this
      case Val(x) => Some(x)
      case _ => None
    }

    /** `d.get(key, default)`: only a missing key yields the default. */
    function GetOr(default: T): Option<T> {
      match this
      case Absent => Some(default)
      case Null => None
      case Val(x) => Some(x)
    }
  }
}
