/** Small failure-carrying datatypes shared by the orders model. */
module Wrappers {

  /** A value that may be JSON null (or, where the source uses `dict.get`, missing). */
  datatype Option<+T> = None | Some(value: T) {
    predicate IsFailure() { None? }

    function PropagateFailure<U>(): Option<U>
      requires None?
    {
      None
    }

    function Extract(): T
      requires Some?
    {
      value
    }

    /** The wrapped value, or `default` for None, as `dict.get(key, default)` gives it. */
    function GetOr(default: T): T {
      match this
      case Some(v) => v
      case None => default
    }
  }

  /** Either a value or the reason a step raised. */
  datatype Result<+T, +E> = Success(value: T) | Failure(error: E)

  /**
   * Presence of a key in a JSON object. `Absent` is a missing key, `Present(v)` a key
   * holding `v`. Distinguishing the two matters where the source calls
   * `d.get(key, default)`: the default applies only to a missing key, not to a null one.
   */
  datatype Field<+T> = Absent | Present(value: T) {
    function GetOr(default: T): T {
      match this
      case Present(v) => v
      case Absent => default
    }
  }
}
