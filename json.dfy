/** Shapes of a decoded JSON payload: a key that may be missing, a value that
    may be JSON null, and the result of an operation that may raise. */
module Json {

  /** A value that may be JSON `null` (Python `None`). */
  datatype Option<+T> = None | Some(value: T)

  /** A dictionary key that may be missing (`"key" in obj` is false). */
  datatype Field<+T> = Absent | Present(value: T) {
    /** The value under the key, or `fallback` when the key is missing. */
    function GetOr(fallback: T): (r: T)
      ensures Absent? ==> r == fallback
      ensures Present? ==> r == value
    {
      match this
      case Absent => fallback
      case Present(v) => v
    }
  }

  /** A returned value, or the exception raised instead. */
  datatype Result<+T, +E> = Success(value: T) | Failure(error: E)
}
