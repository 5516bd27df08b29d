/** Failure-compatible wrappers shared by the store and the service. */
module Common {

  /** An optional value: a TypeScript property that may be absent (`x?: T`). */
  datatype Option<+T> = None | Some(value: T) {
    /** The `??` operator: the value when present, otherwise the fallback. */
    function GetOr(fallback: T): T {
      match this
      case Some(v) => v
      case None => fallback
    }
  }

  /** The outcome of an awaited call that may throw. */
  datatype Result<+T, +E> = Success(value: T) | Failure(error: E)
}
