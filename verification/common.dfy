/** Small shared vocabulary: optional values, Python-exception outcomes and
    the range of a `random.randint(0, n - 1)` draw. */
module Common {

  /** A Python value that may be `None`. */
  datatype Option<+T> = None | Some(value: T) {
    function GetOr(default: T): T {
      match this
      case Some(v) => v
      case None => default
    }
  }

  /** The result of a Python call that may raise. An uncaught exception does not
      roll back the attribute writes made before it, so `Raised` carries the
      state as it stood when the exception was raised. */
  datatype Outcome<+T> = Done(value: T) | Raised(partial: T) {
    /** The state after the call, whether it returned or raised. */
    function State(): T {
      match this
      case Done(v) => v
      case Raised(p) => p
    }
  }

  /** `k` is a possible result of `random.randint(0, n - 1)` (any value is
      acceptable when the list is empty, since then no draw is made). */
  predicate Fits(k: nat, n: nat) {
    n == 0 || k < n
  }
}
