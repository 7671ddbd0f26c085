/** Failure-carrying wrappers used throughout the model. */
module Results {

  datatype Option<+T> = None | Some(value: T) {
    function GetOr(default: T): T {
      match this
      case Some(v) => v
      case None => default
    }
  }

  /** The outcome of an operation that either produces a value or raises an exception. */
  datatype Result<+T, +E> = Ok(value: T) | Err(error: E)

  /** Sequence concatenation regroups freely; the step that accumulating loops lean on. */
  lemma ConcatAssoc<T>(a: seq<T>, b: seq<T>, c: seq<T>)
    ensures (a + b) + c == a + (b + c)
  {
  }
}
