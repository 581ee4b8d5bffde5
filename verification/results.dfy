/** Optional values stand for JavaScript's `undefined`; results stand for a
    computation that either returns or throws an `Error` with a message. */
module Results {

  datatype Option<+T> = None | Some(value: T)

  /** A string-or-undefined JavaScript value is truthy exactly when it is a
      non-empty string. */
  predicate Truthy(o: Option<string>) {
    o.Some? && o.value != ""
  }

  /** `a || b` for a string-or-undefined `a` and a string default `b`. */
  function OrElse(o: Option<string>, default: string): string {
    if Truthy(o) then o.value else default
  }

  /** A returned value, or a thrown `Error` carrying its message. */
  datatype Result<+T> = Ok(value: T) | Err(message: string) {

    predicate IsFailure() {
      Err?
    }

    function PropagateFailure<U>(): Result<U>
      requires Err?
    {
      Err(message)
    }

    function Extract(): T
      requires Ok?
    {
      value
    }
  }
}
