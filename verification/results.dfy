/** Failure-compatible result type for the codec. Every fatal condition of the
    binary reader and writer (an asserted constant that does not match, a read
    past the end of the buffer, an unknown type tag, ...) becomes a `Fail`. */
module Results {

  /** Why a read or a write was aborted. */
  datatype Error =
    | EndOfData          // a read ran past the end of the buffer
    | AssertionFailed    // an asserted padding/constant field had another value
    | InvalidBoolean     // a boolean byte that is neither 0 nor 1
    | UndefinedEnumValue // an enum byte/word that names no member of the enum
    | NegativeSeek       // a relative offset that points before the buffer start
    | NegativeLength     // a raw byte count that is negative once cast to int
    | MissingSubStruct   // a slot the variant declares was never populated (null)

  datatype Result<+T> = Ok(value: T) | Fail(error: Error) {

    predicate IsFailure() {
      Fail?
    }

    function PropagateFailure<U>(): Result<U>
      requires Fail?
    {
      Fail(error)
    }

    function Extract(): T
      requires Ok?
    {
      value
    }
  }

  datatype Option<+T> = None | Some(value: T)
}
