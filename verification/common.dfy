/** Small shared vocabulary: optional values, results and bytes. */
module Common {

  /** A value that may be absent, as Python's `None`. */
  datatype Option<+T> = None | Some(value: T)

  /** The outcome of an operation that either produces a value or fails. */
  datatype Result<+T, +E> = Ok(value: T) | Err(error: E)

  /** One octet of file content. */
  newtype byte = x: int | 0 <= x < 256

  /** Python truthiness of an optional string: present and non-empty. */
  predicate TruthyText(o: Option<string>)
  {
    o.Some? && |o.value| > 0
  }

  /** Python truthiness of optional file content: present and non-empty. */
  predicate TruthyBytes(o: Option<seq<byte>>)
  {
    o.Some? && |o.value| > 0
  }
}
