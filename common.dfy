/** Small value wrappers shared by the whole model. */
module Common {

  /** A possibly absent value; `None` stands for Java's `null`. */
  datatype Option<+T> = None | Some(value: T)

  /** The outcome of an operation that either yields a value or fails with an error. */
  datatype Result<+T, +E> = Success(value: T) | Failure(error: E)

  /** An immutable pair, as the pipeline's `Pair` record carries one result per compared version. */
  datatype Pair<+A, +B> = Pair(first: A, second: B)

  /** Unsigned bytes, the content of files and HTTP bodies. */
  newtype Byte = x: int | 0 <= x < 256
  type Bytes = seq<Byte>
}
