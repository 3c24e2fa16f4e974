/** Optional values, results with an error, and HTTP replies, shared by every module of the model. */
module Wrappers {

  /** A value that may be absent (`undefined` / `null` in the source). */
  datatype Option<T> = None | Some(value: T)

  /** The outcome of an operation that can fail with an error of type E. */
  datatype Result<T, E> = Ok(value: T) | Err(error: E)

  /** A successful HTTP response: its status and its payload. */
  datatype Reply<T> = Reply(status: int, body: T)
}
