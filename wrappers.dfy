/** Option and the single-error outcome used by the resolver model. */
module Wrappers {

  /** Python's `Optional[T]`: `None` or a present value. */
  datatype Option<+T> = None | Some(value: T)

  /** A value, or the `InvalidStub` exception the source raises on malformed stubs. */
  datatype Outcome<+T> = Ok(value: T) | InvalidStub
}
