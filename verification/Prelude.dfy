/** Option and Result, used throughout the model for Go's nil values and error returns. */
module Prelude {
  datatype Option<+T> = None | Some(value: T)

  datatype Result<+T, +E> = Ok(value: T) | Err(error: E)

  newtype byte = x: int | 0 <= x < 256

  type Bytes = seq<byte>

  lemma Associative<T>(a: seq<T>, b: seq<T>, c: seq<T>)
    ensures (a + b) + c == a + (b + c)
  {}
}
