// Shapes the source expresses with nil pointers, token streams and error returns.
module Wrappers {
  datatype Option<+T> = None | Some(value: T)

  datatype List<+T> = Nil | Cons(head: T, tail: List<T>)

  datatype Result<+T, +E> = Ok(value: T) | Err(error: E)
}
