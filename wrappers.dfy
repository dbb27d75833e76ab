/** Option and Result, as the interpreter's Rust code uses them. */
module Wrappers {

  datatype Option<+T> = None | Some(value: T)

  /** The outcome of a Rust function that returns `Result<T, E>`.
      `Panic` stands for the cases where the Rust code does not return at all
      but panics (an out-of-bounds index or slice, an arithmetic overflow in a
      debug build), or where the model stops a run that would exhaust the
      stack; `cause` names which. */
  datatype Result<+T, +E> = Ok(value: T) | Err(error: E) | Panic(cause: string)
}
