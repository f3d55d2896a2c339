/** Option and Result, the two failure-carrying datatypes the model uses in
    place of JavaScript's `undefined` and thrown exceptions. */
module Wrappers {

  datatype Option<+T> = None | Some(value: T)

  /** What the engine throws: a `TypeError` from the builder, a plain
      `Error` from the traversal engine, each with its message. */
  datatype Exception = TypeError(message: string) | Error(message: string)

  datatype Result<+T> = Ok(value: T) | Err(error: Exception)
}
