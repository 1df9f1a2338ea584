/** The optional and the success-or-error values shared by every module of the model. */
module Options {

  /** A value that may be absent; `None` stands for JavaScript's `undefined` or `null` results. */
  datatype Option<+T> = None | Some(value: T)

  /** The outcome of an operation that can throw: `Err` carries what was thrown. */
  datatype Result<+T, +E> = Ok(value: T) | Err(error: E)
}
