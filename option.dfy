/** The optional-value datatype used throughout the model (Python's `None`). */
module Optional {

  datatype Option<+T> = None | Some(value: T)
}
