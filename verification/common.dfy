/** Option: the absent value of the modelled code (Python's `None`). */
module Common {
  /** A value that may be absent (Python's `None`). */
  datatype Option<+T> = None | Some(value: T)
}
