/** Small shared datatypes. */
module Common {

  /** A value that may be absent (Python's `None` when it stands for "no value"). */
  datatype Option<T> = None | Some(value: T)
}
