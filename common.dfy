/** Small shared types. */
module Common {

  /** A value that may be absent; `None` also stands for a Python name not yet bound. */
  datatype Option<T> = None | Some(value: T)
}
