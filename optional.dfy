/** A value that may be missing: Python's None. */
module Optional {

  datatype Option<+T> = None | Some(value: T)
}
