/** A value that may be missing: the source's None. */
module Options {

  datatype Option<+T> = None | Some(value: T)
}
