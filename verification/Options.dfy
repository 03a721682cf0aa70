/** A value that may be missing: a null pointer, or a result that is not there. */
module Options {

  datatype Option<+T> = None | Some(value: T)
}
