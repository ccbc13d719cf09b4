/** A value that may be missing: a NULL pointer, or nothing received. */
module Options {

  datatype Option<+T> = None | Some(value: T)
}
