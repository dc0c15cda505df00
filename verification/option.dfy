/** A value the C code may leave unset. */
module Optional {

  datatype Option<+T> = None | Some(value: T)
}
