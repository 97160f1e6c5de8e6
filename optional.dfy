/** An optional value: a possibly-NULL pointer of the C code. */
module Optional {
  datatype Option<T> = None | Some(value: T)
}
