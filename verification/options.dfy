/** A value that may be absent: a nullable column, an optional request field. */
module Options {

  datatype Option<+T> = None | Some(value: T)
}
