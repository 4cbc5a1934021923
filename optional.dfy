/** A value that may be absent: a NULL column, or a lookup that finds nothing. */
module Optional {

  datatype Option<+T> = None | Some(value: T)
}
