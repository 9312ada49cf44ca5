/** The usual optional value: a pointer of the source that may be null is an optional slot number. */
module Options {

  datatype Option<+T> = None | Some(value: T)
}
