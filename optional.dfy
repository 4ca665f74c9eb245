/** The usual optional value, used for nullable arguments and "not found" results. */
module Optional {
  datatype Option<T> = None | Some(value: T)
}
