/** An optional value, for searches and loops that may find nothing. */
module Optional {

  datatype Option<T> = None | Some(value: T)
}
