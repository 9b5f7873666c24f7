/** A value that may be absent: the result of anything the program may refuse or not find. */
module Options {
  datatype Option<+T> = None | Some(value: T)
}
