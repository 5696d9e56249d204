/** An optional value: a parse that may not match, an export that may fail. */
module Optional {

  datatype Option<+T> = None | Some(value: T)
}
