/** An optional value: a setting that may be unset, a result that may be absent. */
module Optional {

  datatype Option<+T> = None | Some(value: T)
}
