/** Python's `None`-or-value results, as a datatype. */
module Optional {

  datatype Option<+T> = None | Some(value: T)

}
