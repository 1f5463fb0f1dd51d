/** An optional value: a worksheet cell that is `None` holds no data. */
module Options {

  datatype Option<+T> = None | Some(value: T)
}
