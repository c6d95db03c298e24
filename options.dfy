/** The usual Some/None datatype, standing in for Java's `null` results. */
module Options {

  datatype Option<+T> = None | Some(value: T)
}
