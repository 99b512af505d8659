/** An optional value, standing in for the source's nullable parameters. */
module Wrappers {

  datatype Option<+T> = None | Some(value: T)
}
