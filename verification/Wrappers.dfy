/** An optional value: a nullable column, or a query that may fail. */
module Wrappers {
  datatype Option<+T> = None | Some(value: T)
}
