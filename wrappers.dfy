/** The error path of an operation that raises instead of returning. */
module Wrappers {

  datatype Option<+T> = None | Some(value: T)
}
