/** An optional value, standing for JavaScript's `null` and "not found" results. */
module Wrappers {

  datatype Option<+T> = None | Some(value: T)
}
