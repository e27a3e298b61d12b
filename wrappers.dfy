/** The optional value used for Go's `(T, error)` pairs whose error carries no data the model needs. */
module Wrappers {

  datatype Option<+T> = None | Some(value: T)
}
