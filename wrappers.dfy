/** Stock optional-value wrapper, used for Go's `(value, ok)` returns and nil-able handlers. */
module Wrappers {
  datatype Option<+T> = None | Some(value: T)
}
