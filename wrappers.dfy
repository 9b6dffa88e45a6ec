/** The optional-value datatype used wherever the Go code returns a value
    together with an `error` or an `ok` flag. */
module Wrappers {

  datatype Option<+T> = None | Some(value: T)
}
