/** An option type standing for Go's nil. */
module Wrappers {

  /** `None` stands for a Go `nil` (a nil map result, or a nil `*Tower` in a slice). */
  datatype Option<+T> = None | Some(value: T)
}
