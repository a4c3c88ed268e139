/** The optional value used for PHP's nullable values (`?int`, `?string`, `null`). */
module Wrappers {

  datatype Option<+T> = None | Some(value: T)
}
