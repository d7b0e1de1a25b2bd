/** An optional value: PHP's `null` or absent, or a present value. */
module Wrappers {
  datatype Option<+T> = None | Some(value: T)
}
