/** The optional value used throughout the model: `None` stands for PHP's `NULL`
    when it is a stored value, and for `FALSE` when it is a lookup result. */
module Wrappers {

  datatype Option<+T> = None | Some(value: T)
}
