/** The optional value the source expresses with `null` and `Nullable<T>`. */
module Wrappers {
  datatype Option<+T> = None | Some(value: T)
}
