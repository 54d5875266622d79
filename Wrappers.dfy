/** The usual Option type: the source's `None` and the absent regular-expression match. */
module Wrappers {
  datatype Option<+T> = None | Some(value: T)
}
