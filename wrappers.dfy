/** Option type used for Python operations that may raise. */
module Wrappers {

  /** `None` stands for a raised exception, `Some(v)` for a returned value. */
  datatype Option<+T> = None | Some(value: T)
}
