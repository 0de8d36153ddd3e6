/** The `Option` type the model uses for Python's `None`. */
module Wrappers {

  /** An optional value; stands for Python's `None` beside a real value. */
  datatype Option<+T> = None | Some(value: T)
}
