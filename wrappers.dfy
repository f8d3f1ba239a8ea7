/** The optional value the source's `Option<T>` stands for. */
module Wrappers {

  datatype Option<+T> = None | Some(value: T)
}
