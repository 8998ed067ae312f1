/** What several components return where a value may be missing. */
module Wrappers {
  datatype Option<T> = None | Some(value: T)
}
