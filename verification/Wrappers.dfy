/** What the modules share. */
module Wrappers {
  datatype Option<T> = Some(value: T) | None
}
