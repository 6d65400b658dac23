/** The optional value the rest of the project uses for the source's error and not-found returns. */
module Wrappers {
  datatype Option<+T> = None | Some(value: T)
}
