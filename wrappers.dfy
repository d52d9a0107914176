/** The optional value that Python expresses as `Optional[str]` / `None`. */
module Wrappers {
  datatype Option<+T> = None | Some(value: T)
}
