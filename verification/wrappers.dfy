/** The null-or-value results of the search engine and its structures. */
module Wrappers {

  /** A reference that may be null: `None` stands for the source's `null`. */
  datatype Option<+T> = None | Some(value: T)
}
