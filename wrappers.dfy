/** The optional value used for the AST's optional attribute and for search results. */
module Wrappers {

  /** `None` stands for Python's `None` where an optional node or value is absent. */
  datatype Option<+T> = None | Some(value: T)
}
