/** The optional-value datatype shared by the other modules. */
module Wrappers {

  /** `None` stands for Python's `None`/`-1` sentinel or pandas' missing value, depending on use. */
  datatype Option<+T> = None | Some(value: T)
}
