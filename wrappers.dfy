/** The optional value used for Python's `Optional[str]` results (`None` or a value). */
module Wrappers {

  datatype Option<+T> = None | Some(value: T)
}
