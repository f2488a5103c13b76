/** The C# nullable-reference convention (`Customer?`, `bool?`, `string?`) as a datatype. */
module Wrappers {

  /** `None` stands for `null`; `Some(v)` for a non-null value `v`. */
  datatype Option<+T> = None | Some(value: T)
}
