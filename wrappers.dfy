/** Optional values, standing for Python's `None` versus a present value. */
module Wrappers {

  datatype Option<+T> = None | Some(value: T)

  /** Python truthiness of an optional string: `None` and `""` are falsy. */
  predicate Truthy(o: Option<string>)
  {
    o.Some? && o.value != ""
  }
}
