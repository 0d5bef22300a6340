/** Optional values, standing for Python's `None` or a value. */
module Wrappers {

  datatype Option<+T> = None | Some(value: T)

  /** Python truthiness of an optional string: `None` and `""` are both false. */
  predicate Truthy(o: Option<string>) {
    o.Some? && o.value != []
  }
}
