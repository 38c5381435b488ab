/** Optional values: an absent JSON member or environment variable is `None`. */
module Wrappers {

  datatype Option<+T> = None | Some(value: T)

  /** JavaScript truthiness of an optional string: `!x` holds both for
      `undefined` and for the empty string. */
  predicate Truthy(o: Option<string>)
  {
    o.Some? && o.value != ""
  }
}
