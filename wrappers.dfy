/** Optional values: a JSON field or a request parameter that may be missing. */
module Wrappers {

  datatype Option<+T> = None | Some(value: T)

  /** JavaScript truthiness of an optional string: missing and "" are both falsy. */
  predicate Truthy(o: Option<string>) {
    o.Some? && o.value != ""
  }

  /** The value of a truthy field, or "" for a falsy one. */
  function ValueOrEmpty(o: Option<string>): (s: string)
    ensures s != "" <==> Truthy(o)
  {
    if o.Some? then o.value else ""
  }
}
