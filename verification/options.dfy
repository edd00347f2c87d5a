/**
  Optional values, standing for a property of a JSON request body that may be
  present or `undefined`, and the JavaScript notion of truthiness applied to
  such an optional string.
 */
module Options {

  /** `None` is a property that is `undefined`; `Some(v)` is one that is present. */
  datatype Option<+T> = None | Some(value: T) {

    /** The carried value, or `default` when absent. */
    function GetOr(default: T): T {
      match this
      case Some(v) => v
      case None => default
    }
  }

  /** JavaScript truthiness of an optional string: `undefined` and `""` are falsy. */
  predicate Truthy(o: Option<string>) {
    o.Some? && o.value != ""
  }
}
