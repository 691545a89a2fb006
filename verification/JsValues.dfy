/** JavaScript's two absent values, kept apart because the scripts compare with
    `!==` in some places and with `??` or truthiness in others. */
module JsValues {
  datatype Js<+T> = Undefined | Null | Value(v: T)

  datatype Option<+T> = None | Some(value: T)

  datatype Result<+T, +E> = Ok(value: T) | Err(error: E)

  /** `a ?? b` */
  function OrElse<T>(a: Js<T>, b: Js<T>): Js<T> {
    if a.Value? then a else b
  }

  /** `a ?? null` */
  function OrNull<T>(a: Js<T>): Js<T> {
    OrElse(a, Null)
  }

  /** Whether a string-valued field is truthy: present and not empty. */
  predicate Truthy(s: Js<string>) {
    s.Value? && s.v != ""
  }
}
