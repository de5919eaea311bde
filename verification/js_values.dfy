/** JavaScript value semantics the core relies on: a value that may be
    `undefined`, and the truthiness test behind `!x` and `x || d` on strings. */
module JsValues {

  /** A value that may be `undefined` (an absent environment variable, an
      absent `response.text`, an error without a `message`). */
  datatype Option<+T> = None | Some(value: T)

  /** A string is falsy in JavaScript when it is `undefined` or empty. */
  predicate Truthy(s: Option<string>) {
    s.Some? && s.value != ""
  }

  /** `s || fallback` for a string that may be `undefined`. */
  function OrElse(s: Option<string>, fallback: string): (r: string)
    ensures Truthy(s) ==> r == s.value
    ensures !Truthy(s) ==> r == fallback
  {
    if s.Some? && s.value != "" then s.value else fallback
  }
}
