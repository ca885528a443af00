/** JavaScript values as the presence server sees them: optional values,
    opaque numbers, and the truthiness tests the handlers apply to them. */
module JsTypes {

  /** A value that may be `null`/`undefined` (None) or present (Some). */
  datatype Option<+T> = None | Some(value: T)

  /** The outcome of a handler: a value, or the exception it threw. */
  datatype Result<+T, +E> = Success(value: T) | Failure(error: E)

  /** A coordinate or accuracy as relayed by the server. The server never
      computes with these values, so a number is kept as an opaque real;
      `Missing` stands for `null` or `undefined`. */
  datatype Num = Missing | NaN | Finite(value: real)

  /** JavaScript truthiness of a number: `0`, `NaN`, `null` and `undefined` are falsy. */
  predicate NumTruthy(n: Num) {
    n.Finite? && n.value != 0.0
  }

  /** JavaScript truthiness of an optional string: absent and `""` are falsy. */
  predicate StrTruthy(s: Option<string>) {
    s.Some? && s.value != ""
  }

  /** The JavaScript expression `a || b` on optional strings. */
  function Or(a: Option<string>, b: Option<string>): Option<string> {
    if StrTruthy(a) then a else b
  }
}
