/** JavaScript values as the S3 nodes see them: a message or configuration
    field is either `undefined` or a string, and `a || b` picks the first
    truthy operand. */
module JsValues {

  /** `None` stands for `undefined`. */
  datatype Option<+T> = None | Some(value: T)

  /** Truthiness of an undefined-or-string value: only a non-empty string is truthy. */
  predicate Truthy(v: Option<string>)
    ensures !Truthy(v) <==> v == None || v == Some("")
  {
    v.Some? && v.value != ""
  }

  /** The JavaScript expression `a || b`. */
  function Or(a: Option<string>, b: Option<string>): (r: Option<string>)
    ensures r == a || r == b
    ensures Truthy(r) <==> Truthy(a) || Truthy(b)
    ensures Truthy(a) ==> r == a
    ensures !Truthy(a) ==> r == b
  {
    if Truthy(a) then a else b
  }
}
