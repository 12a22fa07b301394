/** The few pieces of JavaScript value semantics that the server's handlers
    depend on: values that may be `undefined` (environment variables, request
    headers), the values a field of a parsed JSON request body can hold,
    truthiness, and strict equality (`===`). */
module JsValues {

  /** A value that is either `undefined` (None) or present. */
  datatype Option<+T> = None | Some(value: T)

  /** A property read out of a parsed JSON value: a field of the request body,
      or a property of the upstream response. `Other` stands for every value
      that is neither a string nor `undefined`: null, numbers, booleans,
      objects and arrays. */
  datatype JsonField = Undefined | Text(text: string) | Other

  /** JavaScript truthiness of a string-or-undefined: `undefined` and the empty
      string are falsy, every other string is truthy. */
  predicate Truthy(v: Option<string>) {
    v.Some? && v.value != ""
  }

  /** `field === configured`, where the right-hand side is an environment
      variable and therefore a string or `undefined`. Strict equality does not
      convert: `null`, a number or an object never equals a string, and
      `undefined` equals only `undefined`. */
  predicate StrictEquals(field: JsonField, configured: Option<string>) {
    match field
    case Undefined => configured.None?
    case Text(s) => configured == Some(s)
    case Other => false
  }

  /** The one JSON field that is strictly equal to a configured value: an
      omitted field for an unset variable, the same string for a set one. */
  function MatchingField(configured: Option<string>): (f: JsonField)
    ensures StrictEquals(f, configured)
    ensures f != Other
  {
    match configured
    case None => Undefined
    case Some(s) => Text(s)
  }

  /** Strict equality against a configured value holds for exactly one field:
      the one `MatchingField` names, and no other. */
  lemma StrictEqualsExactlyMatchingField(f: JsonField, configured: Option<string>)
    ensures StrictEquals(f, configured) <==> f == MatchingField(configured)
  {
  }
}
