/** Small shared datatypes: an optional value (a JavaScript value that may be
    `null`/`undefined`) and the outcome of an async call that either resolves or
    throws an `Error` carrying a message. */
module Common {

  /** The login page, where logout and a completed registration lead. */
  const LoginPath := "/login"

  datatype Option<+T> = None | Some(value: T)

  /** Result of awaiting an async function: it resolved, or it threw. */
  datatype Outcome = Done | Thrown(message: string)

  /** JavaScript truthiness of an optional string: present and non-empty. */
  predicate Truthy(s: Option<string>) {
    s.Some? && s.value != ""
  }

  /** `a || b` for an optional string `a` and a fallback `b`: one of the
      two strings, and empty only when both are. */
  function OrElse(s: Option<string>, fallback: string): (r: string)
    ensures r == fallback || (s.Some? && r == s.value)
    ensures r != "" <==> Truthy(s) || fallback != ""
  {
    if Truthy(s) then s.value else fallback
  }
}
