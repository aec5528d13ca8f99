/**
 * Small value types shared by the components: an optional value, and the
 * error object that a failed HTTP call hands to a `catch` block.
 */
module Common {

  datatype Option<+T> = None | Some(value: T)

  /** JavaScript's `a || b` on strings: the empty string is falsy. */
  function OrElse(a: string, b: string): (r: string)
    ensures a != [] ==> r == a
    ensures a == [] ==> r == b
  {
    if a != [] then a else b
  }

  /** An optional string that JavaScript would treat as truthy. */
  predicate Truthy(s: Option<string>)
  {
    s.Some? && s.value != []
  }

  /**
   * What an error caught from the HTTP client carries: the server's
   * `response.data.error`, `response.data.message`, and the client's own
   * `message`. The empty string stands for an absent or empty field.
   */
  datatype ApiError = ApiError(dataError: string, dataMessage: string, message: string)

  /** The outcome of one HTTP call, passed to the model as a parameter. */
  datatype ApiResult<+T> = Ok(value: T) | Fail(error: ApiError)
}
