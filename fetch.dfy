// What a front-end component gets back from `fetch`: a response with `ok`
// set, a response without it, or an exception (network failure). The JSON
// body of a failed response is reduced to its `detail` member, the only
// part any component reads.
module Fetch {
  /** One entry of FastAPI's validation-error list: where and what. */
  datatype FieldError = FieldError(loc: seq<string>, msg: string)

  /** The `detail` member of an error body: absent (or null), a string, or
      the validation-error list. */
  datatype Detail = NoDetail | DetailText(text: string) | DetailList(errors: seq<FieldError>)

  /** An error body: not JSON (`res.json()` rejects with a message), or JSON. */
  datatype Body = Unparsable(parseError: string) | Parsed(detail: Detail)

  /** The outcome of one request. A successful response whose body is not
      JSON lands, in every component that parses it, in the same `catch` as
      a network failure, so it is a `Thrown` here. */
  datatype Reply<+T> = Ok(data: T) | NotOk(body: Body) | Thrown(message: string)

  /** `data?.detail` is truthy: a non-empty string or any list. */
  predicate DetailPresent(d: Detail)
  {
    match d
    case NoDetail => false
    case DetailText(t) => t != ""
    case DetailList(_) => true
  }

  /** `message || fallback` on strings. */
  function OrElse(message: string, fallback: string): (r: string)
    ensures message != "" ==> r == message
    ensures message == "" ==> r == fallback
  {
    if message != "" then message else fallback
  }
}
