/** Shared vocabulary: optional values, JavaScript truthiness of request
    fields, and the status/payload shape of an HTTP response. */
module Common {

  datatype Option<+T> = None | Some(value: T)

  datatype Result<+T, +E> = Success(value: T) | Failure(error: E)

  /** A JSON string field as a handler reads it: absent (`undefined`) or
      present. `!field` is true when it is absent or the empty string. */
  predicate Truthy(field: Option<string>)
  {
    field.Some? && field.value != ""
  }

  /** A JSON number field: `!field` is true when it is absent or 0. */
  predicate TruthyNumber(field: Option<int>)
  {
    field.Some? && field.value != 0
  }

  /** `field || fallback` on an optional string. */
  function OrElse(field: Option<string>, fallback: string): string
  {
    if Truthy(field) then field.value else fallback
  }

  /** The JSON body of a response: either `{ data, ... }` or `{ error }`. */
  datatype Payload<+T> = Data(value: T) | Error(message: string)

  datatype Response<+T> = Response(status: int, payload: Payload<T>)

  /** `response.ok` of the Fetch API. */
  predicate IsOk(status: int)
  {
    200 <= status <= 299
  }

  function Min(a: int, b: int): int
  {
    if a <= b then a else b
  }

  /** `text.includes(part)`. */
  predicate Contains(text: string, part: string)
  {
    part <= text || (text != [] && Contains(text[1..], part))
  }
}
