/** Shared vocabulary of the API: optional values, identifiers, clock readings and
    the JSON reply every route sends back. */
module Common {

  /** A value that a request may or may not carry (a missing body field, a missing header). */
  datatype Option<T> = None | Some(value: T)

  /** Identifier of a stored document, in its canonical string form: the identifier a URL
      id casts to (several URL spellings can name the same one). */
  type Id = string

  /** A clock reading in milliseconds since the epoch (what `Date.now()` returns). */
  type Time = nat

  /** One entry of the `errors` array that express-validator reports. */
  datatype FieldError = FieldError(field: string, msg: string)

  /** The JSON reply `{ status, message, errors, data }` together with its HTTP status code;
      `ok` is the boolean `status` flag of the body. */
  datatype Response<T> = Response(code: nat, ok: bool, message: string, errors: seq<FieldError>, data: Option<T>)

  function Success<T>(code: nat, message: string, data: T): Response<T>
  {
    Response(code, true, message, [], Some(data))
  }

  function Failure<T>(code: nat, message: string): Response<T>
  {
    Response(code, false, message, [], None)
  }

  function Invalid<T>(message: string, errors: seq<FieldError>): Response<T>
  {
    Response(400, false, message, errors, None)
  }

  /** JavaScript truthiness of an optional string: present and not the empty string. */
  predicate Supplied(v: Option<string>)
  {
    v.Some? && v.value != ""
  }
}
