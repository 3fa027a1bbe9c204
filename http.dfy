/** What a request handler can answer, what a front-end request can come back
    with, and the server-side session. */
module Http {
  import opened Wrappers

  /** A backend handler's answer. `ServerError` stands for an uncaught Python
      exception (an attribute read on a missing row or form field). */
  datatype Outcome<T> =
    | Ok(value: T)              // 200
    | Created(value: T)         // 201
    | NoContent                 // 204
    | Redirect(location: string)  // 302
    | BadRequest(detail: string)  // 400
    | Forbidden(detail: string)   // 403
    | NotFound(detail: string)    // 404
    | ServerError               // 500

  /** A front-end `fetch`: a response with `ok` set, a response without, or a
      rejected promise (network failure). */
  datatype Reply<T> = Success(body: T) | Failure | NetworkError

  /** The signed-cookie session of the server-rendered shopping-list app. */
  type Session = map<string, string>

  /** A front-end access token read from local storage counts as present
      only when it is there and non-empty. */
  predicate Signed(token: Option<string>) {
    token.Some? && token.value != ""
  }

  const UserIdKey := "user_id"
  const LoginPath := "/login"
}
