/** The part of an HTTP response the route handlers decide: a status code and a JSON body. */
module Http {

  datatype Response<+B> = Response(status: nat, body: B)

  /** `response.ok` as `fetch` reports it. */
  predicate IsOk(status: nat) {
    200 <= status <= 299
  }

  /** The JSON bodies of the account and session routes, by the keys they carry. */
  datatype Json =
    | Success(success: bool)                      // { success }
    | Outcome(success: bool, message: string)     // { success, message }
    | Message(message: string)                    // { message }
    | Failure(error: string)                      // { error }
    | AuthState(isAuthenticated: bool)            // { isAuthenticated }
}
