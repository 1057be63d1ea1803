/**
 * What the client sees of HTTP: the JSON fields it reads from response bodies,
 * failed calls, and the request configuration object that interceptors mutate.
 */
module Http {
  import opened Options

  /** A user record as the backend returns it; only its identity matters to the client. */
  datatype User = User(id: int)

  /** The fields of a response body the client reads: `user`, and the error texts `error`, `message` and `msg`. */
  datatype Body = Body(user: Option<User>, error: Option<string>, message: Option<string>, msg: Option<string>)

  datatype ErrorResponse = ErrorResponse(status: int, data: Body)

  /** A rejected call; `response` is absent for network errors and timeouts. */
  datatype HttpFailure = HttpFailure(response: Option<ErrorResponse>)

  /** What an awaited call settles to. */
  datatype Outcome = Ok(body: Body) | Err(failure: HttpFailure)

  /** JavaScript truthiness of a string that may be `undefined`: present and non-empty. */
  predicate Truthy(s: Option<string>) {
    s.Some? && s.value != ""
  }

  /**
   * The request configuration axios passes through its interceptors. The same object is
   * handed to the response interceptors as `error.config` and replayed as it is, so the
   * marks set on it (`_csrfRetry`, `_retry`) and the headers written into it travel with it.
   */
  class RequestConfig {
    const httpMethod: Option<string>
    const url: Option<string>
    var headers: map<string, string>
    var csrfRetry: bool
    var retry: bool

    constructor (httpMethod: Option<string>, url: Option<string>, headers: map<string, string>)
      ensures this.httpMethod == httpMethod && this.url == url && this.headers == headers
      ensures !csrfRetry && !retry
    {
      this.httpMethod := httpMethod;
      this.url := url;
      this.headers := headers;
      csrfRetry := false;
      retry := false;
    }
  }
}
