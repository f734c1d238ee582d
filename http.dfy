/** The slice of Angular's HTTP layer the client code inspects. */
module Http {
  import opened Wrappers

  /** What `HttpErrorResponse.error` holds. */
  datatype ErrorPayload =
    | ClientEvent(eventMessage: string)        // a client-side `ErrorEvent`
    | ServerBody(bodyMessage: Option<string>)  // a body from the server, with or without a `message`
    | NoBody                                   // `null` or `undefined`

  /** An `HttpErrorResponse`: status code (0 for a network failure), its own message and the payload. */
  datatype HttpError = HttpError(status: nat, message: string, payload: ErrorPayload)

  /** A finished HTTP call as the subscriber sees it: the response body, or the error raised. */
  type HttpOutcome<T> = Result<T, HttpError>

  /** An outgoing request: the URL and its headers by name. */
  datatype Request = Request(url: string, headers: map<string, string>)
}
