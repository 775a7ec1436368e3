/**
 * The application's error classification: a closed set of three kinds,
 * each with a fixed message and a fixed HTTP status code.
 */
module Errors {
  import opened Wrappers

  /** The three kinds of application error; none carries a payload. */
  datatype AppError = NotFound | InternalServerError | NotImplementedError

  /** An HTTP status code, three digits as the `http` crate admits it. */
  type StatusCode = c: int | 100 <= c <= 999 witness 100

  /**
   * Reference table: the reason phrases of the client-error (4xx) and
   * server-error (5xx) status codes defined in sections 15.5 and 15.6 of
   * RFC 9110.
   */
  const ReasonPhrases: map<StatusCode, string> := map[
    400 := "Bad Request",
    401 := "Unauthorized",
    402 := "Payment Required",
    403 := "Forbidden",
    404 := "Not Found",
    405 := "Method Not Allowed",
    406 := "Not Acceptable",
    407 := "Proxy Authentication Required",
    408 := "Request Timeout",
    409 := "Conflict",
    410 := "Gone",
    411 := "Length Required",
    412 := "Precondition Failed",
    413 := "Content Too Large",
    414 := "URI Too Long",
    415 := "Unsupported Media Type",
    416 := "Range Not Satisfiable",
    417 := "Expectation Failed",
    421 := "Misdirected Request",
    422 := "Unprocessable Content",
    426 := "Upgrade Required",
    500 := "Internal Server Error",
    501 := "Not Implemented",
    502 := "Bad Gateway",
    503 := "Service Unavailable",
    504 := "Gateway Timeout",
    505 := "HTTP Version Not Supported"
  ]

  /** A client error (section 15.5 of RFC 9110): the request was at fault. */
  predicate IsClientError(code: StatusCode) { 400 <= code <= 499 }

  /** A server error (section 15.6 of RFC 9110): the server was at fault. */
  predicate IsServerError(code: StatusCode) { 500 <= code <= 599 }

  /** The display message of each kind (its `Display` text). */
  function Message(e: AppError): (m: string)
    ensures |m| > 0
  {
    match e
    case NotFound => "Not Found"
    case InternalServerError => "Internal Server Error"
    case NotImplementedError => "Not Implemented"
  }

  /**
   * The status code of each kind. Every kind is an error status, only
   * NotFound blames the client, and the message of each kind is the
   * standard reason phrase of its code.
   */
  function StatusCodeOf(e: AppError): (c: StatusCode)
    ensures c in {404, 500, 501}
    ensures IsClientError(c) <==> e == NotFound
    ensures IsServerError(c) <==> e != NotFound
    ensures c in ReasonPhrases && ReasonPhrases[c] == Message(e)
  {
    match e
    case NotFound => 404
    case InternalServerError => 500
    case NotImplementedError => 501
  }

  /** The kind a status code stands for, if any: the inverse of StatusCodeOf. */
  function FromStatusCode(c: StatusCode): (r: Option<AppError>)
    ensures r.Some? ==> StatusCodeOf(r.value) == c
    ensures r.None? <==> c !in {404, 500, 501}
  {
    if c == 404 then Some(NotFound)
    else if c == 500 then Some(InternalServerError)
    else if c == 501 then Some(NotImplementedError)
    else None
  }

  /** Reading a kind's status code back gives the kind: no two kinds share a code. */
  lemma StatusCodeRoundTrip(e: AppError)
    ensures FromStatusCode(StatusCodeOf(e)) == Some(e)
  {
  }

  /** Distinct kinds have distinct status codes. */
  lemma StatusCodeInjective(a: AppError, b: AppError)
    ensures StatusCodeOf(a) == StatusCodeOf(b) ==> a == b
  {
    StatusCodeRoundTrip(a);
    StatusCodeRoundTrip(b);
  }

  /** Distinct kinds have distinct messages. */
  lemma MessageInjective(a: AppError, b: AppError)
    ensures Message(a) == Message(b) ==> a == b
  {
    if Message(a) == Message(b) {
      assert StatusCodeOf(a) == StatusCodeOf(b) by {
        // Two different codes of the table have different phrases.
        assert ReasonPhrases[404] != ReasonPhrases[500];
        assert ReasonPhrases[404] != ReasonPhrases[501];
        assert ReasonPhrases[500] != ReasonPhrases[501];
      }
      StatusCodeInjective(a, b);
    }
  }
}
