/**
 * The exceptions the services throw, and the global exception handler that
 * turns some of them into HTTP replies. Status codes follow section 15 of
 * RFC 9110.
 */
module Faults {
  import opened Wrappers

  /** One field error of a failed request-body binding: field name and default message. */
  datatype FieldError = FieldError(field: string, message: string)

  /** An exception thrown by a service, by kind; the payload is what the handler reads from it. */
  datatype Fault =
    | ProviderForbidden(message: string)          // WeatherAPIForbiddenException
    | ProviderUnauthorized(message: string)       // WeatherAPIUnauthorizedException
    | ProviderTimeout(message: string)            // WeatherAPIRequestTimeoutException
    | ConnectFailure(message: string)             // java.net.ConnectException
    | IoFailure(message: string)                  // any other java.io.IOException, JSON parse errors included
    | ConstraintViolations(messages: seq<string>) // jakarta.validation.ConstraintViolationException
    | BindFailure(errors: seq<FieldError>)        // org.springframework.validation.BindException
    | CountryAlreadyExists(message: string)
    | RegionAlreadyExists(message: string)
    | RuntimeFailure(message: string)             // a bare RuntimeException ("... not found")
    | IllegalArgument(message: string)            // IllegalArgumentException
    | IllegalState(message: string)               // IllegalStateException
    | NonUniqueResult                             // a single-result query that matched several rows
    | IntegrityViolation                          // a database constraint failure the service does not catch

  /** An HTTP reply: status code and text body. */
  datatype Reply = Reply(status: int, body: string)

  // Status codes of section 15 of RFC 9110.
  const BadRequest: int := 400
  const Unauthorized: int := 401
  const Forbidden: int := 403
  const RequestTimeout: int := 408
  const InternalServerError: int := 500
  const ServiceUnavailable: int := 503

  const UnavailableBody := "Weather API is unavailable. Check your network connection."
  const UnexpectedPrefix := "An unexpected error occurred: "

  predicate IsClientError(status: int) {
    400 <= status < 500
  }

  predicate IsServerError(status: int) {
    500 <= status < 600
  }

  /** The violation messages, each followed by "; ". */
  function ViolationText(messages: seq<string>): string {
    if |messages| == 0 then "" else ViolationText(messages[..|messages| - 1]) + messages[|messages| - 1] + "; "
  }

  /** The field errors as "field: message; " each. */
  function FieldErrorText(errors: seq<FieldError>): string {
    if |errors| == 0 then ""
    else
      var e := errors[|errors| - 1];
      FieldErrorText(errors[..|errors| - 1]) + e.field + ": " + e.message + "; "
  }

  /**
   * The global exception handler. `None` is an exception it declares no
   * handler for, which the framework's default handling answers instead.
   * Provider failures keep the provider's meaning: forbidden, unauthorized and
   * timed-out calls are answered with the same status, an unreachable provider
   * with 503 and a fixed text, any other I/O failure with 500; validation and
   * duplicate-name failures are the caller's fault (400).
   */
  function Handle(f: Fault): (r: Option<Reply>)
    ensures r.Some? ==> IsClientError(r.value.status) || IsServerError(r.value.status)
    ensures r.Some? && IsServerError(r.value.status) <==> f.ConnectFailure? || f.IoFailure?
    ensures r.None? <==> f.RuntimeFailure? || f.IllegalArgument? || f.IllegalState? || f.NonUniqueResult? || f.IntegrityViolation?
    ensures f.ProviderForbidden? || f.ProviderUnauthorized? || f.ProviderTimeout? || f.CountryAlreadyExists? || f.RegionAlreadyExists?
            ==> r.Some? && r.value.body == f.message
    ensures f.ConstraintViolations? || f.BindFailure? || f.CountryAlreadyExists? || f.RegionAlreadyExists?
            ==> r.Some? && r.value.status == BadRequest
    ensures f.ConstraintViolations? ==> r == Some(Reply(BadRequest, ViolationText(f.messages)))
    ensures f.BindFailure? ==> r == Some(Reply(BadRequest, FieldErrorText(f.errors)))
    ensures f.ProviderForbidden? ==> r == Some(Reply(Forbidden, f.message))
    ensures f.ProviderUnauthorized? ==> r == Some(Reply(Unauthorized, f.message))
    ensures f.ProviderTimeout? ==> r == Some(Reply(RequestTimeout, f.message))
  {
    match f
    case ProviderForbidden(m) => Some(Reply(Forbidden, m))
    case ProviderTimeout(m) => Some(Reply(RequestTimeout, m))
    case ProviderUnauthorized(m) => Some(Reply(Unauthorized, m))
    case ConnectFailure(_) => Some(Reply(ServiceUnavailable, UnavailableBody))
    case IoFailure(m) => Some(Reply(InternalServerError, UnexpectedPrefix + m))
    case ConstraintViolations(ms) => Some(Reply(BadRequest, ViolationText(ms)))
    case BindFailure(es) => Some(Reply(BadRequest, FieldErrorText(es)))
    case CountryAlreadyExists(m) => Some(Reply(BadRequest, m))
    case RegionAlreadyExists(m) => Some(Reply(BadRequest, m))
    case RuntimeFailure(_) => None
    case IllegalArgument(_) => None
    case IllegalState(_) => None
    case NonUniqueResult => None
    case IntegrityViolation => None
  }

  /** The body lists the violations in order: the text of a concatenation is the concatenation of the texts. */
  lemma {:induction false} ViolationTextConcat(a: seq<string>, b: seq<string>)
    ensures ViolationText(a + b) == ViolationText(a) + ViolationText(b)
    decreases |b|
  {
    if |b| == 0 {
      assert a + b == a;
    } else {
      var init := b[..|b| - 1];
      assert (a + b)[..|a + b| - 1] == a + init;
      assert (a + b)[|a + b| - 1] == b[|b| - 1];
      ViolationTextConcat(a, init);
    }
  }

  /** A single violation is answered with its message followed by "; ". */
  lemma SingleViolationText(m: string)
    ensures Handle(ConstraintViolations([m])) == Some(Reply(BadRequest, m + "; "))
  {
    assert [m][..0] == [];
    assert ViolationText([m]) == ViolationText([]) + m + "; ";
    assert ViolationText([]) + m == m;
  }
}
