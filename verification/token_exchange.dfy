/** The `/api/get-token` endpoint as a decision over its inputs: the session
    gate first, then the upstream configuration check, then the outcome of
    the single outbound request. The request itself is an input. */
module TokenExchange {
  import opened JsValues
  import opened SessionStore

  /** `AZURE_OPENAI_SESSIONS_URL`, `AZURE_OPENAI_API_KEY` and
      `AZURE_OPENAI_WEBRTC_URL`, each possibly unset. */
  datatype UpstreamConfig = UpstreamConfig(sessionsUrl: Option<string>, apiKey: Option<string>,
                                           webrtcUrl: Option<string>)

  /** What `JSON.parse` makes of a response body: a syntax error with its
      message, `null`, or any other value, of which the handler reads only
      `data.id` and `data.client_secret?.value`. */
  datatype JsonReading =
    | NotJson(syntaxError: string)
    | JsonNull
    | JsonValue(id: JsonField, clientSecretValue: JsonField)

  /** `response.ok`: a status in the 2xx range. */
  predicate OkStatus(status: int) {
    200 <= status <= 299
  }

  /** A status for which `response.ok` holds, and one for which it does not. */
  type SuccessStatus = s: int | OkStatus(s) witness 200
  type FailureStatus = s: int | !OkStatus(s) witness 500

  /** What the outbound POST produced. `Threw` is an exception from `fetch`
      or from reading the body stream. `Failed` is a non-2xx response with the
      text of its body, which is all the handler reads of it. `Succeeded` is a
      2xx response with what `response.json()` makes of its body, which is all
      the handler reads of that. The status types make each real event fit
      exactly one of these forms. */
  datatype UpstreamResult =
    | Threw(message: string)
    | Failed(errorStatus: FailureStatus, text: string)
    | Succeeded(okStatus: SuccessStatus, json: JsonReading)

  /** Why the exchange failed with 500 after the configuration check: an
      exception carrying a message, or the engine's own error from reading
      `id` of a `null` body. */
  datatype FailureCause = Raised(message: string) | NullResponseBody

  datatype TokenReply =
    | SessionRejected(why: Refusal)
    | ConfigurationError
    | UpstreamError(status: int, details: string)
    | ExchangeFailed(cause: FailureCause)
    | TokenIssued(sessionId: JsonField, ephemeralKey: JsonField, webrtcUrl: Option<string>)
  {
    function HttpStatus(): int {
      match this
      case SessionRejected(_) => 401
      case ConfigurationError => 500
      case UpstreamError(status, _) => status
      case ExchangeFailed(_) => 500
      case TokenIssued(_, _, _) => 200
    }
  }

  datatype Exchange = Exchange(reply: TokenReply, registry: Registry)

  /** Both upstream coordinates are truthy. */
  predicate Configured(cfg: UpstreamConfig) {
    Truthy(cfg.sessionsUrl) && Truthy(cfg.apiKey)
  }

  /** The upstream answered 2xx with a body that parses to a non-null value. */
  predicate Usable(upstream: UpstreamResult) {
    upstream.Succeeded? && upstream.json.JsonValue?
  }

  /** The endpoint at time `now`. The gate's refusal is answered with 401 and
      nothing after it is consulted; a missing coordinate is answered with 500;
      a non-2xx upstream status is relayed with the upstream text; an
      exception, a 2xx body that is not JSON and a `null` body are answered
      with 500; a usable body is answered with 200, carrying its `id`, its
      client secret's `value` and the configured WebRTC URL. The registry
      changes only through the gate, so a session that passed the gate is
      never consumed by the exchange. */
  function HandleGetToken(reg: Registry, cfg: UpstreamConfig, header: Option<string>, now: Millis,
                          upstream: UpstreamResult): (e: Exchange)
    ensures e.reply.SessionRejected?
        <==> ValidateSession(reg, header, now).verdict.Refused?
    ensures e.reply.SessionRejected?
        ==> e.reply.why == ValidateSession(reg, header, now).verdict.why
    ensures e.registry == ValidateSession(reg, header, now).registry
    ensures !e.reply.SessionRejected? ==> e.registry == reg
    ensures e.reply == ConfigurationError
        <==> ValidateSession(reg, header, now).verdict.Admitted? && !Configured(cfg)
    ensures e.reply.UpstreamError?
        <==> ValidateSession(reg, header, now).verdict.Admitted? && Configured(cfg)
             && upstream.Failed?
    ensures e.reply.UpstreamError?
        ==> e.reply.HttpStatus() == upstream.errorStatus && e.reply.details == upstream.text
    ensures e.reply.ExchangeFailed?
        <==> ValidateSession(reg, header, now).verdict.Admitted? && Configured(cfg)
             && (upstream.Threw? || (upstream.Succeeded? && !upstream.json.JsonValue?))
    ensures e.reply == ExchangeFailed(NullResponseBody)
        ==> upstream.Succeeded? && upstream.json == JsonNull
    ensures e.reply.ExchangeFailed? && e.reply.cause.Raised?
        ==> (upstream.Threw? && e.reply.cause.message == upstream.message)
            || (upstream.Succeeded? && upstream.json == NotJson(e.reply.cause.message))
    ensures e.reply.TokenIssued?
        <==> ValidateSession(reg, header, now).verdict.Admitted? && Configured(cfg) && Usable(upstream)
    ensures e.reply.TokenIssued?
        ==> && e.reply.sessionId == upstream.json.id
            && e.reply.ephemeralKey == upstream.json.clientSecretValue
            && e.reply.webrtcUrl == cfg.webrtcUrl
    ensures e.reply.HttpStatus() == 200 <==> e.reply.TokenIssued?
  {
    var v := ValidateSession(reg, header, now);
    if v.verdict.Refused? then
      Exchange(SessionRejected(v.verdict.why), v.registry)
    else if !Configured(cfg) then
      Exchange(ConfigurationError, reg)
    else
      match upstream
      case Threw(message) => Exchange(ExchangeFailed(Raised(message)), reg)
      case Failed(status, text) => Exchange(UpstreamError(status, text), reg)
      case Succeeded(_, json) =>
        match json
        case NotJson(syntaxError) => Exchange(ExchangeFailed(Raised(syntaxError)), reg)
        case JsonNull => Exchange(ExchangeFailed(NullResponseBody), reg)
        case JsonValue(id, clientSecretValue) =>
          Exchange(TokenIssued(id, clientSecretValue, cfg.webrtcUrl), reg)
  }

  /** A request the gate refuses makes no upstream call and does not read the
      configuration: its answer and resulting registry are the same whatever
      the configuration and whatever the upstream would have produced. */
  lemma RefusalPrecedesEverything(reg: Registry, header: Option<string>, now: Millis,
                                  cfg1: UpstreamConfig, upstream1: UpstreamResult,
                                  cfg2: UpstreamConfig, upstream2: UpstreamResult)
    requires ValidateSession(reg, header, now).verdict.Refused?
    ensures HandleGetToken(reg, cfg1, header, now, upstream1) == HandleGetToken(reg, cfg2, header, now, upstream2)
    ensures HandleGetToken(reg, cfg1, header, now, upstream1).reply.HttpStatus() == 401
  {
  }

  /** Without a header the request is refused as MissingToken, no upstream
      call is made, and the registry is untouched. */
  lemma MissingHeaderIsRefused(reg: Registry, cfg: UpstreamConfig, now: Millis, upstream: UpstreamResult)
    ensures HandleGetToken(reg, cfg, None, now, upstream) == Exchange(SessionRejected(MissingToken), reg)
    ensures HandleGetToken(reg, cfg, Some(""), now, upstream) == Exchange(SessionRejected(MissingToken), reg)
  {
  }

  /** An admitted request with a missing coordinate fails the same way
      whatever the upstream would have produced: the call is never made. */
  lemma ConfigurationPrecedesUpstream(reg: Registry, cfg: UpstreamConfig, header: Option<string>, now: Millis,
                                      upstream1: UpstreamResult, upstream2: UpstreamResult)
    requires ValidateSession(reg, header, now).verdict.Admitted?
    requires !Configured(cfg)
    ensures HandleGetToken(reg, cfg, header, now, upstream1) == HandleGetToken(reg, cfg, header, now, upstream2)
    ensures HandleGetToken(reg, cfg, header, now, upstream1).reply.HttpStatus() == 500
  {
  }

  /** An upstream failure is relayed with its own status and text, and the
      caller's session survives it: the same token is admitted again. */
  lemma UpstreamFailureKeepsSession(reg: Registry, cfg: UpstreamConfig, header: Option<string>, now: Millis,
                                    status: FailureStatus, text: string)
    requires ValidateSession(reg, header, now).verdict.Admitted?
    requires Configured(cfg)
    ensures var e := HandleGetToken(reg, cfg, header, now, Failed(status, text));
            && e.reply == UpstreamError(status, text)
            && e.reply.HttpStatus() == status
            && ValidateSession(e.registry, header, now) == ValidateSession(reg, header, now)
  {
  }

  /** A 2xx response whose body is not JSON, or is JSON `null`, is not a
      success: the exception it raises is answered with 500, and a syntax
      error's message is relayed. */
  lemma UnusableSuccessBodyIsServerError(reg: Registry, cfg: UpstreamConfig, header: Option<string>, now: Millis,
                                         status: SuccessStatus, json: JsonReading)
    requires ValidateSession(reg, header, now).verdict.Admitted?
    requires Configured(cfg)
    requires !json.JsonValue?
    ensures var e := HandleGetToken(reg, cfg, header, now, Succeeded(status, json));
            && e.reply.HttpStatus() == 500
            && (json.NotJson? ==> e.reply == ExchangeFailed(Raised(json.syntaxError)))
            && (json.JsonNull? ==> e.reply == ExchangeFailed(NullResponseBody))
  {
  }
}
