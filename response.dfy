/**
 * Interpreting the HTTP response of an API call (client.go `parseResponse`).
 *
 * JSON decoding is not modelled: what each decoding step yields for the body
 * is given as an argument.  `asError` is the body decoded as an `APIError`,
 * `envelope` the body decoded as the `{ok, result, error}` envelope, whose
 * result is then re-encoded and decoded into the caller's target type `T`.
 */
module Response {
  import opened Wrappers
  import opened ApiErrors

  datatype Decoded<T> = Decoded(value: T) | MarshalFailed(cause: string) | UnmarshalFailed(cause: string)

  datatype Envelope<T> = Envelope(ok: bool, result: Decoded<T>)

  const OkFalseDescription := "API returned ok: false"

  datatype ResponseError =
    | ReadFailed(cause: string)
    | Api(apiError: ApiError)
    | EnvelopeUnreadable(cause: string)
    | ResultUnencodable(cause: string)
    | ResultUndecodable(cause: string)

  /** The fixed start of each local failure's text, before the wrapped cause. */
  function LocalPrefix(e: ResponseError): string
    requires !e.Api?
  {
    match e
    case ReadFailed(_) => "failed to read response body: "
    case EnvelopeUnreadable(_) => "failed to unmarshal response: "
    case ResultUnencodable(_) => "failed to marshal result: "
    case ResultUndecodable(_) => "failed to unmarshal result: "
  }

  /** Only an `APIError` reads as one: every local failure names what failed instead. */
  function ResponseErrorText(e: ResponseError): (s: string)
    ensures e.Api? <==> Prefix <= s
  {
    if e.Api? then ErrorText(e.apiError)
    else
      var s := LocalPrefix(e) + e.cause;
      assert s[0] == 'f' != Prefix[0];
      s
  }

  /**
   * `body` is the outcome of reading the response body.  With `wantResult`
   * false the caller passed no target and a successful call yields `None`.
   */
  function ParseResponse<T>(status: int, body: Result<string, string>, asError: Option<ApiError>,
                            envelope: Result<Envelope<T>, string>, wantResult: bool): (r: Result<Option<T>, ResponseError>)
    ensures r.Ok? <==> body.Ok? && status == 200 && envelope.Ok? && envelope.value.ok
                       && (wantResult ==> envelope.value.result.Decoded?)
    ensures r.Ok? ==> (r.value.Some? <==> wantResult) && (wantResult ==> r.value.value == envelope.value.result.value)
    ensures body.Ok? && status != 200 ==>
      (r.Err? && r.error.Api? && r.error.apiError == if asError.Some? then asError.value else ApiError(status, body.value))
    ensures r.Err? && r.error.Api? && status == 200 ==> r.error.apiError == ApiError(0, OkFalseDescription)
    ensures body.Ok? && status == 200 && envelope.Ok? && !envelope.value.ok ==> r == Err(Api(ApiError(0, OkFalseDescription)))
    ensures body.Err? ==> r == Err(ReadFailed(body.error))
    ensures body.Ok? && status == 200 && envelope.Err? ==> r == Err(EnvelopeUnreadable(envelope.error))
    ensures body.Ok? && status == 200 && envelope.Ok? && envelope.value.ok && wantResult ==>
      (envelope.value.result.MarshalFailed? ==> r == Err(ResultUnencodable(envelope.value.result.cause))) &&
      (envelope.value.result.UnmarshalFailed? ==> r == Err(ResultUndecodable(envelope.value.result.cause)))
  {
    match body
    case Err(e) => Err(ReadFailed(e))
    case Ok(text) =>
      if status != 200 then
        Err(Api(if asError.Some? then asError.value else ApiError(status, text)))
      else
        match envelope
        case Err(e) => Err(EnvelopeUnreadable(e))
        case Ok(env) =>
          if !env.ok then Err(Api(ApiError(0, OkFalseDescription)))
          else if !wantResult then Ok(None)
          else
            match env.result
            case Decoded(v) => Ok(Some(v))
            case MarshalFailed(e) => Err(ResultUnencodable(e))
            case UnmarshalFailed(e) => Err(ResultUndecodable(e))
  }

  /**
   * A 200 response whose envelope says `ok: false` fails with the synthesized
   * code-0 error, whatever the result and the target, and its text omits the code.
   */
  lemma OkFalseText<T>(body: string, asError: Option<ApiError>, env: Envelope<T>, wantResult: bool)
    requires !env.ok
    ensures ParseResponse(200, Ok(body), asError, Ok(env), wantResult) == Err(Api(ApiError(0, OkFalseDescription)))
    ensures ResponseErrorText(Api(ApiError(0, OkFalseDescription))) == PlainPrefix + OkFalseDescription
  {
    ErrorTextExamples(OkFalseDescription);
  }
}
