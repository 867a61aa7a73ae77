/**
 * The Telegraph client (client.go `Client`, its options, `NewClient` and the
 * eight API calls).  Every call validates its request, sends it with
 * `Dispatch.DoRequest` and interprets the answer with `Response.ParseResponse`.
 *
 * What lies outside the client is a parameter: `json` is the request as the
 * JSON encoder renders it, `env` the behaviour of rate limiter, context and
 * server, and `decode` what the JSON decoder makes of a response.
 */
module TelegraphClient {
  import opened Wrappers
  import opened Backoff
  import opened Dispatch
  import opened Response
  import opened Validation
  import opened Records
  import Query
  import opened ApiErrors

  /** The HTTP client is opaque here; 0 stands for the default one with its 30-second timeout. */
  datatype ClientOption =
    | WithHttpClient(httpClient: nat)
    | WithBaseUrl(baseUrl: string)
    | WithRateLimit(rps: real)
    | WithRetryConfig(config: RetryConfig)

  datatype Settings = Settings(httpClient: nat, baseUrl: string, rateLimit: real, burst: int, retryConfig: RetryConfig)

  /** The official endpoint, 10 requests per second with a burst of 10, the default retry policy. */
  const DefaultSettings := Settings(0, DefaultBaseUrl, 10.0, 10, DefaultRetryConfig)

  /** What one option changes: its own setting and nothing else. */
  function Apply(s: Settings, opt: ClientOption): (r: Settings)
    ensures r.httpClient == if opt.WithHttpClient? then opt.httpClient else s.httpClient
    ensures r.baseUrl == if opt.WithBaseUrl? then TrimSuffix(opt.baseUrl, "/") else s.baseUrl
    ensures (r.rateLimit, r.burst) == if opt.WithRateLimit? then (opt.rps, Trunc(opt.rps)) else (s.rateLimit, s.burst)
    ensures r.retryConfig == if opt.WithRetryConfig? then opt.config else s.retryConfig
  {
    match opt
    case WithHttpClient(h) => s.(httpClient := h)
    case WithBaseUrl(u) => s.(baseUrl := TrimSuffix(u, "/"))
    case WithRateLimit(rps) => s.(rateLimit := rps, burst := Trunc(rps))
    case WithRetryConfig(c) => s.(retryConfig := c)
  }

  /** The options applied in order. */
  function ApplyAll(s: Settings, opts: seq<ClientOption>): Settings {
    if opts == [] then s else Apply(ApplyAll(s, opts[..|opts| - 1]), opts[|opts| - 1])
  }

  /** The URL of the last base-URL option, if any. */
  function LastBaseUrl(opts: seq<ClientOption>): Option<string> {
    if opts == [] then None
    else if opts[|opts| - 1].WithBaseUrl? then Some(opts[|opts| - 1].baseUrl)
    else LastBaseUrl(opts[..|opts| - 1])
  }

  /** The last retry configuration among the options, if any. */
  function LastRetryConfig(opts: seq<ClientOption>): Option<RetryConfig> {
    if opts == [] then None
    else if opts[|opts| - 1].WithRetryConfig? then Some(opts[|opts| - 1].config)
    else LastRetryConfig(opts[..|opts| - 1])
  }

  /** Of several options for the same setting the last one wins; settings without an option keep their value. */
  lemma {:induction false} LastOptionWins(s: Settings, opts: seq<ClientOption>)
    ensures ApplyAll(s, opts).baseUrl == if LastBaseUrl(opts).Some? then TrimSuffix(LastBaseUrl(opts).value, "/") else s.baseUrl
    ensures ApplyAll(s, opts).retryConfig == if LastRetryConfig(opts).Some? then LastRetryConfig(opts).value else s.retryConfig
  {
    if opts != [] {
      LastOptionWins(s, opts[..|opts| - 1]);
    }
  }

  /** Applying two lists of options is applying their concatenation. */
  lemma {:induction false} ApplyAllAppend(s: Settings, a: seq<ClientOption>, b: seq<ClientOption>)
    ensures ApplyAll(s, a + b) == ApplyAll(ApplyAll(s, a), b)
  {
    if b == [] {
      assert a + b == a;
    } else {
      assert (a + b)[..|a + b| - 1] == a + b[..|b| - 1];
      ApplyAllAppend(s, a, b[..|b| - 1]);
    }
  }

  /** A base URL given with a trailing slash yields the same request URLs as without it. */
  lemma TrailingSlashIgnored(base: string)
    requires base == [] || base[|base| - 1] != '/'
    ensures TrimSuffix(base + "/", "/") == TrimSuffix(base, "/") == base
  {
    assert (base + "/")[|base + "/"| - 1..] == "/";
    assert (base + "/")[..|base|] == base;
  }

  datatype ClientError =
    | Invalid(message: string)
    | RequestFailed(dispatchError: DispatchError)
    | ResponseFailed(responseError: ResponseError)

  function ClientErrorText(e: ClientError): string {
    match e
    case Invalid(m) => m
    case RequestFailed(d) => Dispatch.ErrorText(d)
    case ResponseFailed(r) => ResponseErrorText(r)
  }

  /** What the JSON decoder makes of one response: the read body, the body as an error, the body as an envelope. */
  datatype Decoding<T> = Decoding(body: Result<string, string>, asError: Option<ApiError>, envelope: Result<Envelope<T>, string>)

  /** One API call: validation, then dispatch, then response parsing; the requests sent come along. */
  function Perform<T>(s: Settings, env: Env, verb: string, endpoint: string, invalid: Option<string>,
                      data: Option<string>, decode: HttpResponse -> Decoding<T>): (Result<T, ClientError>, seq<Request>)
  {
    if invalid.Some? then (Err(Invalid(invalid.value)), [])
    else
      var t := Dispatch.Dispatch(s.retryConfig, env, s.baseUrl, verb, endpoint, data);
      match t.result
      case Err(e) => (Err(RequestFailed(e)), t.sent)
      case Ok(resp) =>
        var d := decode(resp);
        match ParseResponse(resp.status, d.body, d.asError, d.envelope, true)
        case Ok(v) => (Ok(v.value), t.sent)
        case Err(e) => (Err(ResponseFailed(e)), t.sent)
  }

  /** Every request in `sent` is `verb` to `url`, and the first one carries `body`. */
  predicate Sends(sent: seq<Request>, verb: string, url: string, body: Option<string>) {
    && (forall i :: 0 <= i < |sent| ==> sent[i].verb == verb && sent[i].url == url)
    && (|sent| > 0 ==> sent[0].body == body)
  }

  /**
   * What every call guarantees: an invalid request is reported without sending
   * anything; otherwise the request goes out to the same URL at most once per
   * allowed attempt, the first time with the data; a result is only returned for a 200 answer whose envelope says ok.
   */
  lemma PerformShape<T>(s: Settings, env: Env, verb: string, endpoint: string, invalid: Option<string>,
                        data: Option<string>, decode: HttpResponse -> Decoding<T>)
    ensures var (r, sent) := Perform(s, env, verb, endpoint, invalid, data, decode);
      && (invalid.Some? ==> r == Err(Invalid(invalid.value)) && sent == [])
      && Sends(sent, verb, RequestUrl(s.baseUrl, endpoint), data)
      && |sent| <= MaxAttempts(s.retryConfig)
      && (r.Ok? ==> invalid.None? && Dispatch.Dispatch(s.retryConfig, env, s.baseUrl, verb, endpoint, data).result.Ok?
                    && Dispatch.Dispatch(s.retryConfig, env, s.baseUrl, verb, endpoint, data).result.value.status == 200)
  {
    if invalid.None? {
      DispatchBounds(s.retryConfig, env, s.baseUrl, verb, endpoint, data);
    }
  }

  /**
   * An error built from the HTTP status of an answer the decoder could not
   * read never carries 429 or a 5xx code: those answers are retried, not returned.
   */
  lemma SynthesizedCodeIsFinal<T>(s: Settings, env: Env, verb: string, endpoint: string,
                                  data: Option<string>, decode: HttpResponse -> Decoding<T>)
    requires var t := Dispatch.Dispatch(s.retryConfig, env, s.baseUrl, verb, endpoint, data);
      t.result.Ok? && t.result.value.status != 200 && decode(t.result.value).body.Ok? && decode(t.result.value).asError.None?
    ensures var t := Dispatch.Dispatch(s.retryConfig, env, s.baseUrl, verb, endpoint, data);
      && Perform(s, env, verb, endpoint, None, data, decode).0
           == Err(ResponseFailed(Api(ApiError(t.result.value.status, decode(t.result.value).body.value))))
      && !ShouldRetryStatus(t.result.value.status)
  {
    DispatchBounds(s.retryConfig, env, s.baseUrl, verb, endpoint, data);
  }

  /** `PerformShape` for an endpoint written `/name`: the requests go to the base URL joined with `name`. */
  lemma PerformAt<T>(s: Settings, env: Env, verb: string, name: string, invalid: Option<string>,
                     data: Option<string>, decode: HttpResponse -> Decoding<T>)
    requires name == [] || name[0] != '/'
    ensures var (r, sent) := Perform(s, env, verb, "/" + name, invalid, data, decode);
      && (invalid.Some? ==> r == Err(Invalid(invalid.value)) && sent == [])
      && Sends(sent, verb, s.baseUrl + "/" + name, data)
      && |sent| <= MaxAttempts(s.retryConfig)
  {
    PerformShape(s, env, verb, "/" + name, invalid, data, decode);
    RequestUrlJoins(s.baseUrl, name);
  }

  /** The endpoint names, each reached at the base URL, a slash, then the name. */
  const CreateAccountPath := "createAccount"
  const EditAccountInfoPath := "editAccountInfo"
  const GetAccountInfoPath := "getAccountInfo"
  const CreatePagePath := "createPage"
  const EditPagePath := "editPage"
  const GetPageListPath := "getPageList"
  const GetViewsPath := "getViews"

  /** The `getPage` endpoint carries the page path and the content flag in its query string. */
  function GetPagePath(req: GetPageRequest): (name: string)
    ensures |name| > 0 && name[0] != '/'
  {
    "getPage?" + Query.GetPageQuery(req.path, req.returnContent)
  }

  class Client {
    var httpClient: nat
    var baseUrl: string
    var rateLimit: real
    var burst: int
    var retryConfig: RetryConfig

    function Current(): Settings
      reads this
    {
      Settings(httpClient, baseUrl, rateLimit, burst, retryConfig)
    }

    /** `NewClient`: the defaults, then each option in turn. */
    constructor (opts: seq<ClientOption>)
      ensures Current() == ApplyAll(DefaultSettings, opts)
    {
      httpClient, baseUrl, rateLimit, burst, retryConfig := 0, DefaultBaseUrl, 10.0, 10, DefaultRetryConfig;
      new;
      var i := 0;
      while i < |opts|
        invariant 0 <= i <= |opts|
        invariant Current() == ApplyAll(DefaultSettings, opts[..i])
      {
        assert opts[..i + 1][..i] == opts[..i];
        match opts[i] {
          case WithHttpClient(h) => httpClient := h;
          case WithBaseUrl(u) => baseUrl := TrimSuffix(u, "/");
          case WithRateLimit(rps) => rateLimit, burst := rps, Trunc(rps);
          case WithRetryConfig(c) => retryConfig := c;
        }
        i := i + 1;
      }
      assert opts[..i] == opts;
    }

    /** The shared body of the API calls. */
    method Call<T>(env: Env, verb: string, endpoint: string, invalid: Option<string>, data: Option<string>,
                   decode: HttpResponse -> Decoding<T>)
      returns (r: Result<T, ClientError>, sent: seq<Request>)
      ensures (r, sent) == Perform(Current(), env, verb, endpoint, invalid, data, decode)
    {
      if invalid.Some? {
        return Err(Invalid(invalid.value)), [];
      }
      var result, waits;
      result, sent, waits := DoRequest(retryConfig, env, baseUrl, verb, endpoint, data);
      if result.Err? {
        return Err(RequestFailed(result.error)), sent;
      }
      var resp := result.value;
      var d := decode(resp);
      var parsed := ParseResponse(resp.status, d.body, d.asError, d.envelope, true);
      if parsed.Err? {
        return Err(ResponseFailed(parsed.error)), sent;
      }
      r := Ok(parsed.value.value);
    }

    method CreateAccount(req: CreateAccountRequest, json: string, env: Env, decode: HttpResponse -> Decoding<Account>)
      returns (r: Result<Account, ClientError>, sent: seq<Request>)
      ensures (r, sent) == Perform(Current(), env, "POST", "/" + CreateAccountPath, ValidateCreateAccount(req), Some(json), decode)
      ensures ValidateCreateAccount(req).Some? ==> r == Err(Invalid(ValidateCreateAccount(req).value)) && sent == []
      ensures Sends(sent, "POST", baseUrl + "/" + CreateAccountPath, Some(json)) && |sent| <= MaxAttempts(retryConfig)
    {
      var invalid := ValidateCreateAccount(req);
      r, sent := Call(env, "POST", "/" + CreateAccountPath, invalid, Some(json), decode);
      PerformAt(Current(), env, "POST", CreateAccountPath, invalid, Some(json), decode);
    }

    method EditAccountInfo(req: EditAccountInfoRequest, json: string, env: Env, decode: HttpResponse -> Decoding<Account>)
      returns (r: Result<Account, ClientError>, sent: seq<Request>)
      ensures (r, sent) == Perform(Current(), env, "POST", "/" + EditAccountInfoPath, ValidateEditAccountInfo(req), Some(json), decode)
      ensures ValidateEditAccountInfo(req).Some? ==> r == Err(Invalid(ValidateEditAccountInfo(req).value)) && sent == []
      ensures Sends(sent, "POST", baseUrl + "/" + EditAccountInfoPath, Some(json)) && |sent| <= MaxAttempts(retryConfig)
    {
      var invalid := ValidateEditAccountInfo(req);
      r, sent := Call(env, "POST", "/" + EditAccountInfoPath, invalid, Some(json), decode);
      PerformAt(Current(), env, "POST", EditAccountInfoPath, invalid, Some(json), decode);
    }

    method GetAccountInfo(req: GetAccountInfoRequest, json: string, env: Env, decode: HttpResponse -> Decoding<Account>)
      returns (r: Result<Account, ClientError>, sent: seq<Request>)
      ensures (r, sent) == Perform(Current(), env, "POST", "/" + GetAccountInfoPath, ValidateGetAccountInfo(req), Some(json), decode)
      ensures ValidateGetAccountInfo(req).Some? ==> r == Err(Invalid(ValidateGetAccountInfo(req).value)) && sent == []
      ensures Sends(sent, "POST", baseUrl + "/" + GetAccountInfoPath, Some(json)) && |sent| <= MaxAttempts(retryConfig)
    {
      var invalid := ValidateGetAccountInfo(req);
      r, sent := Call(env, "POST", "/" + GetAccountInfoPath, invalid, Some(json), decode);
      PerformAt(Current(), env, "POST", GetAccountInfoPath, invalid, Some(json), decode);
    }

    method CreatePage(req: CreatePageRequest, json: string, env: Env, decode: HttpResponse -> Decoding<Page>)
      returns (r: Result<Page, ClientError>, sent: seq<Request>)
      ensures (r, sent) == Perform(Current(), env, "POST", "/" + CreatePagePath, ValidateCreatePage(req), Some(json), decode)
      ensures ValidateCreatePage(req).Some? ==> r == Err(Invalid(ValidateCreatePage(req).value)) && sent == []
      ensures Sends(sent, "POST", baseUrl + "/" + CreatePagePath, Some(json)) && |sent| <= MaxAttempts(retryConfig)
    {
      var invalid := ValidateCreatePage(req);
      r, sent := Call(env, "POST", "/" + CreatePagePath, invalid, Some(json), decode);
      PerformAt(Current(), env, "POST", CreatePagePath, invalid, Some(json), decode);
    }

    method EditPage(req: EditPageRequest, json: string, env: Env, decode: HttpResponse -> Decoding<Page>)
      returns (r: Result<Page, ClientError>, sent: seq<Request>)
      ensures (r, sent) == Perform(Current(), env, "POST", "/" + EditPagePath, ValidateEditPage(req), Some(json), decode)
      ensures ValidateEditPage(req).Some? ==> r == Err(Invalid(ValidateEditPage(req).value)) && sent == []
      ensures Sends(sent, "POST", baseUrl + "/" + EditPagePath, Some(json)) && |sent| <= MaxAttempts(retryConfig)
    {
      var invalid := ValidateEditPage(req);
      r, sent := Call(env, "POST", "/" + EditPagePath, invalid, Some(json), decode);
      PerformAt(Current(), env, "POST", EditPagePath, invalid, Some(json), decode);
    }

    /** The only GET: no body, the path and the content flag in the query string. */
    method GetPage(req: GetPageRequest, env: Env, decode: HttpResponse -> Decoding<Page>)
      returns (r: Result<Page, ClientError>, sent: seq<Request>)
      ensures (r, sent) == Perform(Current(), env, "GET", "/" + GetPagePath(req), ValidateGetPage(req), None, decode)
      ensures req.path == "" ==> r == Err(Invalid(PathRequired)) && sent == []
      ensures Sends(sent, "GET", baseUrl + "/" + GetPagePath(req), None)
      ensures |sent| <= MaxAttempts(retryConfig)
    {
      var invalid := ValidateGetPage(req);
      r, sent := Call(env, "GET", "/" + GetPagePath(req), invalid, None, decode);
      PerformAt(Current(), env, "GET", GetPagePath(req), invalid, None, decode);
    }

    method GetPageList(req: GetPageListRequest, json: string, env: Env, decode: HttpResponse -> Decoding<PageList>)
      returns (r: Result<PageList, ClientError>, sent: seq<Request>)
      ensures (r, sent) == Perform(Current(), env, "POST", "/" + GetPageListPath, ValidateGetPageList(req), Some(json), decode)
      ensures ValidateGetPageList(req).Some? ==> r == Err(Invalid(ValidateGetPageList(req).value)) && sent == []
      ensures Sends(sent, "POST", baseUrl + "/" + GetPageListPath, Some(json)) && |sent| <= MaxAttempts(retryConfig)
    {
      var invalid := ValidateGetPageList(req);
      r, sent := Call(env, "POST", "/" + GetPageListPath, invalid, Some(json), decode);
      PerformAt(Current(), env, "POST", GetPageListPath, invalid, Some(json), decode);
    }

    method GetViews(req: GetViewsRequest, json: string, env: Env, decode: HttpResponse -> Decoding<PageViews>)
      returns (r: Result<PageViews, ClientError>, sent: seq<Request>)
      ensures (r, sent) == Perform(Current(), env, "POST", "/" + GetViewsPath, ValidateGetViews(req), Some(json), decode)
      ensures ValidateGetViews(req).Some? ==> r == Err(Invalid(ValidateGetViews(req).value)) && sent == []
      ensures Sends(sent, "POST", baseUrl + "/" + GetViewsPath, Some(json)) && |sent| <= MaxAttempts(retryConfig)
    {
      var invalid := ValidateGetViews(req);
      r, sent := Call(env, "POST", "/" + GetViewsPath, invalid, Some(json), decode);
      PerformAt(Current(), env, "POST", GetViewsPath, invalid, Some(json), decode);
    }
  }
}
