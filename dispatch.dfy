/**
 * Sending one API call with rate limiting and retries (client.go `doRequest`).
 *
 * Everything outside the client is an oracle in `Env`: whether the rate
 * limiter's wait fails, whether the request data fails to marshal, whether
 * building the HTTP request fails, the retry at which the caller's context is
 * first seen to be done, and what the server does with the n-th request.
 * `Retry` is the specification of the retry loop; `DoRequest` is the loop.
 */
module Dispatch {
  import opened Wrappers
  import opened Backoff
  import Decimal
  import ApiErrors

  const DefaultBaseUrl := "https://api.telegra.ph"

  /** `strings.TrimSuffix`: drops one trailing `suffix` if present. */
  function TrimSuffix(s: string, suffix: string): (r: string)
    ensures |suffix| <= |s| && s[|s| - |suffix|..] == suffix ==> r + suffix == s
    ensures !(|suffix| <= |s| && s[|s| - |suffix|..] == suffix) ==> r == s
  {
    if |suffix| <= |s| && s[|s| - |suffix|..] == suffix then s[..|s| - |suffix|] else s
  }

  /** `strings.TrimPrefix`: drops one leading `prefix` if present. */
  function TrimPrefix(s: string, prefix: string): (r: string)
    ensures prefix <= s ==> prefix + r == s
    ensures !(prefix <= s) ==> r == s
  {
    if prefix <= s then s[|prefix|..] else s
  }

  /** The request URL: the base, one slash, then the endpoint without its leading slash. */
  function RequestUrl(base: string, endpoint: string): string {
    base + "/" + TrimPrefix(endpoint, "/")
  }

  /** The endpoint's leading slash is optional: both spellings reach the same URL. */
  lemma RequestUrlJoins(base: string, path: string)
    requires path == [] || path[0] != '/'
    ensures RequestUrl(base, "/" + path) == base + "/" + path
    ensures RequestUrl(base, path) == base + "/" + path
  {
    assert ("/" + path)[1..] == path;
  }

  datatype Request = Request(verb: string, url: string, body: Option<string>)

  datatype HttpResponse = HttpResponse(status: int, body: string)

  /** What the HTTP client reports for one request. */
  datatype Outcome = TransportFailure(message: string) | Answered(response: HttpResponse)

  /** The failure the next attempt replaces, or the one reported when attempts run out. */
  datatype Failure = Transport(message: string) | Status(code: int)

  datatype DispatchError =
    | RateLimitFailed(cause: string)
    | MarshalFailed(cause: string)
    | Cancelled(cause: string)
    | BuildFailed(cause: string)
    | Exhausted(attempts: int, last: Option<Failure>)

  const RateLimitPrefix := "rate limiting failed: "
  const MarshalPrefix := "failed to marshal request data: "
  const BuildPrefix := "failed to create request: "
  const ExhaustedPrefix := "request failed after "

  /**
   * The error text the caller sees.  Local failures wrap their cause behind a
   * fixed prefix, a cancellation is the context's own error, and exhaustion
   * names the number of attempts before the last failure.
   */
  function ErrorText(e: DispatchError): (s: string)
    ensures e.RateLimitFailed? ==> RateLimitPrefix <= s && s[|RateLimitPrefix|..] == e.cause
    ensures e.MarshalFailed? ==> MarshalPrefix <= s && s[|MarshalPrefix|..] == e.cause
    ensures e.BuildFailed? ==> BuildPrefix <= s && s[|BuildPrefix|..] == e.cause
    ensures e.Cancelled? ==> s == e.cause
    ensures e.Exhausted? ==> ExhaustedPrefix + Decimal.Format(e.attempts) + " attempts: " <= s
    ensures e.Exhausted? && e.last.Some? && e.last.value.Transport? ==>
      |s| >= |e.last.value.message| && s[|s| - |e.last.value.message|..] == e.last.value.message
  {
    match e
    case RateLimitFailed(c) => RateLimitPrefix + c
    case MarshalFailed(c) => MarshalPrefix + c
    case Cancelled(c) => c
    case BuildFailed(c) => BuildPrefix + c
    case Exhausted(n, last) =>
      ExhaustedPrefix + Decimal.Format(n) + " attempts: " +
      match last
      case None => "%!w(<nil>)"
      case Some(Transport(m)) => m
      case Some(Status(code)) => "received status code " + Decimal.Format(code)
  }

  /** The attempt count can be read back from an exhaustion message: it is the
      number written between the prefix and the first space after it. */
  lemma ExhaustedTextNamesAttempts(n: int, last: Option<Failure>)
    ensures var rest := ErrorText(Exhausted(n, last))[|ExhaustedPrefix|..];
      ApiErrors.IndexOf(rest, ' ') == Some(|Decimal.Format(n)|)
      && Decimal.Parse(rest[..|Decimal.Format(n)|]) == n
  {
    var s := ErrorText(Exhausted(n, last));
    var digits := Decimal.Format(n);
    var rest := s[|ExhaustedPrefix|..];
    assert rest == digits + [' '] + (s[|ExhaustedPrefix| + |digits| + 1..]);
    assert ' ' !in digits by {
      forall k | 0 <= k < |digits| ensures digits[k] != ' ' {
        assert Decimal.IsDigit(digits[k]) || digits[k] == '-';
      }
    }
    ApiErrors.IndexOfAfter(digits, ' ', s[|ExhaustedPrefix| + |digits| + 1..]);
    assert rest[..|digits|] == digits;
    Decimal.FormatRoundTrip(n);
  }

  datatype Env = Env(
    rateLimitError: Option<string>,
    marshalError: Option<string>,
    buildError: Option<string>,
    cancelAt: Option<nat>,
    contextError: string,
    respond: nat -> Outcome)

  /** What one call does: its result, every request it sent and every delay it waited, in order. */
  datatype Trace = Trace(result: Result<HttpResponse, DispatchError>, sent: seq<Request>, waits: seq<int>)

  function Glue(sent: seq<Request>, waits: seq<int>, t: Trace): Trace {
    Trace(t.result, sent + t.sent, waits + t.waits)
  }

  lemma GlueGlue(s1: seq<Request>, w1: seq<int>, s2: seq<Request>, w2: seq<int>, t: Trace)
    ensures Glue(s1, w1, Glue(s2, w2, t)) == Glue(s1 + s2, w1 + w2, t)
  {
    assert s1 + (s2 + t.sent) == (s1 + s2) + t.sent;
    assert w1 + (w2 + t.waits) == (w1 + w2) + t.waits;
  }

  /** A body reader after the transport has read it to its end. */
  function Drained(reader: Option<string>): Option<string> {
    if reader.Some? then Some("") else None
  }

  /**
   * Attempts `attempt` onwards.  `reader` is what is left of the request body
   * buffer: one buffer serves every attempt, so once a request has been
   * answered later attempts send what is left of it, nothing.  A transport
   * failure is taken to leave the buffer unread.
   */
  function Retry(cfg: RetryConfig, env: Env, verb: string, url: string,
                 attempt: nat, reader: Option<string>, last: Option<Failure>): Trace
    decreases cfg.maxRetries + 1 - attempt
  {
    if attempt > cfg.maxRetries then Trace(Err(Exhausted(cfg.maxRetries + 1, last)), [], [])
    else if attempt > 0 && env.cancelAt == Some(attempt) then Trace(Err(Cancelled(env.contextError)), [], [])
    else
      var waits := if attempt > 0 then [CalculateDelay(cfg, attempt)] else [];
      if env.buildError.Some? then Trace(Err(BuildFailed(env.buildError.value)), [], waits)
      else
        var req := Request(verb, url, reader);
        match env.respond(attempt)
        case TransportFailure(m) =>
          Glue([req], waits, Retry(cfg, env, verb, url, attempt + 1, reader, Some(Transport(m))))
        case Answered(resp) =>
          if ShouldRetryStatus(resp.status) then
            Glue([req], waits, Retry(cfg, env, verb, url, attempt + 1, Drained(reader), Some(Status(resp.status))))
          else Trace(Ok(resp), [req], waits)
  }

  /** The whole call: rate limiting, marshalling, then the attempts. */
  function Dispatch(cfg: RetryConfig, env: Env, base: string, verb: string, endpoint: string, data: Option<string>): Trace
  {
    if env.rateLimitError.Some? then Trace(Err(RateLimitFailed(env.rateLimitError.value)), [], [])
    else if data.Some? && env.marshalError.Some? then Trace(Err(MarshalFailed(env.marshalError.value)), [], [])
    else Retry(cfg, env, verb, RequestUrl(base, endpoint), 0, data, None)
  }

  /** The retry loop; one body buffer, made from the data, serves every attempt. */
  method DoRequest(cfg: RetryConfig, env: Env, base: string, verb: string, endpoint: string, data: Option<string>)
    returns (result: Result<HttpResponse, DispatchError>, sent: seq<Request>, waits: seq<int>)
    ensures Trace(result, sent, waits) == Dispatch(cfg, env, base, verb, endpoint, data)
  {
    sent, waits := [], [];
    if env.rateLimitError.Some? {
      return Err(RateLimitFailed(env.rateLimitError.value)), sent, waits;
    }
    if data.Some? && env.marshalError.Some? {
      return Err(MarshalFailed(env.marshalError.value)), sent, waits;
    }
    var url := base + "/" + TrimPrefix(endpoint, "/");
    ghost var goal := Dispatch(cfg, env, base, verb, endpoint, data);
    var reader := data;
    var last: Option<Failure> := None;
    var attempt: nat := 0;
    while attempt <= cfg.maxRetries
      invariant Glue(sent, waits, Retry(cfg, env, verb, url, attempt, reader, last)) == goal
      decreases cfg.maxRetries + 1 - attempt
    {
      ghost var t := Retry(cfg, env, verb, url, attempt, reader, last);
      ghost var sent0, waits0 := sent, waits;
      if attempt > 0 {
        if env.cancelAt == Some(attempt) {
          assert t == Trace(Err(Cancelled(env.contextError)), [], []);
          assert sent + [] == sent && waits + [] == waits;
          return Err(Cancelled(env.contextError)), sent, waits;
        }
        waits := waits + [CalculateDelay(cfg, attempt)];
      }
      ghost var w := if attempt > 0 then [CalculateDelay(cfg, attempt)] else [];
      assert waits == waits0 + w;
      if env.buildError.Some? {
        assert t == Trace(Err(BuildFailed(env.buildError.value)), [], w);
        assert sent + [] == sent;
        return Err(BuildFailed(env.buildError.value)), sent, waits;
      }
      var req := Request(verb, url, reader);
      match env.respond(attempt) {
        case TransportFailure(m) =>
          assert t == Glue([req], w, Retry(cfg, env, verb, url, attempt + 1, reader, Some(Transport(m))));
          GlueGlue(sent, waits0, [req], w, Retry(cfg, env, verb, url, attempt + 1, reader, Some(Transport(m))));
          sent := sent + [req];
          last := Some(Transport(m));
        case Answered(resp) =>
          sent := sent + [req];
          if !ShouldRetryStatus(resp.status) {
            assert t == Trace(Ok(resp), [req], w);
            return Ok(resp), sent, waits;
          }
          assert t == Glue([req], w, Retry(cfg, env, verb, url, attempt + 1, Drained(reader), Some(Status(resp.status))));
          GlueGlue(sent0, waits0, [req], w, Retry(cfg, env, verb, url, attempt + 1, Drained(reader), Some(Status(resp.status))));
          last := Some(Status(resp.status));
          reader := Drained(reader);
      }
      attempt := attempt + 1;
    }
    assert sent + [] == sent && waits + [] == waits;
    result := Err(Exhausted(cfg.maxRetries + 1, last));
  }

  /** The most attempts a configuration allows: one plus the retries, none when the count is negative. */
  function MaxAttempts(cfg: RetryConfig): nat {
    if cfg.maxRetries < 0 then 0 else cfg.maxRetries + 1
  }

  /** The next reader after attempt `attempt` was sent with `reader`. */
  function NextReader(o: Outcome, reader: Option<string>): Option<string> {
    if o.TransportFailure? then reader else Drained(reader)
  }

  /** The failure an outcome leaves behind when it is retried. */
  function NextLast(o: Outcome): Failure {
    match o
    case TransportFailure(m) => Transport(m)
    case Answered(resp) => Status(resp.status)
  }

  /**
   * From attempt `attempt` on, at most the remaining attempts are sent, and a
   * response is returned only after it was sent and only when it is not retryable.
   */
  lemma {:induction false} RetryCount(cfg: RetryConfig, env: Env, verb: string, url: string,
                                     attempt: nat, reader: Option<string>, last: Option<Failure>)
    ensures var t := Retry(cfg, env, verb, url, attempt, reader, last);
      && |t.sent| <= (if attempt > cfg.maxRetries then 0 else cfg.maxRetries + 1 - attempt)
      && (t.result.Ok? ==> !ShouldRetryStatus(t.result.value.status) && |t.sent| > 0)
    decreases cfg.maxRetries + 1 - attempt
  {
    if attempt <= cfg.maxRetries && !(attempt > 0 && env.cancelAt == Some(attempt)) && env.buildError.None? {
      var o := env.respond(attempt);
      if Retryable(o) {
        RetryCount(cfg, env, verb, url, attempt + 1, NextReader(o, reader), Some(NextLast(o)));
      }
    }
  }

  /**
   * Every request from attempt `attempt` on goes to the same method and URL and
   * carries what is left of the body: all of it the first time, later all of
   * it or nothing.
   */
  lemma {:induction false} RetryTargets(cfg: RetryConfig, env: Env, verb: string, url: string,
                                       attempt: nat, reader: Option<string>, last: Option<Failure>)
    ensures var t := Retry(cfg, env, verb, url, attempt, reader, last);
      && (forall i :: 0 <= i < |t.sent| ==> t.sent[i].verb == verb && t.sent[i].url == url)
      && (forall i :: 0 <= i < |t.sent| ==> t.sent[i].body == reader || t.sent[i].body == Drained(reader))
      && (|t.sent| > 0 ==> t.sent[0].body == reader)
    decreases cfg.maxRetries + 1 - attempt
  {
    if attempt <= cfg.maxRetries && !(attempt > 0 && env.cancelAt == Some(attempt)) && env.buildError.None? {
      var o := env.respond(attempt);
      if Retryable(o) {
        var rest := Retry(cfg, env, verb, url, attempt + 1, NextReader(o, reader), Some(NextLast(o)));
        var t := Retry(cfg, env, verb, url, attempt, reader, last);
        assert t.sent == [Request(verb, url, reader)] + rest.sent;
        RetryTargets(cfg, env, verb, url, attempt + 1, NextReader(o, reader), Some(NextLast(o)));
        assert Drained(NextReader(o, reader)) == Drained(reader);
        assert forall i :: 1 <= i < |t.sent| ==> t.sent[i] == rest.sent[i - 1];
      }
    }
  }

  /** Every delay in `waits` is at most `maxDelay`. */
  predicate Capped(waits: seq<int>, maxDelay: int) {
    forall i :: 0 <= i < |waits| ==> waits[i] <= maxDelay
  }

  /** No wait from attempt `attempt` on is longer than the maximal delay. */
  lemma {:induction false} RetryWaits(cfg: RetryConfig, env: Env, verb: string, url: string,
                                     attempt: nat, reader: Option<string>, last: Option<Failure>)
    ensures Capped(Retry(cfg, env, verb, url, attempt, reader, last).waits, cfg.maxDelay)
    decreases cfg.maxRetries + 1 - attempt
  {
    if attempt <= cfg.maxRetries && !(attempt > 0 && env.cancelAt == Some(attempt)) {
      var w := if attempt > 0 then [CalculateDelay(cfg, attempt)] else [];
      assert Capped(w, cfg.maxDelay);
      var o := env.respond(attempt);
      if env.buildError.None? && Retryable(o) {
        var rest := Retry(cfg, env, verb, url, attempt + 1, NextReader(o, reader), Some(NextLast(o)));
        var t := Retry(cfg, env, verb, url, attempt, reader, last);
        assert t.waits == w + rest.waits;
        RetryWaits(cfg, env, verb, url, attempt + 1, NextReader(o, reader), Some(NextLast(o)));
        assert forall i :: |w| <= i < |t.waits| ==> t.waits[i] == rest.waits[i - |w|];
      }
    }
  }

  /**
   * A whole call sends at most one request per allowed attempt, all to the
   * endpoint's URL, the first carrying the data; it waits at most the maximal
   * delay each time and returns only a response that is not retried.
   */
  lemma DispatchBounds(cfg: RetryConfig, env: Env, base: string, verb: string, endpoint: string, data: Option<string>)
    ensures var t := Dispatch(cfg, env, base, verb, endpoint, data);
      && |t.sent| <= MaxAttempts(cfg)
      && (forall i :: 0 <= i < |t.sent| ==> t.sent[i].verb == verb && t.sent[i].url == RequestUrl(base, endpoint))
      && (|t.sent| > 0 ==> t.sent[0].body == data)
      && (forall i :: 0 <= i < |t.waits| ==> t.waits[i] <= cfg.maxDelay)
      && (t.result.Ok? ==> !ShouldRetryStatus(t.result.value.status))
  {
    RetryCount(cfg, env, verb, RequestUrl(base, endpoint), 0, data, None);
    RetryTargets(cfg, env, verb, RequestUrl(base, endpoint), 0, data, None);
    RetryWaits(cfg, env, verb, RequestUrl(base, endpoint), 0, data, None);
  }

  /** A failed rate-limiter wait or marshalling step sends nothing. */
  lemma EarlyFailureSendsNothing(cfg: RetryConfig, env: Env, base: string, verb: string, endpoint: string, data: Option<string>)
    requires env.rateLimitError.Some? || (data.Some? && env.marshalError.Some?)
    ensures Dispatch(cfg, env, base, verb, endpoint, data).sent == []
    ensures Dispatch(cfg, env, base, verb, endpoint, data).result.Err?
  {
  }

  predicate Retryable(o: Outcome) {
    o.TransportFailure? || ShouldRetryStatus(o.response.status)
  }

  predicate Undisturbed(env: Env) {
    env.rateLimitError.None? && env.marshalError.None? && env.buildError.None? && env.cancelAt.None?
  }

  /** The delays of retries `lo` to `hi`, in order. */
  function Delays(cfg: RetryConfig, lo: nat, hi: nat): seq<int>
    requires 1 <= lo
    decreases if hi >= lo then hi - lo + 1 else 0
  {
    if lo > hi then [] else [CalculateDelay(cfg, lo)] + Delays(cfg, lo + 1, hi)
  }

  /**
   * Attempt `attempt` onwards when every answer before attempt `k` is retryable
   * and answer `k` is final: exactly the attempts up to `k` are sent, with the
   * backoff delays between them, and answer `k` is returned.
   */
  lemma {:induction false} RetryUntilFinal(cfg: RetryConfig, env: Env, verb: string, url: string,
                                          attempt: nat, reader: Option<string>, last: Option<Failure>, k: nat)
    requires Undisturbed(env)
    requires attempt <= k <= cfg.maxRetries
    requires forall j :: attempt <= j < k ==> Retryable(env.respond(j))
    requires env.respond(k).Answered? && !ShouldRetryStatus(env.respond(k).response.status)
    ensures var t := Retry(cfg, env, verb, url, attempt, reader, last);
      && t.result == Ok(env.respond(k).response)
      && |t.sent| == k - attempt + 1
      && t.waits == (if attempt == 0 then [] else [CalculateDelay(cfg, attempt)]) + (if k == 0 then [] else Delays(cfg, attempt + 1, k))
    decreases k - attempt
  {
    if attempt < k {
      var o := env.respond(attempt);
      RetryUntilFinal(cfg, env, verb, url, attempt + 1, NextReader(o, reader), Some(NextLast(o)), k);
      if attempt == 0 {
        assert Delays(cfg, 1, k) == [CalculateDelay(cfg, 1)] + Delays(cfg, 2, k);
      } else {
        assert Delays(cfg, attempt + 1, k) == [CalculateDelay(cfg, attempt + 1)] + Delays(cfg, attempt + 2, k);
      }
    }
  }

  /** k retryable failures followed by a final answer: k + 1 requests, k waits, and that answer. */
  lemma FailuresThenFinal(cfg: RetryConfig, env: Env, base: string, verb: string, endpoint: string, data: Option<string>, k: nat)
    requires Undisturbed(env) && k <= cfg.maxRetries
    requires forall j :: 0 <= j < k ==> Retryable(env.respond(j))
    requires env.respond(k).Answered? && !ShouldRetryStatus(env.respond(k).response.status)
    ensures var t := Dispatch(cfg, env, base, verb, endpoint, data);
      t.result == Ok(env.respond(k).response) && |t.sent| == k + 1 && |t.waits| == k
  {
    RetryUntilFinal(cfg, env, verb, RequestUrl(base, endpoint), 0, data, None, k);
    if k > 0 {
      DelaysLength(cfg, 1, k);
    }
  }

  lemma {:induction false} DelaysLength(cfg: RetryConfig, lo: nat, hi: nat)
    requires 1 <= lo <= hi + 1
    ensures |Delays(cfg, lo, hi)| == hi + 1 - lo
    decreases hi + 1 - lo
  {
    if lo <= hi {
      DelaysLength(cfg, lo + 1, hi);
    }
  }

  /** A call whose first answer is final (a 400, say) sends exactly one request and never waits. */
  lemma FinalFirstAnswer(cfg: RetryConfig, env: Env, base: string, verb: string, endpoint: string, data: Option<string>)
    requires Undisturbed(env) && cfg.maxRetries >= 0
    requires env.respond(0).Answered? && !ShouldRetryStatus(env.respond(0).response.status)
    ensures var t := Dispatch(cfg, env, base, verb, endpoint, data);
      t.result == Ok(env.respond(0).response) && |t.sent| == 1 && t.waits == []
  {
  }

  /** When every answer is retryable the call sends every allowed attempt and reports the last failure. */
  lemma {:induction false} RetryExhausts(cfg: RetryConfig, env: Env, verb: string, url: string,
                                        attempt: nat, reader: Option<string>, last: Option<Failure>)
    requires Undisturbed(env)
    requires forall j :: attempt <= j <= cfg.maxRetries ==> Retryable(env.respond(j))
    ensures var t := Retry(cfg, env, verb, url, attempt, reader, last);
      && t.result.Err? && t.result.error.Exhausted? && t.result.error.attempts == cfg.maxRetries + 1
      && |t.sent| == (if attempt > cfg.maxRetries then 0 else cfg.maxRetries + 1 - attempt)
      && (attempt <= cfg.maxRetries ==> t.result.error.last == Some(NextLast(env.respond(cfg.maxRetries))))
      && (attempt > cfg.maxRetries ==> t.result.error.last == last)
    decreases cfg.maxRetries + 1 - attempt
  {
    if attempt <= cfg.maxRetries {
      var o := env.respond(attempt);
      RetryExhausts(cfg, env, verb, url, attempt + 1, NextReader(o, reader), Some(NextLast(o)));
    }
  }

  /** A server that keeps answering 503 is asked four times under the default policy, with 200, 400 and 800ms between. */
  lemma DefaultPolicyAgainstFailingServer(env: Env, base: string, endpoint: string, data: Option<string>)
    requires Undisturbed(env)
    requires forall j :: env.respond(j) == Answered(HttpResponse(503, ""))
    ensures var t := Dispatch(DefaultRetryConfig, env, base, "POST", endpoint, data);
      && t.result == Err(Exhausted(4, Some(Status(503))))
      && |t.sent| == 4
      && t.waits == [200 * Millisecond, 400 * Millisecond, 800 * Millisecond]
  {
    var url := RequestUrl(base, endpoint);
    RetryExhausts(DefaultRetryConfig, env, "POST", url, 0, data, None);
    DefaultDelays();
    var d := Drained(data);
    var s := Some(Status(503));
    var cfg := DefaultRetryConfig;
    assert Retry(cfg, env, "POST", url, 4, d, s).waits == [];
    assert Retry(cfg, env, "POST", url, 3, d, s).waits == [800 * Millisecond];
    assert Retry(cfg, env, "POST", url, 2, d, s).waits == [400 * Millisecond, 800 * Millisecond];
    assert Retry(cfg, env, "POST", url, 1, d, s).waits == [200 * Millisecond, 400 * Millisecond, 800 * Millisecond];
  }

  /** A context seen done at retry `c` ends the call there: the `c` earlier attempts are all that was sent. */
  lemma {:induction false} CancelStopsRetries(cfg: RetryConfig, env: Env, verb: string, url: string,
                                             attempt: nat, reader: Option<string>, last: Option<Failure>, c: nat)
    requires env.buildError.None? && env.cancelAt == Some(c)
    requires attempt <= c <= cfg.maxRetries && 1 <= c
    requires forall j :: attempt <= j < c ==> Retryable(env.respond(j))
    ensures var t := Retry(cfg, env, verb, url, attempt, reader, last);
      t.result == Err(Cancelled(env.contextError)) && |t.sent| == c - attempt
    decreases c - attempt
  {
    if attempt < c {
      var o := env.respond(attempt);
      CancelStopsRetries(cfg, env, verb, url, attempt + 1, NextReader(o, reader), Some(NextLast(o)), c);
    }
  }

  /** The first attempt is never cancelled: a call that gets past rate limiting and marshalling sends at least once. */
  lemma FirstAttemptNotCancelled(cfg: RetryConfig, env: Env, base: string, verb: string, endpoint: string, data: Option<string>)
    requires env.rateLimitError.None? && env.marshalError.None? && env.buildError.None? && cfg.maxRetries >= 0
    ensures |Dispatch(cfg, env, base, verb, endpoint, data).sent| >= 1
  {
  }

  /**
   * The body buffer is shared by the attempts: after an answered attempt is
   * retried, the next request carries what the first one left of it, nothing.
   */
  lemma RetrySendsDrainedBody(cfg: RetryConfig, env: Env, base: string, endpoint: string, payload: string)
    requires Undisturbed(env) && cfg.maxRetries >= 1 && payload != ""
    requires env.respond(0) == Answered(HttpResponse(503, ""))
    ensures var t := Dispatch(cfg, env, base, "POST", endpoint, Some(payload));
      |t.sent| >= 2 && t.sent[0].body == Some(payload) && t.sent[1].body == Some("")
  {
    var url := RequestUrl(base, endpoint);
    var t1 := Retry(cfg, env, "POST", url, 1, Some(""), Some(Status(503)));
    assert t1.sent[0].body == Some("");
  }

  /** A negative retry count sends nothing and reports "after 0 attempts" or fewer with no cause. */
  lemma NegativeRetries(cfg: RetryConfig, env: Env, base: string, verb: string, endpoint: string, data: Option<string>)
    requires cfg.maxRetries < 0 && env.rateLimitError.None? && env.marshalError.None?
    ensures var t := Dispatch(cfg, env, base, verb, endpoint, data);
      t.sent == [] && t.result == Err(Exhausted(cfg.maxRetries + 1, None))
  {
  }
}
