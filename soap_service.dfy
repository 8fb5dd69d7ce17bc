/**
 * The SOAP domain service: one request with an optional response cache, the retry loop,
 * the sequential batch, and response comparison.
 *
 * The repository is a log of the requests handed to it and a function giving the outcome of
 * the n-th send; the clock and the request ids (uuid4) are parameters; the SHA-256 of the cache
 * key is taken to be injective, so the key is the joined string itself.
 */
module SoapService {
  import opened Wrappers
  import opened Strings
  import opened Dicts
  import opened XmlTree
  import Endpoint
  import SoapAction
  import SoapEnvelope
  import SoapRequest
  import SoapResponse
  import XmlBody

  /** What the repository is handed: the state of the request at the moment of `send`. */
  datatype Sent = Sent(
    id: string,
    endpointUrl: string,
    soapAction: Option<string>,
    body: string,
    headers: Dict<string>,
    namespace: Option<string>,
    soapVersion: string,
    timeout: int,
    createdAt: int)

  /** The request as the repository sees it. */
  function Snapshot(request: SoapRequest.SoapRequest): Sent
    reads request
  {
    Sent(request.id, request.endpointUrl, request.soapAction, request.body, request.headers,
         request.namespace, request.soapVersion, request.timeout, request.createdAt)
  }

  /** The outcome of the n-th send (counted from 0) of a request: a response, or a raised error. */
  type Respond = (nat, Sent) -> Result<SoapResponse.SoapResponse>

  /** A repository: every `send` is logged, and its outcome is `respond` of the send's position and the request. */
  class Repository {
    const respond: Respond
    var sent: seq<Sent>

    constructor (respond: Respond)
      ensures this.respond == respond && sent == []
    {
      this.respond := respond;
      sent := [];
    }

    /** `send` */
    method Send(request: SoapRequest.SoapRequest) returns (r: Result<SoapResponse.SoapResponse>)
      modifies this`sent
      ensures sent == old(sent) + [Snapshot(request)]
      ensures r == respond(|old(sent)|, Snapshot(request))
    {
      r := respond(|sent|, Snapshot(request));
      sent := sent + [Snapshot(request)];
    }
  }

  /** How long a cached response stays valid: five minutes, in microseconds of the clock. */
  const CacheTtl: int := 5 * 60 * 1000000

  /** `_is_cache_valid`: the response was received less than the TTL before `now`. */
  predicate IsCacheValid(response: SoapResponse.SoapResponse, now: int) {
    now - response.receivedAt < CacheTtl
  }

  /** `_create_cache_key`: the key string whose SHA-256 is the key. */
  function CacheKey(url: string, action: string, body: string): string {
    url + ":" + action + ":" + body
  }

  /** The joined key does not keep its parts apart: a ':' may move between action and body. */
  lemma CacheKeyAmbiguous(url: string)
    ensures CacheKey(url, "a", "b:c") == CacheKey(url, "a:b", "c")
  {
  }

  /** The arguments of one `execute_request` call, with the id and the clock reading it uses. */
  datatype Call = Call(
    endpoint: Endpoint.Endpoint,
    action: SoapAction.SoapAction,
    body: string,
    useCache: bool,
    customHeaders: Dict<string>,
    id: string,
    now: int)

  function Key(call: Call): string {
    CacheKey(call.endpoint.url, call.action.value, call.body)
  }

  /**
   * The environment of the service: the repository's outcomes, what reading the endpoint's
   * `soap_version` gives, and the XML parser.
   */
  datatype Env = Env(respond: Respond, versionOf: Endpoint.Endpoint -> Result<string>, parse: Parser)

  /** `endpoint.soap_version` as written: the endpoint entity defines only `default_soap_version`. */
  function SoapVersionAsWritten(e: Endpoint.Endpoint): Result<string> {
    Fail(AttributeError("'Endpoint' object has no attribute 'soap_version'"))
  }

  /** The attribute the code evidently means. */
  function SoapVersionIntended(e: Endpoint.Endpoint): Result<string> {
    Ok(e.defaultSoapVersion)
  }

  /** `str(endpoint.name)` */
  function NameText(name: Option<string>): string {
    if name.Some? then name.value else "None"
  }

  function Unsupported(e: Endpoint.Endpoint, action: SoapAction.SoapAction): Exception {
    ValueError("Operation '" + action.value + "' wird von Endpoint '" + NameText(e.name) + "' nicht unterstützt")
  }

  /** The cached response `execute_request` returns, if any. */
  function CachedHit(cache: map<string, SoapResponse.SoapResponse>, useCache: bool, key: string, now: int)
    : Option<SoapResponse.SoapResponse>
  {
    if useCache && key in cache && IsCacheValid(cache[key], now) then Some(cache[key]) else None
  }

  /** `for key, value in custom_headers.items(): request.add_header(key, value)` on the request's headers. */
  function AddHeaders(headers: Dict<string>, custom: Dict<string>): (r: Result<Dict<string>>)
    decreases |custom|
  {
    if |custom| == 0 then Ok(headers)
    else if |custom[0].0| == 0 || |custom[0].1| == 0 then Fail(ValueError("Header key und value dürfen nicht leer sein"))
    else AddHeaders(Set(headers, custom[0].0, custom[0].1), custom[1..])
  }

  /** Every custom header has a non-empty key and value. */
  predicate HeadersGiven(custom: Dict<string>) {
    forall i :: 0 <= i < |custom| ==> |custom[i].0| > 0 && |custom[i].1| > 0
  }

  /** The envelope version `execute_request` picks: anything but "1.1" selects 1.2. */
  function EnvelopeVersion(v: string): SoapEnvelope.SoapVersion {
    if v == "1.1" then SoapEnvelope.SoapVersion.V1_1 else SoapEnvelope.SoapVersion.V1_2
  }

  /** The request `execute_request` hands to the repository on a cache miss, or the error raised while building it. */
  function Prepare(version: Result<string>, parse: Parser, call: Call): Result<Sent> {
    match version
    case Fail(e) => Fail(e)
    case Ok(v) =>
      match SoapEnvelope.FromBody(call.body, EnvelopeVersion(v), None, parse)
      case Fail(e) => Fail(e)
      case Ok(envelope) =>
        var wire := SoapEnvelope.Wire(envelope);
        match SoapRequest.CheckError(Some(call.endpoint.url), Some(wire), v, call.endpoint.defaultTimeout)
        case Some(e) => Fail(e)
        case None =>
          match AddHeaders(SoapRequest.EnsureHeaders(v, Some(call.action.value), []), call.customHeaders)
          case Fail(e) => Fail(e)
          case Ok(headers) =>
            Ok(Sent(call.id, call.endpoint.url, Some(call.action.value), wire, headers, call.action.namespace,
                    v, call.endpoint.defaultTimeout, call.now))
  }

  /** The outcome of one call: the result, the cache afterwards and the request sent, if any. */
  datatype Step = Step(result: Result<SoapResponse.SoapResponse>, cache: map<string, SoapResponse.SoapResponse>,
                       sent: Option<Sent>)

  function SentSeq(s: Option<Sent>): seq<Sent> {
    if s.Some? then [s.value] else []
  }

  /** `self._request_cache[cache_key] = response`, done only for a successful response under `use_cache`. */
  function Store(cache: map<string, SoapResponse.SoapResponse>, useCache: bool, key: string,
                 r: Result<SoapResponse.SoapResponse>): map<string, SoapResponse.SoapResponse>
  {
    if useCache && r.Ok? && SoapResponse.IsSuccessful(r.value) then cache[key := r.value] else cache
  }

  /**
   * `execute_request`: the operation check, then the cache, then building and sending the request.
   * The cache gains at most the one successful response of this call, and only under `use_cache`;
   * whatever is sent is answered by the repository.
   */
  function Execute(env: Env, cache: map<string, SoapResponse.SoapResponse>, n: nat, call: Call): (s: Step)
    ensures s.cache == cache ||
            (call.useCache && s.result.Ok? && SoapResponse.IsSuccessful(s.result.value) &&
             s.cache == cache[Key(call) := s.result.value])
    ensures s.sent.Some? ==> s.result == env.respond(n, s.sent.value)
  {
    if !Endpoint.SupportsOperation(call.endpoint, call.action.value) then
      Step(Fail(Unsupported(call.endpoint, call.action)), cache, None)
    else match CachedHit(cache, call.useCache, Key(call), call.now)
      case Some(hit) => Step(Ok(hit), cache, None)
      case None =>
        match Prepare(env.versionOf(call.endpoint), env.parse, call)
        case Fail(e) => Step(Fail(e), cache, None)
        case Ok(request) =>
          var r := env.respond(n, request);
          Step(r, Store(cache, call.useCache, Key(call), r), Some(request))
  }

  /** Every cached response is a successful one. */
  predicate CacheValid(cache: map<string, SoapResponse.SoapResponse>) {
    forall k :: k in cache ==> SoapResponse.IsSuccessful(cache[k])
  }

  /** An unsupported operation is refused before the cache or the repository is consulted. */
  lemma UnsupportedRefused(env: Env, cache: map<string, SoapResponse.SoapResponse>, n: nat, call: Call)
    requires !Endpoint.SupportsOperation(call.endpoint, call.action.value)
    ensures Execute(env, cache, n, call) == Step(Fail(Unsupported(call.endpoint, call.action)), cache, None)
  {
  }

  /** Under `use_cache`, a stored response younger than the TTL is returned as it is, and nothing is sent. */
  lemma FreshCacheServed(env: Env, cache: map<string, SoapResponse.SoapResponse>, n: nat, call: Call)
    requires Endpoint.SupportsOperation(call.endpoint, call.action.value)
    requires call.useCache && Key(call) in cache && call.now - cache[Key(call)].receivedAt < CacheTtl
    ensures Execute(env, cache, n, call) == Step(Ok(cache[Key(call)]), cache, None)
  {
  }

  /** A call never puts an unsuccessful response into the cache. */
  lemma ExecuteKeepsCacheValid(env: Env, cache: map<string, SoapResponse.SoapResponse>, n: nat, call: Call)
    requires CacheValid(cache)
    ensures CacheValid(Execute(env, cache, n, call).cache)
  {
  }

  /** On a miss the request is always sent, and a stale entry is replaced by a fresh successful response. */
  lemma StaleEntryRefreshed(env: Env, cache: map<string, SoapResponse.SoapResponse>, n: nat, call: Call)
    requires Endpoint.SupportsOperation(call.endpoint, call.action.value)
    requires call.useCache && Key(call) in cache && !IsCacheValid(cache[Key(call)], call.now)
    requires Prepare(env.versionOf(call.endpoint), env.parse, call).Ok?
    ensures var s := Execute(env, cache, n, call);
            && s.sent == Some(Prepare(env.versionOf(call.endpoint), env.parse, call).value)
            && (s.result.Ok? && SoapResponse.IsSuccessful(s.result.value) ==> s.cache[Key(call)] == s.result.value)
            && (s.result.Fail? ==> s.cache == cache)
  {
  }

  // ---------------------------------------------------------------------------
  // Custom headers

  /** Headers set by the caller win over the request's defaults; the other headers are kept. */
  lemma {:induction false} AddHeadersGet(headers: Dict<string>, custom: Dict<string>, k: string)
    requires HeadersGiven(custom)
    requires UniqueKeys(custom)
    ensures AddHeaders(headers, custom).Ok?
    ensures Get(AddHeaders(headers, custom).value, k) == if HasKey(custom, k) then Get(custom, k) else Get(headers, k)
    decreases |custom|
  {
    if |custom| > 0 {
      var rest := custom[1..];
      assert HeadersGiven(rest) by {
        forall i | 0 <= i < |rest| ensures |rest[i].0| > 0 && |rest[i].1| > 0 {
          assert rest[i] == custom[i + 1];
        }
      }
      assert UniqueKeys(rest) by {
        forall i, j | 0 <= i < j < |rest| ensures rest[i].0 != rest[j].0 {
          assert rest[i] == custom[i + 1] && rest[j] == custom[j + 1];
        }
      }
      var h := Set(headers, custom[0].0, custom[0].1);
      AddHeadersGet(h, rest, k);
      if k == custom[0].0 {
        assert !HasKey(rest, k) by {
          forall i | 0 <= i < |rest| ensures rest[i].0 != k {
            assert rest[i] == custom[i + 1];
          }
        }
        GetSetSame(headers, k, custom[0].1);
      } else {
        GetSetOther(headers, custom[0].0, custom[0].1, k);
        assert HasKey(custom, k) <==> HasKey(rest, k);
      }
    }
  }

  /** The first empty key or value among the custom headers aborts the call with ValueError. */
  lemma {:induction false} AddHeadersFails(headers: Dict<string>, custom: Dict<string>, i: nat)
    requires i < |custom| && (|custom[i].0| == 0 || |custom[i].1| == 0)
    ensures AddHeaders(headers, custom) == Fail(ValueError("Header key und value dürfen nicht leer sein"))
    decreases |custom|
  {
    if !(|custom[0].0| == 0 || |custom[0].1| == 0) {
      assert custom[1..][i - 1] == custom[i];
      AddHeadersFails(Set(headers, custom[0].0, custom[0].1), custom[1..], i - 1);
    }
  }

  /**
   * What a prepared request holds: the endpoint's URL and timeout, the action as SOAP action,
   * the envelope text around the body, and a caller's header over any default.
   */
  lemma PreparedRequest(version: Result<string>, parse: Parser, call: Call, k: string)
    requires Prepare(version, parse, call).Ok?
    requires UniqueKeys(call.customHeaders) && HasKey(call.customHeaders, k)
    ensures var p := Prepare(version, parse, call).value;
            && version.Ok? && p.soapVersion == version.value
            && p.endpointUrl == call.endpoint.url && p.timeout == call.endpoint.defaultTimeout
            && p.soapAction == Some(call.action.value) && p.namespace == call.action.namespace
            && Contains(p.body, call.body)
            && Get(p.headers, k) == Get(call.customHeaders, k)
  {
    var v := version.value;
    var envelope := SoapEnvelope.FromBody(call.body, EnvelopeVersion(v), None, parse).value;
    WireHoldsBody(envelope);
    var defaults := SoapRequest.EnsureHeaders(v, Some(call.action.value), []);
    assert HeadersGiven(call.customHeaders) by {
      forall i | 0 <= i < |call.customHeaders|
        ensures |call.customHeaders[i].0| > 0 && |call.customHeaders[i].1| > 0
      {
        if |call.customHeaders[i].0| == 0 || |call.customHeaders[i].1| == 0 {
          AddHeadersFails(defaults, call.customHeaders, i);
        }
      }
    }
    AddHeadersGet(defaults, call.customHeaders, k);
  }

  /** The envelope text contains the body. */
  lemma WireHoldsBody(e: SoapEnvelope.SoapEnvelope)
    ensures Contains(SoapEnvelope.Wire(e), e.body)
  {
    var pre := SoapEnvelope.Declaration + "\n" + SoapEnvelope.EnvelopeStart(e) + "\n" + SoapEnvelope.HeaderLines(e)
               + SoapEnvelope.BodyOpen + "\n";
    var post := "\n" + SoapEnvelope.BodyClose + "\n" + SoapEnvelope.EnvelopeClose;
    assert SoapEnvelope.Wire(e) == pre + e.body + post;
    ContainsMiddle(pre, e.body, post);
  }

  // ---------------------------------------------------------------------------
  // The soap_version attribute

  /**
   * As written, a call that is not served from the cache raises AttributeError before anything is
   * sent, so nothing is ever sent and nothing is ever cached.
   */
  lemma AsWrittenNeverSends(respond: Respond, parse: Parser, cache: map<string, SoapResponse.SoapResponse>,
                            n: nat, call: Call)
    requires Endpoint.SupportsOperation(call.endpoint, call.action.value)
    requires CachedHit(cache, call.useCache, Key(call), call.now).None?
    ensures Execute(Env(respond, SoapVersionAsWritten, parse), cache, n, call)
            == Step(Fail(AttributeError("'Endpoint' object has no attribute 'soap_version'")), cache, None)
  {
  }

  /**
   * With the endpoint's `default_soap_version`, a supported call on a constructed endpoint with a
   * parsable body and proper custom headers reaches the repository, in the endpoint's version.
   */
  lemma IntendedSends(respond: Respond, parse: Parser, cache: map<string, SoapResponse.SoapResponse>,
                      n: nat, call: Call)
    requires Endpoint.Valid(call.endpoint)
    requires Endpoint.SupportsOperation(call.endpoint, call.action.value)
    requires CachedHit(cache, call.useCache, Key(call), call.now).None?
    requires |call.body| > 0 && parse(call.body).Parsed?
    requires HeadersGiven(call.customHeaders)
    ensures var s := Execute(Env(respond, SoapVersionIntended, parse), cache, n, call);
            && s.sent.Some? && s.result == respond(n, s.sent.value)
            && s.sent.value.soapVersion == call.endpoint.defaultSoapVersion
  {
    var v := call.endpoint.defaultSoapVersion;
    var envelope := SoapEnvelope.FromBody(call.body, EnvelopeVersion(v), None, parse);
    assert envelope.Ok?;
    AddHeadersOk(SoapRequest.EnsureHeaders(v, Some(call.action.value), []), call.customHeaders);
  }

  /** Proper custom headers are always accepted. */
  lemma {:induction false} AddHeadersOk(headers: Dict<string>, custom: Dict<string>)
    requires HeadersGiven(custom)
    ensures AddHeaders(headers, custom).Ok?
    decreases |custom|
  {
    if |custom| > 0 {
      assert HeadersGiven(custom[1..]) by {
        forall i | 0 <= i < |custom| - 1 ensures |custom[1..][i].0| > 0 && |custom[1..][i].1| > 0 {
          assert custom[1..][i] == custom[i + 1];
        }
      }
      AddHeadersOk(Set(headers, custom[0].0, custom[0].1), custom[1..]);
    }
  }

  // ---------------------------------------------------------------------------
  // Retry

  /**
   * One uncached call without custom headers, as the retry loop and the batch make it: given the
   * number of requests sent so far, the position of the call (which picks its id and clock
   * reading), the action and the body.
   */
  type Runner = (nat, nat, SoapAction.SoapAction, string) -> Step

  function RunnerOf(env: Env, cache: map<string, SoapResponse.SoapResponse>, endpoint: Endpoint.Endpoint,
                    ids: nat -> string, clock: nat -> int): Runner
  {
    (n: nat, k: nat, action: SoapAction.SoapAction, body: string) =>
      Execute(env, cache, n, Call(endpoint, action, body, false, [], ids(k), clock(k)))
  }

  /**
   * Every request a runner sends is answered by `respond`, at its position among all sends, and
   * a runner succeeds only by sending.
   */
  ghost predicate Answered(run: Runner, respond: Respond) {
    forall n: nat, k: nat, a: SoapAction.SoapAction, b: string ::
      && (run(n, k, a, b).sent.Some? ==> run(n, k, a, b).result == respond(n, run(n, k, a, b).sent.value))
      && (run(n, k, a, b).result.Ok? ==> run(n, k, a, b).sent.Some?)
  }

  /** The calls of the service are answered by its repository. */
  lemma RunnerAnswered(env: Env, cache: map<string, SoapResponse.SoapResponse>, endpoint: Endpoint.Endpoint,
                       ids: nat -> string, clock: nat -> int)
    ensures Answered(RunnerOf(env, cache, endpoint, ids, clock), env.respond)
  {
    var run := RunnerOf(env, cache, endpoint, ids, clock);
    forall n: nat, k: nat, a: SoapAction.SoapAction, b: string
      ensures run(n, k, a, b).sent.Some? ==> run(n, k, a, b).result == env.respond(n, run(n, k, a, b).sent.value)
      ensures run(n, k, a, b).result.Ok? ==> run(n, k, a, b).sent.Some?
    {
      assert run(n, k, a, b) == Execute(env, cache, n, Call(endpoint, a, b, false, [], ids(k), clock(k)));
    }
  }

  /** `run` makes the calls of the service with environment `env` and cache `cache`. */
  ghost predicate Serves(run: Runner, env: Env, cache: map<string, SoapResponse.SoapResponse>,
                         endpoint: Endpoint.Endpoint, ids: nat -> string, clock: nat -> int)
  {
    forall n: nat, k: nat, a: SoapAction.SoapAction, b: string
      {:trigger Execute(env, cache, n, Call(endpoint, a, b, false, [], ids(k), clock(k)))} ::
      run(n, k, a, b) == Execute(env, cache, n, Call(endpoint, a, b, false, [], ids(k), clock(k)))
  }

  lemma RunnerServes(env: Env, cache: map<string, SoapResponse.SoapResponse>, endpoint: Endpoint.Endpoint,
                     ids: nat -> string, clock: nat -> int)
    ensures Serves(RunnerOf(env, cache, endpoint, ids, clock), env, cache, endpoint, ids, clock)
  {
  }

  /** The message of the SoapRepositoryError raised once every attempt has failed. */
  function ExhaustedMessage(maxRetries: int, lastError: Option<Exception>): string {
    "Request fehlgeschlagen nach " + IntToString(maxRetries) + " Versuchen: "
    + (if lastError.Some? then lastError.value.Message() else "None")
  }

  /** The outcome of the retry loop: the result, the pauses slept, and the requests sent. */
  datatype Retried = Retried(result: Result<SoapResponse.SoapResponse>, delays: seq<int>, sent: seq<Sent>)

  /**
   * `execute_request_with_retry` from attempt `attempt` on: a SoapRepositoryError is retried after
   * `delay * (attempt + 1)` seconds (no pause after the last attempt), any other outcome ends the loop.
   */
  function RetryFrom(run: Runner, n: nat, action: SoapAction.SoapAction, body: string, maxRetries: int, delay: int,
                     attempt: nat, lastError: Option<Exception>): Retried
    decreases if attempt <= maxRetries then maxRetries + 1 - attempt else 0, 1
  {
    if attempt > maxRetries then Retried(Fail(RepositoryError(ExhaustedMessage(maxRetries, lastError))), [], [])
    else RetryAfter(run, n, action, body, maxRetries, delay, attempt, run(n, attempt, action, body))
  }

  /** The loop after attempt `attempt` gave `s`. */
  function RetryAfter(run: Runner, n: nat, action: SoapAction.SoapAction, body: string, maxRetries: int, delay: int,
                      attempt: nat, s: Step): Retried
    requires attempt <= maxRetries
    decreases maxRetries + 1 - attempt, 0
  {
    var sent := SentSeq(s.sent);
    if s.result.Ok? || !s.result.error.IsRepositoryError() then Retried(s.result, [], sent)
    else
      var rest := RetryFrom(run, n + |sent|, action, body, maxRetries, delay, attempt + 1, Some(s.result.error));
      Retried(rest.result, Pause(delay, attempt, maxRetries) + rest.delays, sent + rest.sent)
  }

  /** The pause after a refused attempt: none after the last one. */
  function Pause(delay: int, attempt: nat, maxRetries: int): seq<int> {
    if attempt < maxRetries then [delay * (attempt + 1)] else []
  }

  /** An attempt of the retry loop, then what follows from its outcome. */
  lemma RetryStep(run: Runner, n: nat, action: SoapAction.SoapAction, body: string, maxRetries: int, delay: int,
                  attempt: nat, lastError: Option<Exception>)
    requires attempt <= maxRetries
    ensures RetryFrom(run, n, action, body, maxRetries, delay, attempt, lastError)
            == RetryAfter(run, n, action, body, maxRetries, delay, attempt, run(n, attempt, action, body))
  {
  }

  /** An outcome other than a SoapRepositoryError ends the loop. */
  lemma RetryStops(run: Runner, n: nat, action: SoapAction.SoapAction, body: string, maxRetries: int, delay: int,
                   attempt: nat, s: Step)
    requires attempt <= maxRetries
    requires s.result.Ok? || !s.result.error.IsRepositoryError()
    ensures RetryAfter(run, n, action, body, maxRetries, delay, attempt, s) == Retried(s.result, [], SentSeq(s.sent))
  {
  }

  /** A SoapRepositoryError is followed by a pause and the next attempt. */
  lemma RetryGoesOn(run: Runner, n: nat, action: SoapAction.SoapAction, body: string, maxRetries: int, delay: int,
                    attempt: nat, s: Step)
    requires attempt <= maxRetries
    requires s.result.Fail? && s.result.error.IsRepositoryError()
    ensures var rest := RetryFrom(run, n + |SentSeq(s.sent)|, action, body, maxRetries, delay, attempt + 1,
                                  Some(s.result.error));
            RetryAfter(run, n, action, body, maxRetries, delay, attempt, s)
            == Retried(rest.result, Pause(delay, attempt, maxRetries) + rest.delays, SentSeq(s.sent) + rest.sent)
  {
  }

  /** The log after a send, in the terms of the loops' invariants. */
  lemma SentAppend(log: seq<Sent>, done: seq<Sent>, more: seq<Sent>)
    ensures (log + done) + more == log + (done + more)
  {
  }

  /** The pauses and sends of the attempts made so far, then the rest of the loop. */
  function AfterRetries(delays: seq<int>, sent: seq<Sent>, rest: Retried): Retried {
    Retried(rest.result, delays + rest.delays, sent + rest.sent)
  }

  lemma AfterRetriesShift(delays: seq<int>, sent: seq<Sent>, pause: seq<int>, more: seq<Sent>, rest: Retried)
    ensures AfterRetries(delays, sent, Retried(rest.result, pause + rest.delays, more + rest.sent))
            == AfterRetries(delays + pause, sent + more, rest)
  {
    assert delays + (pause + rest.delays) == (delays + pause) + rest.delays;
    assert sent + (more + rest.sent) == (sent + more) + rest.sent;
  }

  lemma AfterRetriesEnd(delays: seq<int>, sent: seq<Sent>, result: Result<SoapResponse.SoapResponse>, more: seq<Sent>)
    ensures AfterRetries(delays, sent, Retried(result, [], more)) == Retried(result, delays, sent + more)
  {
    assert delays + [] == delays;
  }

  /** `max(0, k)` */
  function Attempts(k: int): nat {
    if k > 0 then k else 0
  }

  /**
   * The retry loop sends at most one request per remaining attempt, and pauses linearly longer
   * before each retry: the k-th pause from `attempt` on is `delay * (attempt + k + 1)`.
   */
  lemma {:induction false} RetryBounded(run: Runner, n: nat, action: SoapAction.SoapAction, body: string,
                                        maxRetries: int, delay: int, attempt: nat, lastError: Option<Exception>)
    ensures var r := RetryFrom(run, n, action, body, maxRetries, delay, attempt, lastError);
            && |r.sent| <= Attempts(maxRetries + 1 - attempt)
            && |r.delays| <= Attempts(maxRetries - attempt)
            && forall k :: 0 <= k < |r.delays| ==> r.delays[k] == delay * (attempt + k + 1)
    decreases if attempt <= maxRetries then maxRetries + 1 - attempt else 0
  {
    if attempt <= maxRetries {
      var s := run(n, attempt, action, body);
      if !(s.result.Ok? || !s.result.error.IsRepositoryError()) {
        RetryBounded(run, n + |SentSeq(s.sent)|, action, body, maxRetries, delay, attempt + 1, Some(s.result.error));
      }
    }
  }

  /** Every request of `sent`, the first being the n-th send, was answered with a SoapRepositoryError. */
  predicate AllRefused(respond: Respond, n: nat, sent: seq<Sent>) {
    forall i :: 0 <= i < |sent| ==> respond(n + i, sent[i]).Fail? && respond(n + i, sent[i]).error.IsRepositoryError()
  }

  lemma AllRefusedAppend(respond: Respond, n: nat, a: seq<Sent>, b: seq<Sent>)
    requires AllRefused(respond, n, a) && AllRefused(respond, n + |a|, b)
    ensures AllRefused(respond, n, a + b)
  {
    forall i | 0 <= i < |a + b|
      ensures respond(n + i, (a + b)[i]).Fail? && respond(n + i, (a + b)[i]).error.IsRepositoryError()
    {
      if i >= |a| {
        assert (a + b)[i] == b[i - |a|];
        assert n + i == (n + |a|) + (i - |a|);
      }
    }
  }

  /** Refused sends in front of a loop that ended with an answer. */
  lemma RefusedThenAnswered(respond: Respond, n: nat, first: seq<Sent>, rest: Retried, whole: Retried)
    requires whole.result == rest.result && whole.sent == first + rest.sent
    requires AllRefused(respond, n, first)
    requires rest.result.Ok? ==>
               && |rest.sent| > 0
               && rest.result == respond(n + |first| + |rest.sent| - 1, rest.sent[|rest.sent| - 1])
               && AllRefused(respond, n + |first|, rest.sent[..|rest.sent| - 1])
    ensures whole.result.Ok? ==>
              && |whole.sent| > 0
              && whole.result == respond(n + |whole.sent| - 1, whole.sent[|whole.sent| - 1])
              && AllRefused(respond, n, whole.sent[..|whole.sent| - 1])
  {
    if rest.result.Ok? {
      var all := first + rest.sent;
      assert all[|all| - 1] == rest.sent[|rest.sent| - 1];
      assert all[..|all| - 1] == first + rest.sent[..|rest.sent| - 1];
      AllRefusedAppend(respond, n, first, rest.sent[..|rest.sent| - 1]);
    }
  }

  /** An attempt answered with a SoapRepositoryError refused whatever it sent. */
  lemma RefusedSend(run: Runner, respond: Respond, n: nat, k: nat, a: SoapAction.SoapAction, b: string)
    requires Answered(run, respond)
    requires run(n, k, a, b).result.Fail? && run(n, k, a, b).result.error.IsRepositoryError()
    ensures AllRefused(respond, n, SentSeq(run(n, k, a, b).sent))
  {
  }

  /**
   * A successful retry loop returns the answer to its last send, and every earlier send was
   * answered with a SoapRepositoryError.
   */
  lemma {:induction false} RetryReturnsFirstSuccess(run: Runner, respond: Respond, n: nat,
                                                    action: SoapAction.SoapAction, body: string, maxRetries: int,
                                                    delay: int, attempt: nat, lastError: Option<Exception>)
    requires Answered(run, respond)
    ensures var r := RetryFrom(run, n, action, body, maxRetries, delay, attempt, lastError);
            r.result.Ok? ==>
              && |r.sent| > 0
              && r.result == respond(n + |r.sent| - 1, r.sent[|r.sent| - 1])
              && AllRefused(respond, n, r.sent[..|r.sent| - 1])
    decreases if attempt <= maxRetries then maxRetries + 1 - attempt else 0
  {
    if attempt <= maxRetries {
      if run(n, attempt, action, body).result.Fail? && run(n, attempt, action, body).result.error.IsRepositoryError() {
        RetryRefused(run, respond, n, action, body, maxRetries, delay, attempt, lastError);
      }
    }
  }

  /** The step of `RetryReturnsFirstSuccess` after a refused attempt. */
  lemma {:induction false} RetryRefused(run: Runner, respond: Respond, n: nat,
                                        action: SoapAction.SoapAction, body: string, maxRetries: int,
                                        delay: int, attempt: nat, lastError: Option<Exception>)
    requires Answered(run, respond)
    requires attempt <= maxRetries
    requires run(n, attempt, action, body).result.Fail? && run(n, attempt, action, body).result.error.IsRepositoryError()
    ensures var r := RetryFrom(run, n, action, body, maxRetries, delay, attempt, lastError);
            r.result.Ok? ==>
              && |r.sent| > 0
              && r.result == respond(n + |r.sent| - 1, r.sent[|r.sent| - 1])
              && AllRefused(respond, n, r.sent[..|r.sent| - 1])
    decreases maxRetries + 1 - attempt, 0
  {
    RetryStep(run, n, action, body, maxRetries, delay, attempt, lastError);
    RetryGoesOn(run, n, action, body, maxRetries, delay, attempt, run(n, attempt, action, body));
    RetryReturnsFirstSuccess(run, respond, n + |SentSeq(run(n, attempt, action, body).sent)|, action, body, maxRetries,
                             delay, attempt + 1, Some(run(n, attempt, action, body).result.error));
    RefusedSend(run, respond, n, attempt, action, body);
    RefusedThenAnswered(respond, n, SentSeq(run(n, attempt, action, body).sent),
                        RetryFrom(run, n + |SentSeq(run(n, attempt, action, body).sent)|, action, body, maxRetries,
                                  delay, attempt + 1, Some(run(n, attempt, action, body).result.error)),
                        RetryFrom(run, n, action, body, maxRetries, delay, attempt, lastError));
  }

  /** A SoapRepositoryError escapes the loop only as the final one naming `max_retries`. */
  lemma {:induction false} RetryExhausted(run: Runner, n: nat, action: SoapAction.SoapAction, body: string,
                                          maxRetries: int, delay: int, attempt: nat, lastError: Option<Exception>)
    ensures var r := RetryFrom(run, n, action, body, maxRetries, delay, attempt, lastError);
            r.result.Fail? && r.result.error.IsRepositoryError() ==>
              && r.result.error.RepositoryError?
              && StartsWith(r.result.error.msg, "Request fehlgeschlagen nach " + IntToString(maxRetries) + " Versuchen: ")
    decreases if attempt <= maxRetries then maxRetries + 1 - attempt else 0
  {
    if attempt <= maxRetries {
      var s := run(n, attempt, action, body);
      if !(s.result.Ok? || !s.result.error.IsRepositoryError()) {
        RetryExhausted(run, n + |SentSeq(s.sent)|, action, body, maxRetries, delay, attempt + 1, Some(s.result.error));
      }
    } else {
      var m := ExhaustedMessage(maxRetries, lastError);
      var p := "Request fehlgeschlagen nach " + IntToString(maxRetries) + " Versuchen: ";
      assert m == p + (if lastError.Some? then lastError.value.Message() else "None");
      assert m[..|p|] == p;
    }
  }

  /** As written, the retry loop raises AttributeError on its first attempt and sends nothing. */
  lemma AsWrittenRetryRaises(respond: Respond, parse: Parser, cache: map<string, SoapResponse.SoapResponse>, n: nat,
                             endpoint: Endpoint.Endpoint, action: SoapAction.SoapAction, body: string,
                             maxRetries: int, delay: int, ids: nat -> string, clock: nat -> int)
    requires maxRetries >= 0
    requires Endpoint.SupportsOperation(endpoint, action.value)
    ensures var run := RunnerOf(Env(respond, SoapVersionAsWritten, parse), cache, endpoint, ids, clock);
            RetryFrom(run, n, action, body, maxRetries, delay, 0, None)
            == Retried(Fail(AttributeError("'Endpoint' object has no attribute 'soap_version'")), [], [])
  {
    var run := RunnerOf(Env(respond, SoapVersionAsWritten, parse), cache, endpoint, ids, clock);
    var call := Call(endpoint, action, body, false, [], ids(0), clock(0));
    AsWrittenNeverSends(respond, parse, cache, n, call);
    assert run(n, 0, action, body) == Execute(Env(respond, SoapVersionAsWritten, parse), cache, n, call);
  }

  // ---------------------------------------------------------------------------
  // Batch

  /** `SoapAction.from_string(req_data['action'])` and `req_data['body_content']`, outside the `try`. */
  function BatchItem(req: Dict<string>): Result<(SoapAction.SoapAction, string)> {
    match Get(req, "action")
    case None => Fail(KeyError("action"))
    case Some(a) =>
      match SoapAction.FromString(a, None)
      case Fail(e) => Fail(e)
      case Ok(action) =>
        match Get(req, "body_content")
        case None => Fail(KeyError("body_content"))
        case Some(b) => Ok((action, b))
  }

  /** The ERROR response standing in for a request that raised. */
  function ErrorResponse(e: Exception, now: int): (r: SoapResponse.SoapResponse)
    ensures !SoapResponse.IsSuccessful(r)
  {
    SoapResponse.SoapResponse("batch-error", SoapResponse.Error, Some(0), Some("<error>" + e.Message() + "</error>"),
                              [], None, None, None, None, Some(e.Message()), None, now)
  }

  /** The outcome of the batch loop: the responses (or the error that escaped) and the requests sent. */
  datatype Batched = Batched(result: Result<seq<SoapResponse.SoapResponse>>, sent: seq<Sent>)

  /** The action and body of every request of a batch, position by position. */
  function Items(requests: seq<Dict<string>>): (r: seq<Result<(SoapAction.SoapAction, string)>>)
    ensures |r| == |requests| && forall i :: 0 <= i < |requests| ==> r[i] == BatchItem(requests[i])
  {
    seq(|requests|, i requires 0 <= i < |requests| => BatchItem(requests[i]))
  }

  /**
   * `batch_execute` from position `index` on, over the requests' actions and bodies: the first
   * request without them ends the batch with its error; a call that raises stands as an ERROR
   * response with the clock reading of its position.
   */
  function BatchFrom(run: Runner, n: nat, items: seq<Result<(SoapAction.SoapAction, string)>>, clock: nat -> int,
                     index: nat): Batched
    decreases |items| - index, 1
  {
    if index >= |items| then Batched(Ok([]), [])
    else match items[index]
      case Fail(e) => Batched(Fail(e), [])
      case Ok(item) => BatchAfter(run, n, items, clock, index, run(n, index, item.0, item.1))
  }

  /** The batch after the call for position `index` gave `s`. */
  function BatchAfter(run: Runner, n: nat, items: seq<Result<(SoapAction.SoapAction, string)>>, clock: nat -> int,
                      index: nat, s: Step): Batched
    requires index < |items|
    decreases |items| - index, 0
  {
    var rest := BatchFrom(run, n + |SentSeq(s.sent)|, items, clock, index + 1);
    Batched(Prefixed([AsResponse(s, clock(index))], rest.result), SentSeq(s.sent) + rest.sent)
  }

  /** The responses gathered so far in front of the outcome of the rest of the batch. */
  function Prefixed(responses: seq<SoapResponse.SoapResponse>, rest: Result<seq<SoapResponse.SoapResponse>>)
    : Result<seq<SoapResponse.SoapResponse>>
  {
    if rest.Ok? then Ok(responses + rest.value) else rest
  }

  lemma PrefixedAppend(responses: seq<SoapResponse.SoapResponse>, response: SoapResponse.SoapResponse,
                       rest: Result<seq<SoapResponse.SoapResponse>>)
    ensures Prefixed(responses + [response], rest) == Prefixed(responses, Prefixed([response], rest))
  {
    if rest.Ok? {
      assert (responses + [response]) + rest.value == responses + ([response] + rest.value);
    }
  }

  /** The answer a call gives as a batch response. */
  function AsResponse(s: Step, now: int): SoapResponse.SoapResponse {
    if s.result.Ok? then s.result.value else ErrorResponse(s.result.error, now)
  }

  /** One call of the batch, then the rest of the batch. */
  lemma BatchStep(run: Runner, n: nat, items: seq<Result<(SoapAction.SoapAction, string)>>, clock: nat -> int,
                  index: nat)
    requires index < |items| && items[index].Ok?
    ensures var s := run(n, index, items[index].value.0, items[index].value.1);
            var rest := BatchFrom(run, n + |SentSeq(s.sent)|, items, clock, index + 1);
            BatchFrom(run, n, items, clock, index)
            == Batched(Prefixed([AsResponse(s, clock(index))], rest.result), SentSeq(s.sent) + rest.sent)
  {
  }

  /** The responses and sends of the requests done so far, then the rest of the batch. */
  function AfterBatch(responses: seq<SoapResponse.SoapResponse>, sent: seq<Sent>, rest: Batched): Batched {
    Batched(Prefixed(responses, rest.result), sent + rest.sent)
  }

  lemma AfterBatchStart(b: Batched)
    ensures AfterBatch([], [], b) == b
  {
    if b.result.Ok? {
      assert [] + b.result.value == b.result.value;
    }
    assert [] + b.sent == b.sent;
  }

  lemma AfterBatchShift(responses: seq<SoapResponse.SoapResponse>, sent: seq<Sent>, response: SoapResponse.SoapResponse,
                        more: seq<Sent>, rest: Batched)
    ensures AfterBatch(responses, sent, Batched(Prefixed([response], rest.result), more + rest.sent))
            == AfterBatch(responses + [response], sent + more, rest)
  {
    PrefixedAppend(responses, response, rest.result);
    assert sent + (more + rest.sent) == (sent + more) + rest.sent;
  }

  lemma AfterBatchEnd(responses: seq<SoapResponse.SoapResponse>, sent: seq<Sent>, result: Result<seq<SoapResponse.SoapResponse>>)
    ensures AfterBatch(responses, sent, Batched(result, [])) == Batched(Prefixed(responses, result), sent)
    ensures Prefixed(responses, Ok([])) == Ok(responses)
  {
    assert sent + [] == sent;
    assert responses + [] == responses;
  }

  /** The batch sends at most one request per request. */
  lemma {:induction false} BatchSendsAtMostOne(run: Runner, n: nat, items: seq<Result<(SoapAction.SoapAction, string)>>,
                                               clock: nat -> int, index: nat)
    requires index <= |items|
    ensures |BatchFrom(run, n, items, clock, index).sent| <= |items| - index
    decreases |items| - index
  {
    if index < |items| && items[index].Ok? {
      BatchSendsAtMostOne(run, n + |SentSeq(run(n, index, items[index].value.0, items[index].value.1).sent)|,
                          items, clock, index + 1);
    }
  }

  /** The batch gives one response per request exactly when every request has an action and a body. */
  lemma {:induction false} BatchOnePerRequest(run: Runner, n: nat, items: seq<Result<(SoapAction.SoapAction, string)>>,
                                              clock: nat -> int, index: nat)
    requires index <= |items|
    ensures BatchFrom(run, n, items, clock, index).result.Ok? <==> forall i :: index <= i < |items| ==> items[i].Ok?
    ensures BatchFrom(run, n, items, clock, index).result.Ok? ==>
            |BatchFrom(run, n, items, clock, index).result.value| == |items| - index
    decreases |items| - index
  {
    if index < |items| && items[index].Ok? {
      BatchOnePerRequest(run, n + |SentSeq(run(n, index, items[index].value.0, items[index].value.1).sent)|,
                         items, clock, index + 1);
    }
  }

  /** A request without an action, with an invalid action or without a body ends the batch with its error. */
  lemma {:induction false} BatchRaisesFirst(run: Runner, n: nat, items: seq<Result<(SoapAction.SoapAction, string)>>,
                                            clock: nat -> int, index: nat, i: nat)
    requires index <= i < |items| && items[i].Fail?
    requires forall j :: index <= j < i ==> items[j].Ok?
    ensures BatchFrom(run, n, items, clock, index).result == Fail(items[i].error)
    decreases |items| - index
  {
    if index < i {
      BatchRaisesFirst(run, n + |SentSeq(run(n, index, items[index].value.0, items[index].value.1).sent)|,
                       items, clock, index + 1, i);
    }
  }

  /**
   * Each response of a batch is the answer to the call made for the request of its position, or,
   * when that call raised, an ERROR response carrying the message.
   */
  lemma {:induction false} BatchResponses(run: Runner, n: nat, items: seq<Result<(SoapAction.SoapAction, string)>>,
                                          clock: nat -> int, index: nat, i: nat)
    requires index <= i < |items|
    requires BatchFrom(run, n, items, clock, index).result.Ok?
    ensures items[i].Ok?
    ensures |BatchFrom(run, n, items, clock, index).result.value| == |items| - index
    ensures exists m: nat :: BatchFrom(run, n, items, clock, index).result.value[i - index]
                             == AsResponse(run(m, i, items[i].value.0, items[i].value.1), clock(i))
    decreases |items| - index
  {
    BatchOnePerRequest(run, n, items, clock, index);
    if i > index {
      var m := n + |SentSeq(run(n, index, items[index].value.0, items[index].value.1).sent)|;
      BatchResponses(run, m, items, clock, index + 1, i);
      assert BatchFrom(run, n, items, clock, index).result.value[i - index]
          == BatchFrom(run, m, items, clock, index + 1).result.value[i - (index + 1)];
    } else {
      assert BatchFrom(run, n, items, clock, index).result.value[0]
          == AsResponse(run(n, index, items[index].value.0, items[index].value.1), clock(index));
    }
  }

  /**
   * When every call of a batch raises `e` without sending, nothing is sent and every response is an
   * ERROR response carrying `e`.
   */
  lemma {:induction false} BatchAllFailed(run: Runner, n: nat, items: seq<Result<(SoapAction.SoapAction, string)>>,
                                          clock: nat -> int, index: nat, e: Exception)
    requires index <= |items|
    requires forall m: nat, i :: index <= i < |items| && items[i].Ok? ==>
               && run(m, i, items[i].value.0, items[i].value.1).sent.None?
               && run(m, i, items[i].value.0, items[i].value.1).result == Fail(e)
    ensures var b := BatchFrom(run, n, items, clock, index);
            && b.sent == []
            && (b.result.Ok? ==> forall i :: 0 <= i < |b.result.value| ==> b.result.value[i] == ErrorResponse(e, clock(index + i)))
    decreases |items| - index
  {
    if index < |items| && items[index].Ok? {
      BatchStep(run, n, items, clock, index);
      BatchAllFailed(run, n, items, clock, index + 1, e);
      if BatchFrom(run, n, items, clock, index).result.Ok? {
        forall i | 0 <= i < |BatchFrom(run, n, items, clock, index).result.value|
          ensures BatchFrom(run, n, items, clock, index).result.value[i] == ErrorResponse(e, clock(index + i))
        {
          if i > 0 {
            assert BatchFrom(run, n, items, clock, index).result.value[i]
                == BatchFrom(run, n, items, clock, index + 1).result.value[i - 1];
          }
        }
      }
    }
  }

  /**
   * As written, every well-formed request of a batch on a supported operation comes back as an
   * ERROR response naming the missing `soap_version`, and nothing is sent.
   */
  lemma AsWrittenBatchAllErrors(respond: Respond, parse: Parser, cache: map<string, SoapResponse.SoapResponse>,
                                n: nat, endpoint: Endpoint.Endpoint,
                                items: seq<Result<(SoapAction.SoapAction, string)>>, ids: nat -> string,
                                clock: nat -> int)
    requires forall i :: 0 <= i < |items| && items[i].Ok? ==>
               Endpoint.SupportsOperation(endpoint, items[i].value.0.value)
    ensures var run := RunnerOf(Env(respond, SoapVersionAsWritten, parse), cache, endpoint, ids, clock);
            var b := BatchFrom(run, n, items, clock, 0);
            && b.sent == []
            && (b.result.Ok? ==> forall i :: 0 <= i < |b.result.value| ==>
                                   b.result.value[i] == ErrorResponse(AttributeError("'Endpoint' object has no attribute 'soap_version'"),
                                                                      clock(i)))
  {
    var run := RunnerOf(Env(respond, SoapVersionAsWritten, parse), cache, endpoint, ids, clock);
    var e := AttributeError("'Endpoint' object has no attribute 'soap_version'");
    forall m: nat, i | 0 <= i < |items| && items[i].Ok?
      ensures run(m, i, items[i].value.0, items[i].value.1).sent.None?
      ensures run(m, i, items[i].value.0, items[i].value.1).result == Fail(e)
    {
      AsWrittenBatchStep(respond, parse, cache, m, endpoint, items[i].value.0, items[i].value.1, ids, clock, i);
    }
    BatchAllFailed(run, n, items, clock, 0, e);
  }

  /** One call of the batch as written. */
  lemma AsWrittenBatchStep(respond: Respond, parse: Parser, cache: map<string, SoapResponse.SoapResponse>, n: nat,
                           endpoint: Endpoint.Endpoint, action: SoapAction.SoapAction, body: string,
                           ids: nat -> string, clock: nat -> int, index: nat)
    requires Endpoint.SupportsOperation(endpoint, action.value)
    ensures var run := RunnerOf(Env(respond, SoapVersionAsWritten, parse), cache, endpoint, ids, clock);
            run(n, index, action, body).sent.None?
            && run(n, index, action, body).result == Fail(AttributeError("'Endpoint' object has no attribute 'soap_version'"))
  {
    var call := Call(endpoint, action, body, false, [], ids(index), clock(index));
    AsWrittenNeverSends(respond, parse, cache, n, call);
  }

  // ---------------------------------------------------------------------------
  // Comparison

  /** `XmlBody.from_string(response.body)`; a missing body cannot be stripped. */
  function BodyOf(r: SoapResponse.SoapResponse, parse: Parser): Result<XmlBody.XmlBody> {
    if r.body.None? then Fail(AttributeError("'NoneType' object has no attribute 'strip'"))
    else XmlBody.FromString(r.body.value, parse)
  }

  /** The optional `strip_namespaces`, whose regular expressions are a parameter `strip`. */
  function Stripped(b: XmlBody.XmlBody, ignoreNamespaces: bool, strip: string -> string, parse: Parser)
    : Result<XmlBody.XmlBody>
  {
    if ignoreNamespaces then XmlBody.New(strip(b.value), parse) else Ok(b)
  }

  /** `compare_responses` */
  function CompareResponses(r1: SoapResponse.SoapResponse, r2: SoapResponse.SoapResponse, ignoreNamespaces: bool,
                            strip: string -> string, parse: Parser): Result<bool>
  {
    if r1.status != r2.status then Ok(false)
    else if !SoapResponse.IsSuccessful(r1) || !SoapResponse.IsSuccessful(r2) then Ok(r1.errorMessage == r2.errorMessage)
    else
      match BodyOf(r1, parse)
      case Fail(e) => Fail(e)
      case Ok(x1) =>
        match BodyOf(r2, parse)
        case Fail(e) => Fail(e)
        case Ok(x2) =>
          match Stripped(x1, ignoreNamespaces, strip, parse)
          case Fail(e) => Fail(e)
          case Ok(y1) =>
            match Stripped(x2, ignoreNamespaces, strip, parse)
            case Fail(e) => Fail(e)
            case Ok(y2) => XmlBody.Equals(y1, y2, parse)
  }

  /**
   * Comparison is symmetric wherever it answers, reflexive, and false across different statuses;
   * two unsuccessful responses of one status compare by their error messages.
   */
  lemma CompareProperties(r1: SoapResponse.SoapResponse, r2: SoapResponse.SoapResponse, ignoreNamespaces: bool,
                          strip: string -> string, parse: Parser)
    ensures r1.status != r2.status ==> CompareResponses(r1, r2, ignoreNamespaces, strip, parse) == Ok(false)
    ensures r1.status == r2.status && !SoapResponse.IsSuccessful(r1) ==>
              CompareResponses(r1, r2, ignoreNamespaces, strip, parse) == Ok(r1.errorMessage == r2.errorMessage)
    ensures CompareResponses(r1, r2, ignoreNamespaces, strip, parse).Ok? <==>
            CompareResponses(r2, r1, ignoreNamespaces, strip, parse).Ok?
    ensures CompareResponses(r1, r2, ignoreNamespaces, strip, parse).Ok? ==>
              CompareResponses(r1, r2, ignoreNamespaces, strip, parse) == CompareResponses(r2, r1, ignoreNamespaces, strip, parse)
    ensures CompareResponses(r1, r1, ignoreNamespaces, strip, parse).Ok? ==>
              CompareResponses(r1, r1, ignoreNamespaces, strip, parse) == Ok(true)
  {
    if r1.status == r2.status && SoapResponse.IsSuccessful(r1) && SoapResponse.IsSuccessful(r2) {
      if BodyOf(r1, parse).Ok? && BodyOf(r2, parse).Ok? {
        var x1 := BodyOf(r1, parse).value;
        var x2 := BodyOf(r2, parse).value;
        if Stripped(x1, ignoreNamespaces, strip, parse).Ok? && Stripped(x2, ignoreNamespaces, strip, parse).Ok? {
          XmlBody.EqualsProperties(Stripped(x1, ignoreNamespaces, strip, parse).value,
                                   Stripped(x2, ignoreNamespaces, strip, parse).value, parse);
        }
      }
    }
    if SoapResponse.IsSuccessful(r1) && BodyOf(r1, parse).Ok? {
      var x1 := BodyOf(r1, parse).value;
      if Stripped(x1, ignoreNamespaces, strip, parse).Ok? {
        var y1 := Stripped(x1, ignoreNamespaces, strip, parse).value;
        XmlBody.EqualsProperties(y1, y1, parse);
      }
    }
  }

  /** Successful responses whose bodies differ only in whitespace between tags compare equal. */
  lemma CompareIgnoresGaps(r1: SoapResponse.SoapResponse, r2: SoapResponse.SoapResponse, strip: string -> string,
                           parse: Parser, a: string, w: string, b: string)
    requires r1.status == r2.status && SoapResponse.IsSuccessful(r1) && SoapResponse.IsSuccessful(r2)
    requires r1.body == Some(a + ">" + w + "<" + b) && r2.body == Some(a + "><" + b)
    requires |w| > 0 && AllSpace(w)
    requires Trimmed(r1.body.value) && Trimmed(r2.body.value)
    requires BodyOf(r1, parse).Ok? && BodyOf(r2, parse).Ok?
    requires XmlBody.Minify(BodyOf(r1, parse).value, parse).Ok?
    ensures CompareResponses(r1, r2, false, strip, parse) == Ok(true)
  {
    StripTrimmed(r1.body.value);
    StripTrimmed(r2.body.value);
    XmlBody.EqualsIgnoresGap(BodyOf(r1, parse).value, BodyOf(r2, parse).value, a, w, b, parse);
  }

  // ---------------------------------------------------------------------------
  // The service

  /** `SoapService`: a repository and a private response cache. */
  class SoapService {
    const repository: Repository
    /** what reading `endpoint.soap_version` gives */
    const versionOf: Endpoint.Endpoint -> Result<string>
    const parse: Parser
    var cache: map<string, SoapResponse.SoapResponse>

    /** Only successful responses are ever cached. */
    predicate Valid()
      reads this
    {
      CacheValid(cache)
    }

    function Environment(): Env {
      Env(repository.respond, versionOf, parse)
    }

    constructor (repository: Repository, versionOf: Endpoint.Endpoint -> Result<string>, parse: Parser)
      ensures this.repository == repository && this.versionOf == versionOf && this.parse == parse
      ensures cache == map[] && Valid()
    {
      this.repository := repository;
      this.versionOf := versionOf;
      this.parse := parse;
      cache := map[];
    }

    /** `execute_request` */
    method ExecuteRequest(endpoint: Endpoint.Endpoint, action: SoapAction.SoapAction, body: string, useCache: bool,
                          customHeaders: Dict<string>, id: string, now: int)
      returns (r: Result<SoapResponse.SoapResponse>)
      requires Valid()
      modifies this`cache, repository`sent
      ensures Valid()
      ensures var s := Execute(Environment(), old(cache), |old(repository.sent)|,
                               Call(endpoint, action, body, useCache, customHeaders, id, now));
              r == s.result && cache == s.cache && repository.sent == old(repository.sent) + SentSeq(s.sent)
    {
      var call := Call(endpoint, action, body, useCache, customHeaders, id, now);
      ExecuteKeepsCacheValid(Environment(), cache, |repository.sent|, call);
      var key := CacheKey(endpoint.url, action.value, body);
      if !Endpoint.SupportsOperation(endpoint, action.value) {
        return Fail(Unsupported(endpoint, action));
      }
      if useCache && key in cache {
        var cached := cache[key];
        if IsCacheValid(cached, now) {
          return Ok(cached);
        }
      }
      var prepared := PrepareRequest(call);
      if prepared.Fail? {
        return Fail(prepared.error);
      }
      var request := prepared.value;
      r := repository.Send(request);
      if useCache && r.Ok? && SoapResponse.IsSuccessful(r.value) {
        cache := cache[key := r.value];
      }
    }

    /** The cache-miss part of `execute_request`: the envelope, the request and its custom headers. */
    method PrepareRequest(call: Call) returns (r: Result<SoapRequest.SoapRequest>)
      ensures r.Fail? ==> Prepare(versionOf(call.endpoint), parse, call) == Fail(r.error)
      ensures r.Ok? ==> fresh(r.value) && Prepare(versionOf(call.endpoint), parse, call) == Ok(Snapshot(r.value))
    {
      var version := versionOf(call.endpoint);
      if version.Fail? {
        return Fail(version.error);
      }
      var envelope := SoapEnvelope.FromBody(call.body, EnvelopeVersion(version.value), None, parse);
      if envelope.Fail? {
        return Fail(envelope.error);
      }
      var wire := SoapEnvelope.Build(envelope.value);
      var created := SoapRequest.Create(call.id, Some(call.endpoint.url), Some(call.action.value), Some(wire), [],
                                        call.action.namespace, version.value, call.endpoint.defaultTimeout, call.now);
      if created.Fail? {
        return Fail(created.error);
      }
      var request := created.value;
      var added := AddCustomHeaders(request, call.customHeaders);
      if added.Raised? {
        return Fail(added.error);
      }
      return Ok(request);
    }

    /** One uncached call without custom headers, the k-th of a retry loop or a batch. */
    method Attempt(ghost run: Runner, endpoint: Endpoint.Endpoint, action: SoapAction.SoapAction, body: string,
                   ids: nat -> string, clock: nat -> int, k: nat)
      returns (r: Result<SoapResponse.SoapResponse>)
      requires Valid() && Serves(run, Environment(), cache, endpoint, ids, clock)
      modifies this`cache, repository`sent
      ensures Valid() && cache == old(cache)
      ensures r == run(|old(repository.sent)|, k, action, body).result
      ensures repository.sent == old(repository.sent) + SentSeq(run(|old(repository.sent)|, k, action, body).sent)
    {
      r := ExecuteRequest(endpoint, action, body, false, [], ids(k), clock(k));
    }

    /** `execute_request_with_retry`; the pauses are returned instead of slept. */
    method ExecuteRequestWithRetry(endpoint: Endpoint.Endpoint, action: SoapAction.SoapAction, body: string,
                                   maxRetries: int, retryDelay: int, ids: nat -> string, clock: nat -> int)
      returns (r: Result<SoapResponse.SoapResponse>, delays: seq<int>)
      requires Valid()
      modifies this`cache, repository`sent
      ensures Valid() && cache == old(cache)
      ensures var full := RetryFrom(RunnerOf(Environment(), old(cache), endpoint, ids, clock), |old(repository.sent)|,
                                    action, body, maxRetries, retryDelay, 0, None);
              r == full.result && delays == full.delays && repository.sent == old(repository.sent) + full.sent
    {
      RunnerServes(Environment(), cache, endpoint, ids, clock);
      r, delays := RetryLoop(RunnerOf(Environment(), cache, endpoint, ids, clock), endpoint, action, body,
                             maxRetries, retryDelay, ids, clock);
    }

    /** The loop of `execute_request_with_retry`, over the calls `run` makes. */
    method RetryLoop(ghost run: Runner, endpoint: Endpoint.Endpoint, action: SoapAction.SoapAction, body: string,
                     maxRetries: int, retryDelay: int, ids: nat -> string, clock: nat -> int)
      returns (r: Result<SoapResponse.SoapResponse>, delays: seq<int>)
      requires Valid() && Serves(run, Environment(), cache, endpoint, ids, clock)
      modifies this`cache, repository`sent
      ensures Valid() && cache == old(cache)
      ensures var full := RetryFrom(run, |old(repository.sent)|, action, body, maxRetries, retryDelay, 0, None);
              r == full.result && delays == full.delays && repository.sent == old(repository.sent) + full.sent
    {
      ghost var full := RetryFrom(run, |repository.sent|, action, body, maxRetries, retryDelay, 0, None);
      ghost var rest := full;
      ghost var done: seq<Sent> := [];
      var lastError: Option<Exception> := None;
      var attempt: nat := 0;
      delays := [];
      while attempt <= maxRetries
        invariant Valid() && cache == old(cache)
        invariant repository.sent == old(repository.sent) + done
        invariant rest == RetryFrom(run, |repository.sent|, action, body, maxRetries, retryDelay, attempt, lastError)
        invariant full == AfterRetries(delays, done, rest)
        decreases maxRetries + 1 - attempt
      {
        ghost var n := |repository.sent|;
        ghost var before := done;
        RetryStep(run, n, action, body, maxRetries, retryDelay, attempt, lastError);
        var s := Attempt(run, endpoint, action, body, ids, clock, attempt);
        SentAppend(old(repository.sent), done, SentSeq(run(n, attempt, action, body).sent));
        done := done + SentSeq(run(n, attempt, action, body).sent);
        if s.Ok? || !s.error.IsRepositoryError() {
          RetryStops(run, n, action, body, maxRetries, retryDelay, attempt, run(n, attempt, action, body));
          AfterRetriesEnd(delays, before, s, SentSeq(run(n, attempt, action, body).sent));
          return s, delays;
        }
        RetryGoesOn(run, n, action, body, maxRetries, retryDelay, attempt, run(n, attempt, action, body));
        var pause := Pause(retryDelay, attempt, maxRetries);
        ghost var next := RetryFrom(run, n + |SentSeq(run(n, attempt, action, body).sent)|, action, body, maxRetries,
                                    retryDelay, attempt + 1, Some(run(n, attempt, action, body).result.error));
        AfterRetriesShift(delays, before, pause, SentSeq(run(n, attempt, action, body).sent), next);
        lastError := Some(s.error);
        delays := delays + pause;
        attempt := attempt + 1;
        rest := next;
      }
      AfterRetriesEnd(delays, done, rest.result, []);
      r := Fail(RepositoryError(ExhaustedMessage(maxRetries, lastError)));
    }

    /** `batch_execute`; the request at position i uses `ids(i)` and `clock(i)`. */
    method BatchExecute(endpoint: Endpoint.Endpoint, requests: seq<Dict<string>>, ids: nat -> string,
                        clock: nat -> int)
      returns (r: Result<seq<SoapResponse.SoapResponse>>)
      requires Valid()
      modifies this`cache, repository`sent
      ensures Valid() && cache == old(cache)
      ensures var full := BatchFrom(RunnerOf(Environment(), old(cache), endpoint, ids, clock), |old(repository.sent)|,
                                    Items(requests), clock, 0);
              r == full.result && repository.sent == old(repository.sent) + full.sent
    {
      RunnerServes(Environment(), cache, endpoint, ids, clock);
      r := BatchLoop(RunnerOf(Environment(), cache, endpoint, ids, clock), endpoint, Items(requests), ids, clock);
    }

    /**
     * The loop of `batch_execute`, over the calls `run` makes and the requests' actions and bodies.
     * Reading those has no effect and the loop stops at the first that is missing, so reading them
     * all up front gives the same outcome as reading each in turn.
     */
    method BatchLoop(ghost run: Runner, endpoint: Endpoint.Endpoint, items: seq<Result<(SoapAction.SoapAction, string)>>, ids: nat -> string,
                     clock: nat -> int)
      returns (r: Result<seq<SoapResponse.SoapResponse>>)
      requires Valid() && Serves(run, Environment(), cache, endpoint, ids, clock)
      modifies this`cache, repository`sent
      ensures Valid() && cache == old(cache)
      ensures var full := BatchFrom(run, |old(repository.sent)|, items, clock, 0);
              r == full.result && repository.sent == old(repository.sent) + full.sent
    {
      ghost var full := BatchFrom(run, |repository.sent|, items, clock, 0);
      ghost var rest := full;
      ghost var done: seq<Sent> := [];
      var responses: seq<SoapResponse.SoapResponse> := [];
      AfterBatchStart(full);
      var i := 0;
      while i < |items|
        invariant i <= |items|
        invariant Valid() && cache == old(cache)
        invariant repository.sent == old(repository.sent) + done
        invariant rest == BatchFrom(run, |repository.sent|, items, clock, i)
        invariant full == AfterBatch(responses, done, rest)
      {
        var item := items[i];
        if item.Fail? {
          AfterBatchEnd(responses, done, Fail(item.error));
          return Fail(item.error);
        }
        ghost var n := |repository.sent|;
        ghost var before := done;
        BatchStep(run, n, items, clock, i);
        var s := Attempt(run, endpoint, item.value.0, item.value.1, ids, clock, i);
        SentAppend(old(repository.sent), done, SentSeq(run(n, i, item.value.0, item.value.1).sent));
        done := done + SentSeq(run(n, i, item.value.0, item.value.1).sent);
        var response := if s.Ok? then s.value else ErrorResponse(s.error, clock(i));
        ghost var next := BatchFrom(run, n + |SentSeq(run(n, i, item.value.0, item.value.1).sent)|, items, clock, i + 1);
        AfterBatchShift(responses, before, response, SentSeq(run(n, i, item.value.0, item.value.1).sent), next);
        responses := responses + [response];
        i := i + 1;
        rest := next;
      }
      AfterBatchEnd(responses, done, Ok([]));
      r := Ok(responses);
    }

    /** `clear_cache` */
    method ClearCache()
      modifies this`cache
      ensures cache == map[] && Valid()
    {
      cache := map[];
    }
  }

  /** The custom-header loop of `execute_request`; the first rejected header ends it. */
  method AddCustomHeaders(request: SoapRequest.SoapRequest, custom: Dict<string>) returns (r: Outcome)
    modifies request`headers
    ensures r.Done? <==> AddHeaders(old(request.headers), custom).Ok?
    ensures r.Raised? ==> AddHeaders(old(request.headers), custom) == Fail(r.error)
    ensures r.Done? ==> request.headers == AddHeaders(old(request.headers), custom).value
  {
    var i := 0;
    while i < |custom|
      invariant i <= |custom|
      invariant AddHeaders(request.headers, custom[i..]) == AddHeaders(old(request.headers), custom)
    {
      assert custom[i..][0] == custom[i] && custom[i..][1..] == custom[i + 1..];
      var added := request.AddHeader(custom[i].0, custom[i].1);
      if added.Raised? {
        return added;
      }
      i := i + 1;
    }
    assert custom[i..] == [];
    r := Done;
  }
}
