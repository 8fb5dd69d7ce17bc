/**
 * The HTTP client adapter of the repository: its responses, the `requests` exceptions it
 * translates, authentication and certificate selection, header preparation and the session it
 * creates on first use. The network is a parameter: each call is handed the reply it gets.
 */
module HttpClient {
  import opened Wrappers
  import opened Strings
  import opened Dicts
  import opened Values

  /** `HttpResponse`; `elapsedMs` is the duration as measured, in whole milliseconds. */
  datatype HttpResponse = HttpResponse(statusCode: int, body: string, headers: Dict<string>, elapsedMs: int)

  /** `is_successful` */
  predicate IsSuccessful(r: HttpResponse) {
    200 <= r.statusCode < 300
  }

  // ---------------------------------------------------------------------------
  // The exceptions of `requests` and the `except` clauses that translate them

  /** A `requests` exception, by its most derived class. */
  datatype RequestsError =
      /** ConnectTimeout derives from both ConnectionError and Timeout */
    | ConnectTimeout(msg: string)
    | ReadTimeout(msg: string)
    | Timeout(msg: string)
      /** SSLError and ProxyError derive from ConnectionError */
    | SSLError(msg: string)
    | ProxyError(msg: string)
    | ConnectionError(msg: string)
      /** any other RequestException (HTTPError, TooManyRedirects, InvalidURL, ...) */
    | OtherRequestError(msg: string)

  /** A class named in an `except` clause. */
  datatype ExceptClass = TimeoutClass | SSLErrorClass | ConnectionErrorClass | RequestExceptionClass

  /** `isinstance(e, c)` under the class hierarchy of `requests.exceptions`. */
  predicate IsInstance(e: RequestsError, c: ExceptClass) {
    match c
    case TimeoutClass => e.ConnectTimeout? || e.ReadTimeout? || e.Timeout?
    case SSLErrorClass => e.SSLError?
    case ConnectionErrorClass => e.ConnectTimeout? || e.SSLError? || e.ProxyError? || e.ConnectionError?
    case RequestExceptionClass => true
  }

  /** The `except` clause that handles `e`: the first one whose class `e` is an instance of. */
  function HandlerIndex(clauses: seq<ExceptClass>, e: RequestsError): (i: nat)
    requires RequestExceptionClass in clauses
    ensures i < |clauses| && IsInstance(e, clauses[i])
    ensures forall j :: 0 <= j < i ==> !IsInstance(e, clauses[j])
  {
    if IsInstance(e, clauses[0]) then 0 else 1 + HandlerIndex(clauses[1..], e)
  }

  /** The HttpClientError a clause raises, given the effective timeout. */
  function Translate(c: ExceptClass, timeoutValue: int, e: RequestsError): Exception {
    match c
    case TimeoutClass => HttpClientError("Request timeout nach " + IntToString(timeoutValue) + "s: " + e.msg)
    case SSLErrorClass => HttpClientError("SSL-Fehler: " + e.msg)
    case ConnectionErrorClass => HttpClientError("Verbindungsfehler: " + e.msg)
    case RequestExceptionClass => HttpClientError("HTTP-Fehler: " + e.msg)
  }

  /** The clauses of `post`, most specific first. */
  const PostClauses: seq<ExceptClass> := [TimeoutClass, SSLErrorClass, ConnectionErrorClass, RequestExceptionClass]

  /** The single clause of `get`. */
  const GetClauses: seq<ExceptClass> := [RequestExceptionClass]

  /** What the `except` clauses make of `e`. */
  function Handled(clauses: seq<ExceptClass>, timeoutValue: int, e: RequestsError): Exception
    requires RequestExceptionClass in clauses
  {
    Translate(clauses[HandlerIndex(clauses, e)], timeoutValue, e)
  }

  /**
   * `post` reports every exception under its most specific class: timeouts (a connect timeout
   * included) as timeouts, SSL errors as SSL errors, the other connection errors as connection
   * errors, and the rest as HTTP errors.
   */
  lemma PostErrorMessages(timeoutValue: int, e: RequestsError)
    ensures Handled(PostClauses, timeoutValue, e) == HttpClientError(
              if e.ConnectTimeout? || e.ReadTimeout? || e.Timeout? then
                "Request timeout nach " + IntToString(timeoutValue) + "s: " + e.msg
              else if e.SSLError? then "SSL-Fehler: " + e.msg
              else if e.ProxyError? || e.ConnectionError? then "Verbindungsfehler: " + e.msg
              else "HTTP-Fehler: " + e.msg)
  {
    if e.SSLError? {
      assert !IsInstance(e, PostClauses[0]) && IsInstance(e, PostClauses[1]);
    } else if e.ProxyError? || e.ConnectionError? {
      assert !IsInstance(e, PostClauses[0]) && !IsInstance(e, PostClauses[1]) && IsInstance(e, PostClauses[2]);
    } else if !(e.ConnectTimeout? || e.ReadTimeout? || e.Timeout?) {
      assert !IsInstance(e, PostClauses[0]) && !IsInstance(e, PostClauses[1]) && !IsInstance(e, PostClauses[2]);
    }
  }

  /** `get` reports every exception as an HTTP error. */
  lemma GetErrorMessage(timeoutValue: int, e: RequestsError)
    ensures Handled(GetClauses, timeoutValue, e) == HttpClientError("HTTP-Fehler: " + e.msg)
  {
    assert HandlerIndex(GetClauses, e) == 0;
  }

  // ---------------------------------------------------------------------------
  // Timeout, authentication and client certificate

  /** `timeout or self.timeout` */
  function EffectiveTimeout(timeout: Option<int>, default: int): (t: int)
    ensures timeout.Some? && timeout.value != 0 ==> t == timeout.value
    ensures timeout.None? || timeout.value == 0 ==> t == default
  {
    if timeout.Some? && timeout.value != 0 then timeout.value else default
  }

  /** The authentication objects of `requests` and `requests_ntlm`, with the credentials they hold. */
  datatype Auth = BasicAuth(username: Value, password: Value)
                | DigestAuth(username: Value, password: Value)
                | NtlmAuth(username: Value, password: Value)

  /** `not auth_config` */
  predicate NoConfig(config: Option<Dict<Value>>) {
    config.None? || |config.value| == 0
  }

  /** `config.get('type') == name` */
  predicate TypeIs(config: Dict<Value>, name: string) {
    Get(config, "type") == Some(VStr(name))
  }

  /** `config['username']` and `config['password']`, read in that order. */
  function Credentials(config: Dict<Value>): (r: Result<(Value, Value)>)
    ensures r.Ok? <==> HasKey(config, "username") && HasKey(config, "password")
    ensures r.Fail? ==> r.error == KeyError(if HasKey(config, "username") then "password" else "username")
    ensures r.Ok? ==> Some(r.value.0) == Get(config, "username") && Some(r.value.1) == Get(config, "password")
  {
    match Get(config, "username")
    case None => Fail(KeyError("username"))
    case Some(u) =>
      match Get(config, "password")
      case None => Fail(KeyError("password"))
      case Some(p) => Ok((u, p))
  }

  /** `_configure_auth`: an auth object for the three credential types; a missing credential raises KeyError. */
  function ConfigureAuth(config: Option<Dict<Value>>): (r: Result<Option<Auth>>)
    ensures NoConfig(config) ==> r == Ok(None)
    ensures !NoConfig(config) && !(TypeIs(config.value, "basic") || TypeIs(config.value, "digest") || TypeIs(config.value, "ntlm"))
            ==> r == Ok(None)
    ensures r.Fail? ==> r.error.KeyError? && Credentials(config.value).Fail?
    ensures r.Ok? && r.value.Some? ==>
              && !NoConfig(config)
              && Credentials(config.value) == Ok((r.value.value.username, r.value.value.password))
              && (r.value.value.BasicAuth? <==> TypeIs(config.value, "basic"))
              && (r.value.value.DigestAuth? <==> TypeIs(config.value, "digest"))
              && (r.value.value.NtlmAuth? <==> TypeIs(config.value, "ntlm"))
  {
    if NoConfig(config) then Ok(None)
    else
      var c := config.value;
      if TypeIs(c, "basic") then
        match Credentials(c)
        case Fail(e) => Fail(e)
        case Ok(up) => Ok(Some(BasicAuth(up.0, up.1)))
      else if TypeIs(c, "digest") then
        match Credentials(c)
        case Fail(e) => Fail(e)
        case Ok(up) => Ok(Some(DigestAuth(up.0, up.1)))
      else if TypeIs(c, "ntlm") then
        match Credentials(c)
        case Fail(e) => Fail(e)
        case Ok(up) => Ok(Some(NtlmAuth(up.0, up.1)))
      else Ok(None)
  }

  /** The `cert` argument of `requests`: a certificate path, or the pair of certificate and key paths. */
  datatype Cert = CertFile(cert: Value) | CertAndKey(cert: Value, key: Value)

  /** `_configure_cert`: only for the certificate type with a truthy `cert_path`; the key joins it when truthy. */
  function ConfigureCert(config: Option<Dict<Value>>): (r: Option<Cert>)
    ensures r.Some? <==> && !NoConfig(config) && TypeIs(config.value, "certificate")
                         && Truthy(GetOr(config.value, "cert_path", VNone))
    ensures r.Some? ==> r.value.cert == GetOr(config.value, "cert_path", VNone)
    ensures r.Some? ==> (r.value.CertAndKey? <==> Truthy(GetOr(config.value, "key_path", VNone)))
    ensures r.Some? && r.value.CertAndKey? ==> r.value.key == GetOr(config.value, "key_path", VNone)
  {
    if NoConfig(config) then None
    else
      var c := config.value;
      if TypeIs(c, "certificate") then
        var certPath := GetOr(c, "cert_path", VNone);
        var keyPath := GetOr(c, "key_path", VNone);
        if Truthy(certPath) then
          if Truthy(keyPath) then Some(CertAndKey(certPath, keyPath)) else Some(CertFile(certPath))
        else None
      else None
  }

  /** Certificate and credentials exclude each other: one configuration never yields both. */
  lemma AuthOrCert(config: Option<Dict<Value>>)
    ensures !(ConfigureAuth(config).Ok? && ConfigureAuth(config).value.Some? && ConfigureCert(config).Some?)
  {
  }

  // ---------------------------------------------------------------------------
  // Headers

  const UserAgent: string := "Ansible-SOAP-Module/1.0"
  const GetUserAgent: string := "Ansible-SOAP-Module/1.0 (Python-requests)"
  const Charset: string := "; charset=utf-8"

  /** `any(k.lower() == 'user-agent' for k in headers)` */
  predicate NamesUserAgent(h: Dict<string>) {
    exists i :: 0 <= i < |h| && Lower(h[i].0) == "user-agent"
  }

  /** `headers.copy() if headers else {}` */
  function CopyOrEmpty(headers: Option<Dict<string>>): Dict<string> {
    if headers.Some? then headers.value else []
  }

  /** The User-Agent step of `post`: added unless some key names it in any case. */
  function WithUserAgent(h: Dict<string>): Dict<string> {
    if NamesUserAgent(h) then h else Set(h, "User-Agent", UserAgent)
  }

  /** The Content-Type step of `post`: an exact 'Content-Type' key without "charset" (in any case) gets one. */
  function WithCharset(h: Dict<string>): Dict<string> {
    match Get(h, "Content-Type")
    case None => h
    case Some(ct) => if Contains(Lower(ct), "charset") then h else Set(h, "Content-Type", ct + Charset)
  }

  /** The headers `post` sends. */
  function PostHeaders(headers: Option<Dict<string>>): Dict<string> {
    WithCharset(WithUserAgent(CopyOrEmpty(headers)))
  }

  /** The headers `get` sends: the User-Agent is added unless the exact key 'User-Agent' is present. */
  function GetHeaders(headers: Option<Dict<string>>): Dict<string> {
    var h := CopyOrEmpty(headers);
    if HasKey(h, "User-Agent") then h else Set(h, "User-Agent", GetUserAgent)
  }

  lemma UserAgentKey()
    ensures Lower("User-Agent") == "user-agent"
  {
    LowerCharwise("User-Agent", "user-agent");
  }

  lemma NamesUserAgentKeys(a: Dict<string>, b: Dict<string>)
    requires NamesUserAgent(a)
    requires forall k :: k in Keys(a) ==> k in Keys(b)
    ensures NamesUserAgent(b)
  {
    var i :| 0 <= i < |a| && Lower(a[i].0) == "user-agent";
    assert a[i].0 in Keys(a);
    var j :| 0 <= j < |b| && Keys(b)[j] == a[i].0;
  }

  /** Adding the User-Agent keeps every key. */
  lemma UserAgentKeepsKeys(h: Dict<string>)
    ensures forall k :: k in Keys(h) ==> k in Keys(WithUserAgent(h))
  {
    KeysSet(h, "User-Agent", UserAgent);
  }

  /** The Content-Type step keeps the keys and their order. */
  lemma CharsetKeepsKeys(h: Dict<string>)
    ensures Keys(WithCharset(h)) == Keys(h)
  {
    var ct := Get(h, "Content-Type");
    if ct.Some? {
      KeysSet(h, "Content-Type", ct.value + Charset);
    }
  }

  /** A key naming the User-Agent, once set, is there. */
  lemma NamesAfterSet(h: Dict<string>, k: string, v: string)
    requires Lower(k) == "user-agent"
    ensures NamesUserAgent(Set(h, k, v))
  {
    HasKeySet(h, k, v, k);
    var r := Set(h, k, v);
    var j :| 0 <= j < |r| && Keys(r)[j] == k;
  }

  /** After `post`'s steps some key names the User-Agent. */
  lemma PostHeadersNameUserAgent(headers: Option<Dict<string>>)
    ensures NamesUserAgent(PostHeaders(headers))
  {
    var h := CopyOrEmpty(headers);
    if !NamesUserAgent(h) {
      UserAgentKey();
      NamesAfterSet(h, "User-Agent", UserAgent);
    }
    CharsetKeepsKeys(WithUserAgent(h));
    NamesUserAgentKeys(WithUserAgent(h), PostHeaders(headers));
  }

  /** After the Content-Type step, a 'Content-Type' carries a charset. */
  lemma CharsetPresent(h: Dict<string>)
    ensures Get(WithCharset(h), "Content-Type").Some? <==> Get(h, "Content-Type").Some?
    ensures Get(WithCharset(h), "Content-Type").Some? ==> Contains(Lower(Get(WithCharset(h), "Content-Type").value), "charset")
  {
    match Get(h, "Content-Type")
    case None =>
    case Some(ct) =>
      if !Contains(Lower(ct), "charset") {
        GetSetSame(h, "Content-Type", ct + Charset);
        CharsetNamed(ct);
      }
  }

  /** The appended parameter names the charset. */
  lemma CharsetNamed(ct: string)
    ensures Contains(Lower(ct + Charset), "charset")
  {
    LowerConcat(ct, Charset);
    CharsetLower();
    CharsetAfter(Lower(ct));
  }

  lemma CharsetLower()
    ensures Lower(Charset) == Charset
  {
    LowerCharwise(Charset, Charset);
  }

  lemma CharsetAfter(x: string)
    ensures Contains(x + Charset, "charset")
  {
    assert (x + Charset)[|x| + 2..|x| + 9] == Charset[2..9] == "charset";
    ContainsAt(x + Charset, "charset", |x| + 2);
  }

  /**
   * What `post` sends: a User-Agent unless the caller named one in any case, a charset on an exact
   * 'Content-Type' key, and every caller key kept.
   */
  lemma PostHeadersProperties(headers: Option<Dict<string>>)
    ensures NamesUserAgent(PostHeaders(headers))
    ensures forall k :: k in Keys(CopyOrEmpty(headers)) ==> k in Keys(PostHeaders(headers))
    ensures !NamesUserAgent(CopyOrEmpty(headers)) ==> Get(PostHeaders(headers), "User-Agent") == Some(UserAgent)
    ensures Get(PostHeaders(headers), "Content-Type").Some? <==> Get(CopyOrEmpty(headers), "Content-Type").Some?
    ensures Get(PostHeaders(headers), "Content-Type").Some? ==>
              Contains(Lower(Get(PostHeaders(headers), "Content-Type").value), "charset")
    ensures forall k :: k != "Content-Type" && NamesUserAgent(CopyOrEmpty(headers)) ==>
              Get(PostHeaders(headers), k) == Get(CopyOrEmpty(headers), k)
  {
    var h := CopyOrEmpty(headers);
    var u := WithUserAgent(h);
    PostHeadersNameUserAgent(headers);
    UserAgentKeepsKeys(h);
    CharsetKeepsKeys(u);
    CharsetPresent(u);
    if !NamesUserAgent(h) {
      GetSetSame(h, "User-Agent", UserAgent);
      GetSetOther(u, "Content-Type", "", "User-Agent");
      match Get(u, "Content-Type")
      case None =>
      case Some(ct) =>
        GetSetOther(u, "Content-Type", ct + Charset, "User-Agent");
      assert Get(h, "Content-Type") == Get(u, "Content-Type") by {
        GetSetOther(h, "User-Agent", UserAgent, "Content-Type");
      }
    }
    forall k | k != "Content-Type" && NamesUserAgent(h)
      ensures Get(PostHeaders(headers), k) == Get(h, k)
    {
      match Get(h, "Content-Type")
      case None =>
      case Some(ct) =>
        GetSetOther(h, "Content-Type", ct + Charset, k);
    }
  }

  /** Preparing `post`'s headers twice changes nothing more. */
  lemma PostHeadersIdempotent(headers: Option<Dict<string>>)
    ensures PostHeaders(Some(PostHeaders(headers))) == PostHeaders(headers)
  {
    var r := PostHeaders(headers);
    PostHeadersProperties(headers);
    assert WithUserAgent(r) == r;
    CharsetPresent(WithUserAgent(CopyOrEmpty(headers)));
  }

  // ---------------------------------------------------------------------------
  // Sessions and the client

  /** The urllib3 `Retry` strategy mounted on a session. */
  datatype RetryPolicy = RetryPolicy(total: int, backoffFactor: int, statusForcelist: seq<int>, allowedMethods: seq<string>)

  /** A `requests.Session`: its serial number among the sessions created, and its adapters by URL prefix. */
  datatype Session = Session(serial: nat, adapters: Dict<RetryPolicy>)

  /** A new session; with `max_retries > 0` both schemes get the retry strategy. */
  function NewSession(serial: nat, maxRetries: int): (s: Session)
    ensures s.serial == serial
    ensures maxRetries <= 0 ==> s.adapters == []
    ensures maxRetries > 0 ==> Keys(s.adapters) == ["http://", "https://"]
    ensures forall i :: 0 <= i < |s.adapters| ==>
              s.adapters[i].1 == RetryPolicy(maxRetries, 1, [429, 500, 502, 503, 504], ["POST"])
  {
    if maxRetries > 0 then
      var policy := RetryPolicy(maxRetries, 1, [429, 500, 502, 503, 504], ["POST"]);
      Session(serial, [("http://", policy), ("https://", policy)])
    else Session(serial, [])
  }

  /** A request handed to the network. */
  datatype Outgoing = Outgoing(verb: string, url: string, body: Option<string>, headers: Dict<string>,
                               auth: Option<Auth>, cert: Option<Cert>, timeout: int, verify: bool,
                               proxies: Option<Dict<string>>, session: nat)

  /** What the network does with a request: an answer, or a `requests` exception. */
  datatype Reply = Answer(statusCode: int, text: string, headers: Dict<string>, elapsedMs: int)
                 | Refused(error: RequestsError)

  /** The response `post` or `get` builds from an answer. */
  function FromAnswer(reply: Reply): HttpResponse
    requires reply.Answer?
  {
    HttpResponse(reply.statusCode, reply.text, reply.headers, reply.elapsedMs)
  }

  /** What a `post` or `get` returns for a reply: the response, or the translated exception. */
  function ReplyResult(reply: Reply, clauses: seq<ExceptClass>, timeoutValue: int): Result<HttpResponse>
    requires RequestExceptionClass in clauses
  {
    match reply
    case Answer(_, _, _, _) => Ok(FromAnswer(reply))
    case Refused(e) => Fail(Handled(clauses, timeoutValue, e))
  }

  class Client {
    const verifySsl: bool
    const timeout: int
    const maxRetries: int
    /** `_session` */
    var session: Option<Session>
    /** how many sessions this client has created */
    var created: nat
    /** the requests handed to the network, in order */
    var sent: seq<Outgoing>

    /** The open session, if any, is the last one created. */
    predicate Valid()
      reads this
    {
      session.Some? ==> created > 0 && session.value.serial == created - 1
    }

    constructor (verifySsl: bool, timeout: int, maxRetries: int)
      ensures Valid()
      ensures this.verifySsl == verifySsl && this.timeout == timeout && this.maxRetries == maxRetries
      ensures session.None? && created == 0 && sent == []
    {
      this.verifySsl := verifySsl;
      this.timeout := timeout;
      this.maxRetries := maxRetries;
      session := None;
      created := 0;
      sent := [];
    }

    /** `_get_session`: the open session, or a new one when there is none. */
    method GetSession() returns (s: Session)
      requires Valid()
      modifies this`session, this`created
      ensures Valid() && session == Some(s)
      ensures old(session).Some? ==> s == old(session).value && created == old(created)
      ensures old(session).None? ==> s == NewSession(old(created), maxRetries) && created == old(created) + 1
    {
      if session.None? {
        session := Some(NewSession(created, maxRetries));
        created := created + 1;
      }
      s := session.value;
    }

    /** `post`: a new or the open session, auth and certificate, the prepared headers, then the network. */
    method Post(url: string, body: string, headers: Option<Dict<string>>, authConfig: Option<Dict<Value>>,
                timeout: Option<int>, proxies: Option<Dict<string>>, reply: Reply) returns (r: Result<HttpResponse>)
      requires Valid()
      modifies this`session, this`created, this`sent
      ensures Valid() && session.Some?
      ensures old(session).Some? ==> session == old(session) && created == old(created)
      ensures old(session).None? ==> created == old(created) + 1
      ensures ConfigureAuth(authConfig).Fail? ==> r == Fail(ConfigureAuth(authConfig).error) && sent == old(sent)
      ensures ConfigureAuth(authConfig).Ok? ==>
                && sent == old(sent) + [Outgoing("POST", url, Some(body), PostHeaders(headers), ConfigureAuth(authConfig).value,
                                                 ConfigureCert(authConfig), EffectiveTimeout(timeout, this.timeout),
                                                 verifySsl, proxies, session.value.serial)]
                && r == ReplyResult(reply, PostClauses, EffectiveTimeout(timeout, this.timeout))
    {
      var s := GetSession();
      var timeoutValue := EffectiveTimeout(timeout, this.timeout);
      var auth := ConfigureAuth(authConfig);
      if auth.Fail? {
        return Fail(auth.error);
      }
      var cert := ConfigureCert(authConfig);
      var requestHeaders := CopyOrEmpty(headers);
      if !NamesUserAgent(requestHeaders) {
        requestHeaders := Set(requestHeaders, "User-Agent", UserAgent);
      }
      var contentType := Dicts.Get(requestHeaders, "Content-Type");
      if contentType.Some? && !Contains(Lower(contentType.value), "charset") {
        requestHeaders := Set(requestHeaders, "Content-Type", contentType.value + Charset);
      }
      sent := sent + [Outgoing("POST", url, Some(body), requestHeaders, auth.value, cert, timeoutValue, verifySsl, proxies, s.serial)];
      match reply
      case Answer(code, text, hs, elapsed) =>
        r := Ok(HttpResponse(code, text, hs, elapsed));
      case Refused(e) =>
        r := Fail(Handled(PostClauses, timeoutValue, e));
    }

    /** `get`: like `post` without a body, with its own User-Agent rule and a single `except` clause. */
    method Get(url: string, headers: Option<Dict<string>>, authConfig: Option<Dict<Value>>, timeout: Option<int>,
               proxies: Option<Dict<string>>, reply: Reply) returns (r: Result<HttpResponse>)
      requires Valid()
      modifies this`session, this`created, this`sent
      ensures Valid() && session.Some?
      ensures old(session).Some? ==> session == old(session) && created == old(created)
      ensures old(session).None? ==> created == old(created) + 1
      ensures ConfigureAuth(authConfig).Fail? ==> r == Fail(ConfigureAuth(authConfig).error) && sent == old(sent)
      ensures ConfigureAuth(authConfig).Ok? ==>
                && sent == old(sent) + [Outgoing("GET", url, None, GetHeaders(headers), ConfigureAuth(authConfig).value,
                                                 ConfigureCert(authConfig), EffectiveTimeout(timeout, this.timeout),
                                                 verifySsl, proxies, session.value.serial)]
                && r == ReplyResult(reply, GetClauses, EffectiveTimeout(timeout, this.timeout))
    {
      var s := GetSession();
      var timeoutValue := EffectiveTimeout(timeout, this.timeout);
      var auth := ConfigureAuth(authConfig);
      if auth.Fail? {
        return Fail(auth.error);
      }
      var cert := ConfigureCert(authConfig);
      var requestHeaders := CopyOrEmpty(headers);
      if !HasKey(requestHeaders, "User-Agent") {
        requestHeaders := Set(requestHeaders, "User-Agent", GetUserAgent);
      }
      sent := sent + [Outgoing("GET", url, None, requestHeaders, auth.value, cert, timeoutValue, verifySsl, proxies, s.serial)];
      match reply
      case Answer(code, text, hs, elapsed) =>
        r := Ok(HttpResponse(code, text, hs, elapsed));
      case Refused(e) =>
        r := Fail(Handled(GetClauses, timeoutValue, e));
    }

    /** `test_connectivity`: reachable iff a GET is answered with a code below 500. */
    method TestConnectivity(url: string, timeout: int, reply: Reply) returns (reachable: bool)
      requires Valid()
      modifies this`session, this`created, this`sent
      ensures Valid()
      ensures reachable <==> reply.Answer? && reply.statusCode < 500
      ensures |sent| == |old(sent)| + 1 && sent[|sent| - 1].verb == "GET" && sent[|sent| - 1].url == url
    {
      var r := Get(url, None, None, Some(timeout), None, reply);
      if r.Fail? {
        assert r.error.HttpClientError?;
        return false;
      }
      reachable := r.value.statusCode < 500;
    }

    /** `close`: the session is dropped; the next request opens a new one. */
    method Close()
      requires Valid()
      modifies this`session
      ensures Valid() && session.None?
    {
      session := None;
    }
  }
}
