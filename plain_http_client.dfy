/**
 * The HTTP client adapter of the core package. It shares the responses, the `requests` exception
 * classes, the auth and certificate selection and the session rules of the repository's adapter,
 * but forwards the caller's headers unchanged, its `get` takes neither credentials nor proxies, and
 * its `post` lists its `except` clauses in another order.
 */
module PlainHttpClient {
  import opened Wrappers
  import opened Dicts
  import opened Values
  import H = HttpClient

  /** The `except` clauses of `post` as written: ConnectionError is caught before SSLError. */
  const PostClausesAsWritten: seq<H.ExceptClass> :=
    [H.TimeoutClass, H.ConnectionErrorClass, H.SSLErrorClass, H.RequestExceptionClass]

  /**
   * As written the SSLError clause is dead: SSLError derives from ConnectionError, so every SSL
   * failure is reported as a connection failure.
   */
  lemma AsWrittenSslNeverReported(timeoutValue: int, e: H.RequestsError)
    ensures H.HandlerIndex(PostClausesAsWritten, e) != 2
    ensures e.SSLError? ==> H.Handled(PostClausesAsWritten, timeoutValue, e) == HttpClientError("Verbindungsfehler: " + e.msg)
  {
    assert H.IsInstance(e, PostClausesAsWritten[2]) ==> H.IsInstance(e, PostClausesAsWritten[1]);
    if e.SSLError? {
      assert !H.IsInstance(e, PostClausesAsWritten[0]) && H.IsInstance(e, PostClausesAsWritten[1]);
    }
  }

  /**
   * The order the separate SSL clause evidently intends, most specific class first (the order of
   * the repository's adapter): SSL failures are reported as such, and every other exception exactly
   * as the written order reports it.
   */
  lemma CorrectedOrder(timeoutValue: int, e: H.RequestsError)
    ensures e.SSLError? ==> H.Handled(H.PostClauses, timeoutValue, e) == HttpClientError("SSL-Fehler: " + e.msg)
    ensures !e.SSLError? ==> H.Handled(H.PostClauses, timeoutValue, e) == H.Handled(PostClausesAsWritten, timeoutValue, e)
  {
    H.PostErrorMessages(timeoutValue, e);
    if !e.SSLError? {
      if e.ConnectTimeout? || e.ReadTimeout? || e.Timeout? {
        assert H.IsInstance(e, PostClausesAsWritten[0]);
      } else if e.ProxyError? || e.ConnectionError? {
        assert !H.IsInstance(e, PostClausesAsWritten[0]) && H.IsInstance(e, PostClausesAsWritten[1]);
      } else {
        assert !H.IsInstance(e, PostClausesAsWritten[0]) && !H.IsInstance(e, PostClausesAsWritten[1]);
        assert !H.IsInstance(e, PostClausesAsWritten[2]);
      }
    }
  }

  class Client {
    const verifySsl: bool
    const timeout: int
    const maxRetries: int
    /** `_session` */
    var session: Option<H.Session>
    /** how many sessions this client has created */
    var created: nat
    /** the requests handed to the network, in order */
    var sent: seq<H.Outgoing>

    /** The open session, if any, is the last one created. */
    predicate Valid()
      reads this
    {
      session.Some? ==> created > 0 && session.value.serial == created - 1
    }

    constructor (verifySsl: bool, timeout: int, maxRetries: int)
      ensures Valid()
      ensures this.verifySsl == verifySsl && this.timeout == timeout && this.maxRetries == maxRetries
      ensures session.None? && created == 0 && sent == []
    {
      this.verifySsl := verifySsl;
      this.timeout := timeout;
      this.maxRetries := maxRetries;
      session := None;
      created := 0;
      sent := [];
    }

    /** `_get_session`: the open session, or a new one when there is none. */
    method GetSession() returns (s: H.Session)
      requires Valid()
      modifies this`session, this`created
      ensures Valid() && session == Some(s)
      ensures old(session).Some? ==> s == old(session).value && created == old(created)
      ensures old(session).None? ==> s == H.NewSession(old(created), maxRetries) && created == old(created) + 1
    {
      if session.None? {
        session := Some(H.NewSession(created, maxRetries));
        created := created + 1;
      }
      s := session.value;
    }

    /** `post`: the caller's headers (or none) go out unchanged; failures are translated in the written clause order. */
    method Post(url: string, body: string, headers: Option<Dict<string>>, authConfig: Option<Dict<Value>>,
                timeout: Option<int>, proxies: Option<Dict<string>>, reply: H.Reply) returns (r: Result<H.HttpResponse>)
      requires Valid()
      modifies this`session, this`created, this`sent
      ensures Valid() && session.Some?
      ensures old(session).Some? ==> session == old(session) && created == old(created)
      ensures old(session).None? ==> created == old(created) + 1
      ensures H.ConfigureAuth(authConfig).Fail? ==> r == Fail(H.ConfigureAuth(authConfig).error) && sent == old(sent)
      ensures H.ConfigureAuth(authConfig).Ok? ==>
                && sent == old(sent) + [H.Outgoing("POST", url, Some(body), H.CopyOrEmpty(headers),
                                                   H.ConfigureAuth(authConfig).value, H.ConfigureCert(authConfig),
                                                   H.EffectiveTimeout(timeout, this.timeout), verifySsl, proxies,
                                                   session.value.serial)]
                && r == H.ReplyResult(reply, PostClausesAsWritten, H.EffectiveTimeout(timeout, this.timeout))
    {
      var s := GetSession();
      var timeoutValue := H.EffectiveTimeout(timeout, this.timeout);
      var auth := H.ConfigureAuth(authConfig);
      if auth.Fail? {
        return Fail(auth.error);
      }
      var cert := H.ConfigureCert(authConfig);
      sent := sent + [H.Outgoing("POST", url, Some(body), H.CopyOrEmpty(headers), auth.value, cert, timeoutValue,
                                 verifySsl, proxies, s.serial)];
      match reply
      case Answer(code, text, hs, elapsed) =>
        r := Ok(H.HttpResponse(code, text, hs, elapsed));
      case Refused(e) =>
        r := Fail(H.Handled(PostClausesAsWritten, timeoutValue, e));
    }

    /** `get`: the caller's headers unchanged, no credentials, certificate or proxies. */
    method Get(url: string, headers: Option<Dict<string>>, timeout: Option<int>, reply: H.Reply)
      returns (r: Result<H.HttpResponse>)
      requires Valid()
      modifies this`session, this`created, this`sent
      ensures Valid() && session.Some?
      ensures old(session).Some? ==> session == old(session) && created == old(created)
      ensures old(session).None? ==> created == old(created) + 1
      ensures sent == old(sent) + [H.Outgoing("GET", url, None, H.CopyOrEmpty(headers), None, None,
                                              H.EffectiveTimeout(timeout, this.timeout), verifySsl, None,
                                              session.value.serial)]
      ensures r == H.ReplyResult(reply, H.GetClauses, H.EffectiveTimeout(timeout, this.timeout))
    {
      var s := GetSession();
      var timeoutValue := H.EffectiveTimeout(timeout, this.timeout);
      sent := sent + [H.Outgoing("GET", url, None, H.CopyOrEmpty(headers), None, None, timeoutValue, verifySsl, None, s.serial)];
      match reply
      case Answer(code, text, hs, elapsed) =>
        r := Ok(H.HttpResponse(code, text, hs, elapsed));
      case Refused(e) =>
        r := Fail(H.Handled(H.GetClauses, timeoutValue, e));
    }

    /** `test_connectivity`: reachable iff a GET is answered with a code below 500. */
    method TestConnectivity(url: string, timeout: int, reply: H.Reply) returns (reachable: bool)
      requires Valid()
      modifies this`session, this`created, this`sent
      ensures Valid()
      ensures reachable <==> reply.Answer? && reply.statusCode < 500
      ensures |sent| == |old(sent)| + 1 && sent[|sent| - 1].verb == "GET" && sent[|sent| - 1].url == url
    {
      var r := Get(url, None, Some(timeout), reply);
      if r.Fail? {
        return false;
      }
      reachable := r.value.statusCode < 500;
    }

    /** `close`: the session is dropped; the next request opens a new one. */
    method Close()
      requires Valid()
      modifies this`session
      ensures Valid() && session.None?
    {
      session := None;
    }
  }
}
