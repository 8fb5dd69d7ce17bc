/**
 * The repository of the plugin package that sends SOAP requests over HTTP: it posts the request
 * with the HTTP client adapter, insists that the answer is XML, classifies the answer by status
 * code and SOAP Fault, maps the client's failures to the repository's exceptions, and keeps the
 * responses of asynchronous sends by request id.
 */
module HttpSoapRepository {
  import opened Wrappers
  import opened Strings
  import opened Dicts
  import opened Values
  import opened XmlTree
  import XmlBody
  import XmlParser
  import R = SoapResponse
  import SoapRequest
  import H = HttpClient

  // ---------------------------------------------------------------------------
  // Failures of the HTTP client

  /** Which word the lower-cased client message names first, in the order `send` asks. */
  datatype ErrorKind = TimeoutKind | SslKind | ConnectionKind | OtherKind

  function KindOf(lowered: string): ErrorKind {
    if Contains(lowered, "timeout") then TimeoutKind
    else if Contains(lowered, "ssl") then SslKind
    else if Contains(lowered, "connection") then ConnectionKind
    else OtherKind
  }

  /** The repository exception for a client message of the given kind. */
  function Reported(url: string, requestTimeout: int, kind: ErrorKind, message: string): Exception {
    match kind
    case TimeoutKind => EndpointNotReachable(url, "Timeout nach " + IntToString(requestTimeout) + "s")
    case SslKind => EndpointNotReachable(url, "SSL-Fehler: " + message)
    case ConnectionKind => EndpointNotReachable(url, "Verbindungsfehler: " + message)
    case OtherKind => RepositoryError("HTTP-Fehler: " + message)
  }

  /**
   * `send`'s `except HttpClientError` block: always a repository exception, naming the endpoint
   * whenever the message speaks of a timeout, SSL or the connection.
   */
  function MapClientError(url: string, requestTimeout: int, message: string): (r: Exception)
    ensures r.IsRepositoryError()
    ensures r.EndpointNotReachable? <==> KindOf(Lower(message)) != OtherKind
    ensures r.EndpointNotReachable? ==> r.url == url
  {
    Reported(url, requestTimeout, KindOf(Lower(message)), message)
  }

  /** No position of `a` starts an occurrence of `t`. */
  predicate NoStart(a: string, t: string)
    requires |t| > 0
  {
    forall i {:trigger a[i]} :: 0 <= i < |a| ==> a[i] != t[0] || (|t| > 1 && i + 1 < |a| && a[i + 1] != t[1])
  }

  /** A prefix that cannot start any of the three words does not change the kind. */
  lemma KindPastPrefix(a: string, b: string)
    requires NoStart(a, "timeout") && NoStart(a, "ssl") && NoStart(a, "connection")
    ensures KindOf(a + b) == KindOf(b)
  {
    assert a + b + "" == a + b;
    forall t | t in ["timeout", "ssl", "connection"]
      ensures Contains(a + b, t) <==> Contains(b, t)
    {
      if Contains(a + b, t) {
        ContainsPastPrefix(a, b, t);
      }
      if Contains(b, t) {
        ContainsInfix(a, b, "", t);
      }
    }
  }

  /** A prefix that names none of the three words leaves the kind to the rest of the message. */
  lemma PrefixKeepsKind(p: string, lp: string, msg: string)
    requires Lower(p) == lp
    requires NoStart(lp, "timeout") && NoStart(lp, "ssl") && NoStart(lp, "connection")
    ensures KindOf(Lower(p + msg)) == KindOf(Lower(msg))
  {
    LowerConcat(p, msg);
    KindPastPrefix(lp, Lower(msg));
  }

  /** A prefix that starts with "ssl" and cannot start "timeout" makes the kind SSL unless the rest names a timeout. */
  lemma SslPrefixGeneric(p: string, lp: string, msg: string)
    requires Lower(p) == lp && StartsWith(lp, "ssl") && NoStart(lp, "timeout")
    ensures KindOf(Lower(p + msg)) == if Contains(Lower(msg), "timeout") then TimeoutKind else SslKind
  {
    LowerConcat(p, msg);
    var l := lp + Lower(msg);
    if Contains(l, "timeout") {
      ContainsPastPrefix(lp, Lower(msg), "timeout");
    }
    if Contains(Lower(msg), "timeout") {
      ContainsInfix(lp, Lower(msg), "", "timeout");
      assert lp + Lower(msg) + "" == l;
    }
    assert l[..3] == lp[..3];
  }

  /** A prefix whose lower case contains "timeout" makes the kind a timeout. */
  lemma TimeoutPrefixGeneric(p: string, lp: string, rest: string)
    requires Lower(p) == lp && Contains(lp, "timeout")
    ensures KindOf(Lower(p + rest)) == TimeoutKind
  {
    LowerConcat(p, rest);
    var i := ContainsWitness(lp, "timeout");
    assert (lp + Lower(rest))[i..i + 7] == lp[i..i + 7];
    ContainsAt(lp + Lower(rest), "timeout", i);
  }

  lemma ConnectionPrefixLower()
    ensures Lower("Verbindungsfehler: ") == "verbindungsfehler: "
  {
    LowerCharwise("Verbindungsfehler: ", "verbindungsfehler: ");
  }

  lemma ConnectionPrefixNoStart()
    ensures NoStart("verbindungsfehler: ", "timeout") && NoStart("verbindungsfehler: ", "ssl")
            && NoStart("verbindungsfehler: ", "connection")
  {
  }

  lemma HttpPrefixLower()
    ensures Lower("HTTP-Fehler: ") == "http-fehler: "
  {
    LowerCharwise("HTTP-Fehler: ", "http-fehler: ");
  }

  lemma HttpPrefixNoStart()
    ensures NoStart("http-fehler: ", "timeout") && NoStart("http-fehler: ", "ssl") && NoStart("http-fehler: ", "connection")
  {
  }

  lemma SslPrefixLower()
    ensures Lower("SSL-Fehler: ") == "ssl-fehler: "
  {
    LowerCharwise("SSL-Fehler: ", "ssl-fehler: ");
  }

  lemma SslPrefixFacts()
    ensures StartsWith("ssl-fehler: ", "ssl") && NoStart("ssl-fehler: ", "timeout")
  {
    assert "ssl-fehler: "[..3] == "ssl";
  }

  lemma TimeoutPrefixLower()
    ensures Lower("Request timeout nach ") == "request timeout nach "
  {
    LowerCharwise("Request timeout nach ", "request timeout nach ");
  }

  lemma TimeoutPrefixContains()
    ensures Contains("request timeout nach ", "timeout")
  {
    assert "request timeout nach "[8..15] == "timeout";
    ContainsAt("request timeout nach ", "timeout", 8);
  }

  lemma ConnectionPrefixKind(msg: string)
    ensures KindOf(Lower("Verbindungsfehler: " + msg)) == KindOf(Lower(msg))
  {
    ConnectionPrefixLower();
    ConnectionPrefixNoStart();
    PrefixKeepsKind("Verbindungsfehler: ", "verbindungsfehler: ", msg);
  }

  lemma HttpPrefixKind(msg: string)
    ensures KindOf(Lower("HTTP-Fehler: " + msg)) == KindOf(Lower(msg))
  {
    HttpPrefixLower();
    HttpPrefixNoStart();
    PrefixKeepsKind("HTTP-Fehler: ", "http-fehler: ", msg);
  }

  lemma SslPrefixKind(msg: string)
    ensures KindOf(Lower("SSL-Fehler: " + msg)) == if Contains(Lower(msg), "timeout") then TimeoutKind else SslKind
  {
    SslPrefixLower();
    SslPrefixFacts();
    SslPrefixGeneric("SSL-Fehler: ", "ssl-fehler: ", msg);
  }

  lemma TimeoutPrefixKind(rest: string)
    ensures KindOf(Lower("Request timeout nach " + rest)) == TimeoutKind
  {
    TimeoutPrefixLower();
    TimeoutPrefixContains();
    TimeoutPrefixGeneric("Request timeout nach ", "request timeout nach ", rest);
  }

  /** The client's timeout message, whatever follows its prefix. */
  lemma TimeoutMessageKind(timeoutValue: int, msg: string)
    ensures KindOf(Lower("Request timeout nach " + IntToString(timeoutValue) + "s: " + msg)) == TimeoutKind
  {
    Reassociate("Request timeout nach ", IntToString(timeoutValue), "s: ", msg);
    TimeoutPrefixKind(IntToString(timeoutValue) + "s: " + msg);
  }

  lemma Reassociate(a: string, b: string, c: string, d: string)
    ensures a + b + c + d == a + (b + c + d)
  {
  }

  /** A timeout of `post` is reported with the request's own timeout. */
  lemma PostTimeoutReported(url: string, requestTimeout: int, timeoutValue: int, e: H.RequestsError)
    requires e.ConnectTimeout? || e.ReadTimeout? || e.Timeout?
    ensures MapClientError(url, requestTimeout, H.Handled(H.PostClauses, timeoutValue, e).msg)
            == EndpointNotReachable(url, "Timeout nach " + IntToString(requestTimeout) + "s")
  {
    H.PostErrorMessages(timeoutValue, e);
    TimeoutMessageKind(timeoutValue, e.msg);
  }

  /** An SSL error of `post` is an unreachable endpoint, its message prefixed twice, unless the library's message names a timeout. */
  lemma PostSslReported(url: string, requestTimeout: int, timeoutValue: int, e: H.RequestsError)
    requires e.SSLError?
    ensures MapClientError(url, requestTimeout, H.Handled(H.PostClauses, timeoutValue, e).msg)
            == if Contains(Lower(e.msg), "timeout") then EndpointNotReachable(url, "Timeout nach " + IntToString(requestTimeout) + "s")
               else EndpointNotReachable(url, "SSL-Fehler: " + ("SSL-Fehler: " + e.msg))
  {
    H.PostErrorMessages(timeoutValue, e);
    SslPrefixKind(e.msg);
  }

  /**
   * A connection error of `post` is classified by the library's message alone: the client's prefix
   * names none of the three words, so without "connection" (or "ssl", "timeout") in the library's
   * text the failure is a plain repository error.
   */
  lemma PostConnectionReported(url: string, requestTimeout: int, timeoutValue: int, e: H.RequestsError)
    requires e.ProxyError? || e.ConnectionError?
    ensures MapClientError(url, requestTimeout, H.Handled(H.PostClauses, timeoutValue, e).msg)
            == Reported(url, requestTimeout, KindOf(Lower(e.msg)), "Verbindungsfehler: " + e.msg)
  {
    H.PostErrorMessages(timeoutValue, e);
    ConnectionPrefixKind(e.msg);
  }

  /** Any other failure of `post` is likewise classified by the library's message alone. */
  lemma PostOtherReported(url: string, requestTimeout: int, timeoutValue: int, e: H.RequestsError)
    requires e.OtherRequestError?
    ensures MapClientError(url, requestTimeout, H.Handled(H.PostClauses, timeoutValue, e).msg)
            == Reported(url, requestTimeout, KindOf(Lower(e.msg)), "HTTP-Fehler: " + e.msg)
  {
    H.PostErrorMessages(timeoutValue, e);
    HttpPrefixKind(e.msg);
  }

  // ---------------------------------------------------------------------------
  // SOAP Fault detection and the fault string

  /** `find_element_text(element, './/' + tag)` */
  function TextBelow(root: Node, tag: string): Option<string> {
    XmlParser.FindElementText(root, [XmlBody.DescendantStep(tag)], None)
  }

  /** The lookup is ElementTree's `find('.//' + tag)` followed by the text test. */
  lemma TextBelowFind(root: Node, tag: string)
    ensures var f := FindDescendant(root, tag);
            TextBelow(root, tag) ==
              if f.Some? && f.value.text.Some? && |f.value.text.value| > 0 then Some(Strip(f.value.text.value)) else None
  {
    var s := XmlBody.DescendantStep(tag);
    assert XmlBody.StepAll([root], s) == XmlBody.Tagged(Descendants(root.children), tag) + XmlBody.StepAll([root][1..], s);
    assert [root][1..] == [];
    assert XmlBody.SelectPath([root], [s]) == XmlBody.SelectPath(XmlBody.StepAll([root], s), []);
    XmlBody.TaggedFirst(Descendants(root.children), tag);
  }

  /** Python's `a or b` on optional strings: `a` unless it is None or empty. */
  function OrElse(a: Option<string>, b: Option<string>): (r: Option<string>)
    ensures r == a || r == b
    ensures r.Some? && |r.value| > 0 <==> (a.Some? && |a.value| > 0) || (b.Some? && |b.value| > 0)
  {
    if a.Some? && |a.value| > 0 then a else b
  }

  /** The three Fault tags `_contains_soap_fault` looks for: unqualified, SOAP 1.1 and SOAP 1.2. */
  const FaultPlain: string := "Fault"
  const Fault11: string := Qualified(XmlParser.SoapEnvelope11, "Fault")
  const Fault12: string := Qualified(XmlParser.SoapEnvelope12, "Fault")

  /**
   * `_contains_soap_fault` as written: the three text lookups chained with `or`, then
   * `is not None`. It sees a Fault only through its own text.
   */
  predicate ContainsSoapFaultAsWritten(body: string, parse: Parser) {
    match XmlParser.Parse(body, parse)
    case Fail(_) => false
    case Ok(root) => OrElse(OrElse(TextBelow(root, FaultPlain), TextBelow(root, Fault11)), TextBelow(root, Fault12)).Some?
  }

  /** `_contains_soap_fault` as its name and comment intend: some Fault element is present. */
  predicate ContainsSoapFault(body: string, parse: Parser) {
    match XmlParser.Parse(body, parse)
    case Fail(_) => false
    case Ok(root) =>
      FindDescendant(root, FaultPlain).Some? || FindDescendant(root, Fault11).Some? || FindDescendant(root, Fault12).Some?
  }

  /** Whatever the written test reports is a Fault that is present. */
  lemma AsWrittenOnlyFindsFaults(body: string, parse: Parser)
    ensures ContainsSoapFaultAsWritten(body, parse) ==> ContainsSoapFault(body, parse)
  {
    if parse(body).Parsed? {
      var root := parse(body).root;
      TextBelowFind(root, FaultPlain);
      TextBelowFind(root, Fault11);
      TextBelowFind(root, Fault12);
    }
  }

  /** The SOAP 1.1 envelope of a server fault, the Fault element without text of its own. */
  function Soap11FaultEnvelope(): Node {
    var ns := XmlParser.SoapEnvelope11;
    Node(Qualified(ns, "Envelope"), [], None, [
      Node(Qualified(ns, "Body"), [], None, [
        Node(Fault11, [], None, [
          Node("faultcode", [], Some("soap:Server"), []),
          Node("faultstring", [], Some("Server fault"), [])])])])
  }

  lemma FaultEnvelopeDescendants()
    ensures var root := Soap11FaultEnvelope();
            var body := root.children[0];
            var fault := body.children[0];
            Descendants(root.children) == [body, fault, fault.children[0], fault.children[1]]
  {
    var root := Soap11FaultEnvelope();
    var body := root.children[0];
    var fault := body.children[0];
    assert Descendants(fault.children[1..][1..]) == [];
    assert Descendants(fault.children) == [fault.children[0], fault.children[1]];
    assert Descendants(body.children) == [fault] + Descendants(fault.children);
  }

  lemma FaultTagLengths()
    ensures |FaultPlain| == 5 && |Fault11| == 48 && |Fault12| == 46
    ensures |Qualified(XmlParser.SoapEnvelope11, "Body")| == 47
  {
  }

  /** In the envelope the SOAP 1.1 Fault, without text, is the only Fault element. */
  lemma FaultEnvelopeFinds()
    ensures var root := Soap11FaultEnvelope();
            && FindDescendant(root, FaultPlain).None? && FindDescendant(root, Fault12).None?
            && FindDescendant(root, Fault11).Some? && FindDescendant(root, Fault11).value.text.None?
  {
    FaultEnvelopeDescendants();
    FaultTagLengths();
  }

  /** A document whose only Fault is a SOAP 1.1 Fault without text of its own escapes the written test. */
  lemma AsWrittenMissesTextlessFault(body: string, parse: Parser)
    requires parse(body).Parsed?
    requires var root := parse(body).root;
             && FindDescendant(root, FaultPlain).None? && FindDescendant(root, Fault12).None?
             && FindDescendant(root, Fault11).Some? && FindDescendant(root, Fault11).value.text.None?
    ensures !ContainsSoapFaultAsWritten(body, parse)
    ensures ContainsSoapFault(body, parse)
  {
    var root := parse(body).root;
    TextBelowFind(root, FaultPlain);
    TextBelowFind(root, Fault11);
    TextBelowFind(root, Fault12);
  }

  /**
   * The written test misses the SOAP 1.1 Fault of the usual shape, which holds only `faultcode`
   * and `faultstring`; the intended test finds it.
   */
  lemma AsWrittenMissesSoap11Fault(body: string, parse: Parser)
    requires parse(body) == Parsed(Soap11FaultEnvelope())
    ensures !ContainsSoapFaultAsWritten(body, parse)
    ensures ContainsSoapFault(body, parse)
  {
    FaultEnvelopeFinds();
    AsWrittenMissesTextlessFault(body, parse);
  }

  /** `_extract_fault_string`: the first non-empty of three text lookups, never the empty string. */
  function ExtractFaultString(body: string, parse: Parser): (r: string)
    ensures |r| > 0
    ensures parse(body).ParseError? ==> r == "SOAP Fault (Details nicht verfügbar)"
  {
    match XmlParser.Parse(body, parse)
    case Fail(_) => "SOAP Fault (Details nicht verfügbar)"
    case Ok(root) =>
      var s := OrElse(OrElse(TextBelow(root, "faultstring"), TextBelow(root, Qualified(XmlParser.SoapEnvelope11, "faultstring"))),
                      TextBelow(root, Qualified(XmlParser.SoapEnvelope12, "Reason")));
      if s.Some? && |s.value| > 0 then s.value else "Unbekannter SOAP Fault"
  }

  /** An unqualified `faultstring` with text that is not blank is the fault string, stripped. */
  lemma FaultStringFound(body: string, parse: Parser)
    requires parse(body).Parsed?
    requires var f := FindDescendant(parse(body).root, "faultstring");
             f.Some? && f.value.text.Some? && |Strip(f.value.text.value)| > 0
    ensures ExtractFaultString(body, parse) == Strip(FindDescendant(parse(body).root, "faultstring").value.text.value)
  {
    TextBelowFind(parse(body).root, "faultstring");
  }

  // ---------------------------------------------------------------------------
  // The SOAP response for an HTTP answer

  /** The status and error message `_create_soap_response` derives from the answer. */
  function Classify(hr: H.HttpResponse, faultFound: bool, faultString: string): (R.ResponseStatus, Option<string>) {
    if hr.statusCode == 401 || hr.statusCode == 403 then (R.AuthError, Some("Authentifizierung fehlgeschlagen"))
    else if hr.statusCode == 500 then
      if faultFound then (R.SoapFault, Some(faultString)) else (R.Error, Some("Server-Fehler"))
    else if H.IsSuccessful(hr) then (R.Success, None)
    else (R.Error, Some("HTTP " + IntToString(hr.statusCode)))
  }

  /** The response built from the answer, the outcome of the Fault test and the fault string. */
  function ResponseFor(requestId: string, hr: H.HttpResponse, faultFound: bool, faultString: string, now: int)
    : Result<R.SoapResponse>
  {
    var c := Classify(hr, faultFound, faultString);
    R.New(R.SoapResponse(requestId, c.0, Some(hr.statusCode), Some(hr.body), hr.headers, None, None, None, None,
                         c.1, Some(hr.elapsedMs), now))
  }

  /**
   * `_create_soap_response`: the answer's code, body, headers and time are copied; the response is
   * successful exactly when the answer is 2xx; 401 and 403 are authentication errors; a SOAP Fault
   * status needs a 500 that the written Fault test accepts; every status but success carries a
   * message.
   */
  function CreateSoapResponse(requestId: string, hr: H.HttpResponse, parse: Parser, now: int): (r: Result<R.SoapResponse>)
    ensures r.Fail? <==> |requestId| == 0
    ensures r.Ok? ==> r.value.requestId == requestId && r.value.statusCode == Some(hr.statusCode)
                      && r.value.body == Some(hr.body) && r.value.headers == hr.headers
                      && r.value.responseTimeMs == Some(hr.elapsedMs) && r.value.receivedAt == now
    ensures r.Ok? ==> (R.IsSuccessful(r.value) <==> H.IsSuccessful(hr))
    ensures r.Ok? ==> (r.value.status == R.AuthError <==> hr.statusCode == 401 || hr.statusCode == 403)
    ensures r.Ok? ==> (r.value.status == R.SoapFault <==> hr.statusCode == 500 && ContainsSoapFaultAsWritten(hr.body, parse))
    ensures r.Ok? ==> (r.value.errorMessage.None? <==> r.value.status == R.Success)
    ensures r.Ok? ==> r.value.status in {R.Success, R.SoapFault, R.AuthError, R.Error}
  {
    ResponseFor(requestId, hr, ContainsSoapFaultAsWritten(hr.body, parse), ExtractFaultString(hr.body, parse), now)
  }

  /**
   * `_create_soap_response` with the Fault test its name intends: a 500 carrying any Fault element
   * is a SOAP fault. It differs from the written one only on answers whose Fault the written test
   * misses.
   */
  function CreateSoapResponseIntended(requestId: string, hr: H.HttpResponse, parse: Parser, now: int)
    : (r: Result<R.SoapResponse>)
    ensures r.Fail? <==> |requestId| == 0
    ensures r.Ok? ==> (r.value.status == R.SoapFault <==> hr.statusCode == 500 && ContainsSoapFault(hr.body, parse))
    ensures r.Ok? ==> (R.IsSuccessful(r.value) <==> H.IsSuccessful(hr))
    ensures ContainsSoapFaultAsWritten(hr.body, parse) || !ContainsSoapFault(hr.body, parse) ==>
              r == CreateSoapResponse(requestId, hr, parse, now)
  {
    AsWrittenOnlyFindsFaults(hr.body, parse);
    ResponseFor(requestId, hr, ContainsSoapFault(hr.body, parse), ExtractFaultString(hr.body, parse), now)
  }

  /**
   * For the 500 answer carrying the usual SOAP 1.1 Fault, the written test yields a plain server
   * error, where the intended one reports the SOAP fault.
   */
  lemma AsWrittenServerError(requestId: string, body: string, parse: Parser, now: int)
    requires |requestId| > 0 && parse(body) == Parsed(Soap11FaultEnvelope())
    ensures var hr := H.HttpResponse(500, body, [], 0);
            && CreateSoapResponse(requestId, hr, parse, now).value.status == R.Error
            && CreateSoapResponse(requestId, hr, parse, now).value.errorMessage == Some("Server-Fehler")
            && CreateSoapResponseIntended(requestId, hr, parse, now).value.status == R.SoapFault
  {
    AsWrittenMissesSoap11Fault(body, parse);
  }

  /** What `send` makes of the client's result. */
  function SendResult(requestId: string, url: string, requestTimeout: int, posted: Result<H.HttpResponse>,
                      parse: Parser, now: int): (r: Result<R.SoapResponse>)
    ensures r.Ok? ==> posted.Ok? && XmlParser.ValidateXml(posted.value.body, parse)
    ensures r.Ok? ==> (R.IsSuccessful(r.value) <==> H.IsSuccessful(posted.value))
    ensures posted.Ok? && !XmlParser.ValidateXml(posted.value.body, parse) ==>
              r == Fail(InvalidResponse("Response ist kein gültiges XML"))
    ensures posted.Fail? && posted.error.HttpClientError? ==> r.Fail? && r.error.IsRepositoryError()
  {
    match posted
    case Fail(e) =>
      if e.HttpClientError? then Fail(MapClientError(url, requestTimeout, e.msg)) else Fail(e)
    case Ok(hr) =>
      if !XmlParser.ValidateXml(hr.body, parse) then Fail(InvalidResponse("Response ist kein gültiges XML"))
      else CreateSoapResponse(requestId, hr, parse, now)
  }

  /**
   * Whatever the network does, `send` either answers or raises a repository exception; the only
   * other exception is the ValueError of a request without id.
   */
  lemma SendRaisesDomainErrors(requestId: string, url: string, requestTimeout: int, reply: H.Reply, timeoutValue: int,
                               parse: Parser, now: int)
    ensures var r := SendResult(requestId, url, requestTimeout, H.ReplyResult(reply, H.PostClauses, timeoutValue), parse, now);
            r.Fail? ==> r.error.IsRepositoryError() || (r.error == ValueError("request_id ist erforderlich") && |requestId| == 0)
  {
    if reply.Refused? {
      H.PostErrorMessages(timeoutValue, reply.error);
    }
  }

  /** The ERROR response `execute_async` stores for an exception. */
  function ErrorResponse(requestId: string, message: string, now: int): R.SoapResponse {
    R.SoapResponse(requestId, R.Error, Some(0), Some(""), [], None, None, None, None, Some(message), None, now)
  }

  /**
   * The store after `execute_async`: the response, or the ERROR response for the exception; when
   * the request has no id the ERROR response cannot be built either and nothing is stored.
   */
  function Stored(m: map<string, R.SoapResponse>, requestId: string, result: Result<R.SoapResponse>, now: int)
    : map<string, R.SoapResponse>
  {
    match result
    case Ok(resp) => m[requestId := resp]
    case Fail(e) => if |requestId| == 0 then m else m[requestId := ErrorResponse(requestId, e.Message(), now)]
  }

  /**
   * Once the asynchronous send is done, the request's id has a response exactly when it is not
   * empty: the response of `send`, or an ERROR response with code 0 and the exception's text,
   * never a successful one; the responses of other requests stay.
   */
  lemma StoredResponse(m: map<string, R.SoapResponse>, requestId: string, result: Result<R.SoapResponse>, now: int)
    requires result.Ok? ==> result.value.requestId == requestId && |requestId| > 0
    ensures var s := Stored(m, requestId, result, now);
            && (|requestId| > 0 ==> requestId in s)
            && (result.Ok? ==> s[requestId] == result.value)
            && (result.Fail? && |requestId| > 0 ==>
                  s[requestId].status == R.Error && s[requestId].statusCode == Some(0)
                  && s[requestId].errorMessage == Some(result.error.Message()) && !R.IsSuccessful(s[requestId]))
            && (forall k :: k in m && k != requestId ==> k in s && s[k] == m[k])
            && (forall k :: k in s ==> k in m || k == requestId)
  {
  }

  // ---------------------------------------------------------------------------
  // The repository

  class Repository {
    const client: H.Client
    /** `_async_responses` */
    var asyncResponses: map<string, R.SoapResponse>

    predicate Valid()
      reads this, client
    {
      client.Valid()
    }

    /** A given client is used as it is; otherwise one is made from `verify_ssl` and `timeout`. */
    constructor (httpClient: Option<H.Client>, verifySsl: bool, timeout: int)
      requires httpClient.Some? ==> httpClient.value.Valid()
      ensures Valid() && asyncResponses == map[]
      ensures httpClient.Some? ==> client == httpClient.value
      ensures httpClient.None? ==> fresh(client) && client.verifySsl == verifySsl && client.timeout == timeout
                                   && client.maxRetries == 0 && client.session.None? && client.sent == []
    {
      if httpClient.Some? {
        client := httpClient.value;
      } else {
        client := new H.Client(verifySsl, timeout, 0);
      }
      asyncResponses := map[];
    }

    /** `send`: one POST with the request's headers and timeout and no credentials, then `SendResult`. */
    method Send(request: SoapRequest.SoapRequest, reply: H.Reply, parse: Parser, now: int)
      returns (r: Result<R.SoapResponse>)
      requires Valid()
      modifies client`session, client`created, client`sent
      ensures Valid() && client.session.Some?
      ensures client.sent == old(client.sent) + [H.Outgoing("POST", request.endpointUrl, Some(request.body),
                                                            H.PostHeaders(Some(request.headers)), None, None,
                                                            H.EffectiveTimeout(Some(request.timeout), client.timeout),
                                                            client.verifySsl, None, client.session.value.serial)]
      ensures r == SendResult(request.id, request.endpointUrl, request.timeout,
                              H.ReplyResult(reply, H.PostClauses, H.EffectiveTimeout(Some(request.timeout), client.timeout)),
                              parse, now)
    {
      // `_extract_auth_config` answers None for every request
      var authConfig: Option<Dict<Value>> := None;
      var posted := client.Post(request.endpointUrl, request.body, Some(request.headers), authConfig,
                                Some(request.timeout), None, reply);
      if posted.Fail? {
        if posted.error.HttpClientError? {
          return Fail(MapClientError(request.endpointUrl, request.timeout, posted.error.msg));
        }
        return Fail(posted.error);
      }
      var hr := posted.value;
      if !XmlParser.ValidateXml(hr.body, parse) {
        return Fail(InvalidResponse("Response ist kein gültiges XML"));
      }
      r := CreateSoapResponse(request.id, hr, parse, now);
    }

    /** `execute_async`, the body of the thread `send_async` starts. */
    method CompleteAsync(request: SoapRequest.SoapRequest, reply: H.Reply, parse: Parser, now: int)
      requires Valid()
      modifies this`asyncResponses, client`session, client`created, client`sent
      ensures Valid()
      ensures |client.sent| == |old(client.sent)| + 1
      ensures asyncResponses == Stored(old(asyncResponses), request.id,
                                       SendResult(request.id, request.endpointUrl, request.timeout,
                                                  H.ReplyResult(reply, H.PostClauses, H.EffectiveTimeout(Some(request.timeout), client.timeout)),
                                                  parse, now), now)
    {
      var response := Send(request, reply, parse, now);
      match response
      case Ok(resp) =>
        asyncResponses := asyncResponses[request.id := resp];
      case Fail(e) =>
        if |request.id| > 0 {
          asyncResponses := asyncResponses[request.id := ErrorResponse(request.id, e.Message(), now)];
        }
    }

    /** `send_async`: the request's id, under which `get_response` finds the outcome once the send is done. */
    method SendAsync(request: SoapRequest.SoapRequest, reply: H.Reply, parse: Parser, now: int) returns (id: string)
      requires Valid()
      modifies this`asyncResponses, client`session, client`created, client`sent
      ensures Valid() && id == request.id
      ensures asyncResponses == Stored(old(asyncResponses), request.id,
                                       SendResult(request.id, request.endpointUrl, request.timeout,
                                                  H.ReplyResult(reply, H.PostClauses, H.EffectiveTimeout(Some(request.timeout), client.timeout)),
                                                  parse, now), now)
    {
      CompleteAsync(request, reply, parse, now);
      id := request.id;
    }

    /** `get_response`: the stored response, None for an id never stored. */
    function GetResponse(requestId: string): (r: Option<R.SoapResponse>)
      reads this
      ensures r.Some? <==> requestId in asyncResponses
      ensures r.Some? ==> r.value == asyncResponses[requestId]
    {
      if requestId in asyncResponses then Some(asyncResponses[requestId]) else None
    }

    /** `validate_endpoint`: the client's connectivity test with its default timeout of 5 seconds. */
    method ValidateEndpoint(url: string, reply: H.Reply) returns (reachable: bool)
      requires Valid()
      modifies client`session, client`created, client`sent
      ensures Valid()
      ensures reachable <==> reply.Answer? && reply.statusCode < 500
      ensures |client.sent| == |old(client.sent)| + 1
      ensures client.sent[|client.sent| - 1].verb == "GET" && client.sent[|client.sent| - 1].url == url
    {
      reachable := client.TestConnectivity(url, 5, reply);
    }

    /** `get_wsdl`: the body of a 2xx answer to a GET with a 10-second timeout, otherwise None. */
    method GetWsdl(url: string, reply: H.Reply) returns (wsdl: Option<string>)
      requires Valid()
      modifies client`session, client`created, client`sent
      ensures Valid() && client.session.Some?
      ensures wsdl.Some? <==> reply.Answer? && 200 <= reply.statusCode < 300
      ensures wsdl.Some? ==> wsdl.value == reply.text
      ensures client.sent == old(client.sent) + [H.Outgoing("GET", url, None, H.GetHeaders(None), None, None,
                                                            H.EffectiveTimeout(Some(10), client.timeout), client.verifySsl,
                                                            None, client.session.value.serial)]
    {
      var response := client.Get(url, None, None, Some(10), None, reply);
      if response.Fail? {
        return None;
      }
      if H.IsSuccessful(response.value) {
        return Some(response.value.body);
      }
      wsdl := None;
    }

    /** `close`: closes the client's session. */
    method Close()
      requires Valid()
      modifies client`session
      ensures Valid() && client.session.None?
    {
      client.Close();
    }
  }
}
