/**
 * Building SOAP requests from Ansible parameters, from an endpoint and an action, and from a plain
 * dict. The envelope is made from the body and rebound through the envelope's copy operations;
 * the request is constructed from its text, then the extra headers are added one by one.
 *
 * A request is described by the state it has when the factory returns it (`SoapService.Sent`), or
 * by the exception the factory raises; the id and the creation time are parameters.
 */
module SoapRequestFactory {
  import opened Wrappers
  import opened Strings
  import opened Dicts
  import opened Values
  import opened XmlTree
  import opened Params
  import XmlBody
  import SoapEnvelope
  import SoapRequest
  import SoapAction
  import Endpoint
  import S = SoapService

  /** What calling `to_string()` on the validated body gives. */
  type Render = XmlBody.XmlBody -> Result<string>

  /** As written: the validated body defines no `to_string`, so the call raises AttributeError. */
  function RenderAsWritten(b: XmlBody.XmlBody): Result<string> {
    Fail(AttributeError("'XmlBody' object has no attribute 'to_string'"))
  }

  /** As intended: the body's text, which is what `str()` of the body gives. */
  function RenderIntended(b: XmlBody.XmlBody): Result<string> {
    Ok(b.value)
  }

  /** The text of an optional body; None reaches the envelope's emptiness check like "". */
  function Text(s: Option<string>): string {
    if s.Some? then s.value else ""
  }

  // ---------------------------------------------------------------------------
  // Envelope and request

  /**
   * `SoapEnvelope.from_body`, then `with_namespace` when a declaration is given, then `with_header`
   * when a header is given: the envelope with exactly those parts, provided body and header parse.
   */
  function MakeEnvelope(body: string, version: SoapEnvelope.SoapVersion, declaration: Option<(string, string)>,
                        header: Option<string>, parse: Parser): (r: Result<SoapEnvelope.SoapEnvelope>)
    ensures r.Ok? <==> SoapEnvelope.Valid(SoapEnvelope.SoapEnvelope(body, version, header, None), parse)
    ensures r.Ok? ==> r.value == SoapEnvelope.SoapEnvelope(body, version, header,
                                                           if declaration.Some? then Some([declaration.value]) else None)
    ensures |body| == 0 ==> r == Fail(ValueError("Body-Content darf nicht leer sein"))
  {
    match SoapEnvelope.FromBody(body, version, None, parse)
    case Fail(e) => Fail(e)
    case Ok(e0) =>
      var e1 := if declaration.Some? then SoapEnvelope.WithNamespace(e0, declaration.value.0, declaration.value.1, parse).value
                else e0;
      if header.Some? then SoapEnvelope.WithHeader(e1, header.value, parse) else Ok(e1)
  }

  /**
   * `SoapRequest(...)` followed by `add_header` for each extra header: the construction checks,
   * then the SOAP defaults, then the extra headers over them; the first empty key or value raises.
   */
  function Assemble(id: string, url: Option<string>, action: Option<string>, body: Option<string>, headers: Dict<string>,
                    namespace: Option<string>, version: string, timeout: int, now: int, extra: Dict<string>)
    : (r: Result<S.Sent>)
    ensures r.Ok? <==> SoapRequest.CheckError(url, body, version, timeout).None? && S.HeadersGiven(extra)
    ensures SoapRequest.CheckError(url, body, version, timeout).Some? ==> r == Fail(SoapRequest.CheckError(url, body, version, timeout).value)
    ensures r.Ok? ==> && r.value.id == id && r.value.endpointUrl == url.value && r.value.soapAction == action
                      && r.value.body == body.value && r.value.namespace == namespace && r.value.soapVersion == version
                      && r.value.timeout == timeout && r.value.createdAt == now
  {
    match SoapRequest.CheckError(url, body, version, timeout)
    case Some(e) => Fail(e)
    case None =>
      HeadersOutcome(SoapRequest.EnsureHeaders(version, action, headers), extra);
      match S.AddHeaders(SoapRequest.EnsureHeaders(version, action, headers), extra)
      case Fail(e) => Fail(e)
      case Ok(h) => Ok(S.Sent(id, url.value, action, body.value, h, namespace, version, timeout, now))
  }

  /** Adding extra headers succeeds exactly when none has an empty key or value. */
  lemma HeadersOutcome(headers: Dict<string>, extra: Dict<string>)
    ensures S.AddHeaders(headers, extra).Ok? <==> S.HeadersGiven(extra)
  {
    if S.HeadersGiven(extra) {
      S.AddHeadersOk(headers, extra);
    } else {
      var i :| 0 <= i < |extra| && (|extra[i].0| == 0 || |extra[i].1| == 0);
      S.AddHeadersFails(headers, extra, i);
    }
  }

  /** An extra header wins over a default of the same name; every other header keeps its default. */
  lemma ExtraHeadersWin(version: string, action: Option<string>, headers: Dict<string>, extra: Dict<string>, k: string)
    requires S.HeadersGiven(extra) && UniqueKeys(extra)
    ensures var h := S.AddHeaders(SoapRequest.EnsureHeaders(version, action, headers), extra);
            h.Ok? && Get(h.value, k) == if HasKey(extra, k) then Get(extra, k)
                                        else Get(SoapRequest.EnsureHeaders(version, action, headers), k)
  {
    S.AddHeadersGet(SoapRequest.EnsureHeaders(version, action, headers), extra, k);
  }

  /** The construction and the header loop, as the source runs them. */
  method Construct(id: string, url: Option<string>, action: Option<string>, body: Option<string>, headers: Dict<string>,
                   namespace: Option<string>, version: string, timeout: int, now: int, extra: Dict<string>)
    returns (r: Result<SoapRequest.SoapRequest>)
    ensures r.Fail? ==> Assemble(id, url, action, body, headers, namespace, version, timeout, now, extra) == Fail(r.error)
    ensures r.Ok? ==> fresh(r.value)
                      && Assemble(id, url, action, body, headers, namespace, version, timeout, now, extra) == Ok(S.Snapshot(r.value))
  {
    var created := SoapRequest.Create(id, url, action, body, headers, namespace, version, timeout, now);
    if created.Fail? {
      return Fail(created.error);
    }
    var request := created.value;
    var added := S.AddCustomHeaders(request, extra);
    if added.Raised? {
      return Fail(added.error);
    }
    r := Ok(request);
  }

  // ---------------------------------------------------------------------------
  // from_ansible_params

  /** The types the module's argument spec gives the parameters read here. */
  predicate AnsibleTyped(params: Dict<Value>) {
    && StrOrNone(params, "endpoint_url") && StrOrNone(params, "soap_action") && StrOrNone(params, "body")
    && DictOrNone(params, "body_dict") && StrIfPresent(params, "body_root_tag") && StrIfPresent(params, "soap_version")
    && StrOrNone(params, "namespace") && StrIfPresent(params, "namespace_prefix") && StrOrNone(params, "soap_header")
    && IntIfPresent(params, "timeout") && StrDictOrNone(params, "headers")
  }

  /** The body is made from `body_dict` when `body` is not truthy and `body_dict` is. */
  predicate UsesBodyDict(params: Dict<Value>)
    requires AnsibleTyped(params)
  {
    !Endpoint.Given(OptStr(params, "body")) && |SubDict(params, "body_dict")| > 0
  }

  /** The validated body `XmlBody.from_dict(body_dict, root_tag)` makes, root tag 'Request' unless given. */
  function DictXml(params: Dict<Value>, parse: Parser, ser: Serializer): Result<XmlBody.XmlBody>
    requires AnsibleTyped(params)
  {
    XmlBody.New(ser(XmlBody.DictTree(Str(params, "body_root_tag", "Request"), SubDict(params, "body_dict"))), parse)
  }

  /** The body content handed to `from_body`. */
  function BodyContent(params: Dict<Value>, parse: Parser, ser: Serializer, render: Render): Result<string>
    requires AnsibleTyped(params)
  {
    if UsesBodyDict(params) then
      match DictXml(params, parse, ser)
      case Fail(e) => Fail(e)
      case Ok(b) => render(b)
    else Ok(Text(OptStr(params, "body")))
  }

  /** The declaration added to the envelope: `namespace_prefix` (default 'ns') bound to a truthy `namespace`. */
  function AnsibleDeclaration(params: Dict<Value>): Option<(string, string)>
    requires AnsibleTyped(params)
  {
    if Endpoint.Given(OptStr(params, "namespace")) then Some((Str(params, "namespace_prefix", "ns"), OptStr(params, "namespace").value))
    else None
  }

  /** The header added to the envelope: a truthy `soap_header`. */
  function AnsibleHeader(params: Dict<Value>): Option<string>
    requires AnsibleTyped(params)
  {
    if Endpoint.Given(OptStr(params, "soap_header")) then OptStr(params, "soap_header") else None
  }

  /** `from_ansible_params`: the request it returns, or the exception it raises. */
  function AnsibleRequest(params: Dict<Value>, id: string, now: int, parse: Parser, ser: Serializer, render: Render)
    : (r: Result<S.Sent>)
    requires AnsibleTyped(params)
    ensures !HasKey(params, "endpoint_url") ==> r == Fail(KeyError("endpoint_url"))
  {
    match StrItem(params, "endpoint_url")
    case Fail(e) => Fail(e)
    case Ok(url) =>
      match BodyContent(params, parse, ser, render)
      case Fail(e) => Fail(e)
      case Ok(content) =>
        var version := Str(params, "soap_version", "1.1");
        match MakeEnvelope(content, S.EnvelopeVersion(version), AnsibleDeclaration(params), AnsibleHeader(params), parse)
        case Fail(e) => Fail(e)
        case Ok(envelope) =>
          Assemble(id, url, StrDefault(params, "soap_action", ""), Some(SoapEnvelope.Wire(envelope)), [],
                   OptStr(params, "namespace"), version, Int(params, "timeout", 30), now, StrDict(params, "headers"))
  }

  /** `from_ansible_params`, step by step. */
  method FromAnsibleParams(params: Dict<Value>, id: string, now: int, parse: Parser, ser: Serializer, render: Render)
    returns (r: Result<SoapRequest.SoapRequest>)
    requires AnsibleTyped(params)
    ensures r.Fail? ==> AnsibleRequest(params, id, now, parse, ser, render) == Fail(r.error)
    ensures r.Ok? ==> fresh(r.value) && AnsibleRequest(params, id, now, parse, ser, render) == Ok(S.Snapshot(r.value))
  {
    var url := StrItem(params, "endpoint_url");
    if url.Fail? {
      return Fail(url.error);
    }
    var content := Text(OptStr(params, "body"));
    if UsesBodyDict(params) {
      var xml := XmlBody.FromDict(SubDict(params, "body_dict"), Str(params, "body_root_tag", "Request"), parse, ser);
      if xml.Fail? {
        return Fail(xml.error);
      }
      var text := render(xml.value);
      if text.Fail? {
        return Fail(text.error);
      }
      content := text.value;
    }
    var version := Str(params, "soap_version", "1.1");
    var created := SoapEnvelope.FromBody(content, S.EnvelopeVersion(version), None, parse);
    if created.Fail? {
      return Fail(created.error);
    }
    var envelope := created.value;
    if Endpoint.Given(OptStr(params, "namespace")) {
      envelope := SoapEnvelope.WithNamespace(envelope, Str(params, "namespace_prefix", "ns"), OptStr(params, "namespace").value, parse).value;
    }
    if Endpoint.Given(OptStr(params, "soap_header")) {
      var withHeader := SoapEnvelope.WithHeader(envelope, OptStr(params, "soap_header").value, parse);
      if withHeader.Fail? {
        return Fail(withHeader.error);
      }
      envelope := withHeader.value;
    }
    assert MakeEnvelope(content, S.EnvelopeVersion(version), AnsibleDeclaration(params), AnsibleHeader(params), parse) == Ok(envelope);
    var wire := SoapEnvelope.Build(envelope);
    r := Construct(id, url.value, StrDefault(params, "soap_action", ""), Some(wire), [], OptStr(params, "namespace"),
                   version, Int(params, "timeout", 30), now, StrDict(params, "headers"));
  }

  /**
   * What a request built from Ansible parameters holds: the URL, the action (default ''), the
   * namespace, the raw version string (default '1.1', one of the two versions) and the timeout
   * (default 30, positive); its body is exactly the text of the envelope around the body content,
   * of version 1.1 exactly for the string '1.1', declaring the namespace under its prefix exactly
   * when a namespace is given, with the header exactly when one is given.
   */
  lemma AnsibleRequestShape(params: Dict<Value>, id: string, now: int, parse: Parser, ser: Serializer, render: Render)
    requires AnsibleTyped(params)
    requires AnsibleRequest(params, id, now, parse, ser, render).Ok?
    ensures var p := AnsibleRequest(params, id, now, parse, ser, render).value;
            var v := Str(params, "soap_version", "1.1");
            && BodyContent(params, parse, ser, render).Ok?
            && p.endpointUrl == OptStr(params, "endpoint_url").value
            && p.soapAction == StrDefault(params, "soap_action", "")
            && p.namespace == OptStr(params, "namespace")
            && p.soapVersion == v && v in ["1.1", "1.2"]
            && p.timeout == Int(params, "timeout", 30) && p.timeout > 0
            && p.body == SoapEnvelope.Wire(SoapEnvelope.SoapEnvelope(
                 BodyContent(params, parse, ser, render).value,
                 if v == "1.1" then SoapEnvelope.SoapVersion.V1_1 else SoapEnvelope.SoapVersion.V1_2,
                 AnsibleHeader(params),
                 if Endpoint.Given(OptStr(params, "namespace"))
                 then Some([(Str(params, "namespace_prefix", "ns"), OptStr(params, "namespace").value)]) else None))
  {
  }

  /** A truthy `body` is used as it is; `body_dict` is then never looked at. */
  lemma BodyWins(params: Dict<Value>, parse: Parser, ser: Serializer, render: Render)
    requires AnsibleTyped(params) && Endpoint.Given(OptStr(params, "body"))
    ensures BodyContent(params, parse, ser, render) == Ok(OptStr(params, "body").value)
  {
  }

  /** The extra headers of the parameters win over the SOAP defaults of the request. */
  lemma AnsibleHeadersWin(params: Dict<Value>, id: string, now: int, parse: Parser, ser: Serializer, render: Render, k: string)
    requires AnsibleTyped(params)
    requires AnsibleRequest(params, id, now, parse, ser, render).Ok?
    requires UniqueKeys(StrDict(params, "headers")) && HasKey(StrDict(params, "headers"), k)
    ensures Get(AnsibleRequest(params, id, now, parse, ser, render).value.headers, k) == Get(StrDict(params, "headers"), k)
  {
    ExtraHeadersWin(Str(params, "soap_version", "1.1"), StrDefault(params, "soap_action", ""), [], StrDict(params, "headers"), k);
  }

  /** As written, a request whose body has to come from `body_dict` is never built: `to_string` does not exist. */
  lemma AsWrittenBodyDictRaises(params: Dict<Value>, id: string, now: int, parse: Parser, ser: Serializer)
    requires AnsibleTyped(params) && HasKey(params, "endpoint_url") && UsesBodyDict(params)
    requires DictXml(params, parse, ser).Ok?
    ensures AnsibleRequest(params, id, now, parse, ser, RenderAsWritten)
            == Fail(AttributeError("'XmlBody' object has no attribute 'to_string'"))
  {
  }

  /** As intended, the body content is the serialised tree of `body_dict` under its root tag. */
  lemma IntendedBodyDictRendered(params: Dict<Value>, parse: Parser, ser: Serializer)
    requires AnsibleTyped(params) && UsesBodyDict(params)
    requires DictXml(params, parse, ser).Ok?
    ensures BodyContent(params, parse, ser, RenderIntended)
            == Ok(ser(XmlBody.DictTree(Str(params, "body_root_tag", "Request"), SubDict(params, "body_dict"))))
  {
  }

  // ---------------------------------------------------------------------------
  // from_endpoint_and_action

  /**
   * `from_endpoint_and_action`: the version read from the endpoint through `versionOf`, the
   * action's namespace declared under 'ns' when it is set, the endpoint's URL and timeout.
   */
  function EndpointRequest(versionOf: Endpoint.Endpoint -> Result<string>, endpoint: Endpoint.Endpoint,
                           action: SoapAction.SoapAction, body: string, extra: Dict<string>, id: string, now: int,
                           parse: Parser): Result<S.Sent>
  {
    match versionOf(endpoint)
    case Fail(e) => Fail(e)
    case Ok(version) =>
      var declaration := if Endpoint.Given(action.namespace) then Some(("ns", action.namespace.value)) else None;
      match MakeEnvelope(body, S.EnvelopeVersion(version), declaration, None, parse)
      case Fail(e) => Fail(e)
      case Ok(envelope) =>
        Assemble(id, Some(endpoint.url), Some(action.value), Some(SoapEnvelope.Wire(envelope)), [], action.namespace,
                 version, endpoint.defaultTimeout, now, extra)
  }

  /** `from_endpoint_and_action`, step by step. */
  method FromEndpointAndAction(versionOf: Endpoint.Endpoint -> Result<string>, endpoint: Endpoint.Endpoint,
                               action: SoapAction.SoapAction, body: string, extra: Dict<string>, id: string, now: int,
                               parse: Parser) returns (r: Result<SoapRequest.SoapRequest>)
    ensures r.Fail? ==> EndpointRequest(versionOf, endpoint, action, body, extra, id, now, parse) == Fail(r.error)
    ensures r.Ok? ==> fresh(r.value)
                      && EndpointRequest(versionOf, endpoint, action, body, extra, id, now, parse) == Ok(S.Snapshot(r.value))
  {
    var version := versionOf(endpoint);
    if version.Fail? {
      return Fail(version.error);
    }
    var created := SoapEnvelope.FromBody(body, S.EnvelopeVersion(version.value), None, parse);
    if created.Fail? {
      return Fail(created.error);
    }
    var envelope := created.value;
    if Endpoint.Given(action.namespace) {
      envelope := SoapEnvelope.WithNamespace(envelope, "ns", action.namespace.value, parse).value;
    }
    var wire := SoapEnvelope.Build(envelope);
    r := Construct(id, Some(endpoint.url), Some(action.value), Some(wire), [], action.namespace, version.value,
                   endpoint.defaultTimeout, now, extra);
  }

  /** As written, reading `endpoint.soap_version` raises before anything else happens. */
  lemma AsWrittenFromEndpointRaises(endpoint: Endpoint.Endpoint, action: SoapAction.SoapAction, body: string,
                                    extra: Dict<string>, id: string, now: int, parse: Parser)
    ensures EndpointRequest(S.SoapVersionAsWritten, endpoint, action, body, extra, id, now, parse)
            == Fail(AttributeError("'Endpoint' object has no attribute 'soap_version'"))
  {
  }

  /**
   * With the endpoint's default version, the request takes the endpoint's URL, timeout and version
   * and the action as SOAP action, and its body is the envelope declaring the action's namespace
   * under 'ns' exactly when the action has one.
   */
  lemma EndpointRequestShape(endpoint: Endpoint.Endpoint, action: SoapAction.SoapAction, body: string,
                             extra: Dict<string>, id: string, now: int, parse: Parser)
    requires Endpoint.Valid(endpoint) && SoapEnvelope.Valid(SoapEnvelope.SoapEnvelope(body, SoapEnvelope.SoapVersion.V1_1, None, None), parse)
    requires S.HeadersGiven(extra)
    ensures var r := EndpointRequest(S.SoapVersionIntended, endpoint, action, body, extra, id, now, parse);
            && r.Ok?
            && r.value.endpointUrl == endpoint.url && r.value.timeout == endpoint.defaultTimeout
            && r.value.soapVersion == endpoint.defaultSoapVersion && r.value.soapAction == Some(action.value)
            && r.value.namespace == action.namespace
            && r.value.body == SoapEnvelope.Wire(SoapEnvelope.SoapEnvelope(body, S.EnvelopeVersion(endpoint.defaultSoapVersion), None,
                 if Endpoint.Given(action.namespace) then Some([("ns", action.namespace.value)]) else None))
  {
  }

  // ---------------------------------------------------------------------------
  // from_dict

  /** The types of the entries read here; `headers`, when present, is a dict of strings. */
  predicate DictTyped(data: Dict<Value>) {
    && StrOrNone(data, "endpoint_url") && StrOrNone(data, "soap_action") && StrOrNone(data, "body")
    && StrOrNone(data, "namespace") && StrIfPresent(data, "soap_version") && IntIfPresent(data, "timeout")
    && (Get(data, "headers").None? || (Get(data, "headers").value.VDict? && AllStr(Get(data, "headers").value.entries)))
  }

  /** `from_dict`: KeyError for a missing `endpoint_url`, then for a missing `body`; the rest with defaults. */
  function DictRequest(data: Dict<Value>, id: string, now: int): (r: Result<S.Sent>)
    requires DictTyped(data)
    ensures !HasKey(data, "endpoint_url") ==> r == Fail(KeyError("endpoint_url"))
    ensures HasKey(data, "endpoint_url") && !HasKey(data, "body") ==> r == Fail(KeyError("body"))
  {
    match StrItem(data, "endpoint_url")
    case Fail(e) => Fail(e)
    case Ok(url) =>
      match StrItem(data, "body")
      case Fail(e) => Fail(e)
      case Ok(body) =>
        Assemble(id, url, StrDefault(data, "soap_action", ""), body, StrDict(data, "headers"), OptStr(data, "namespace"),
                 Str(data, "soap_version", "1.1"), Int(data, "timeout", 30), now, [])
  }

  /** `from_dict`, as one construction. */
  method FromDict(data: Dict<Value>, id: string, now: int) returns (r: Result<SoapRequest.SoapRequest>)
    requires DictTyped(data)
    ensures r.Fail? ==> DictRequest(data, id, now) == Fail(r.error)
    ensures r.Ok? ==> fresh(r.value) && DictRequest(data, id, now) == Ok(S.Snapshot(r.value))
  {
    var url := StrItem(data, "endpoint_url");
    if url.Fail? {
      return Fail(url.error);
    }
    var body := StrItem(data, "body");
    if body.Fail? {
      return Fail(body.error);
    }
    r := Construct(id, url.value, StrDefault(data, "soap_action", ""), body.value, StrDict(data, "headers"),
                   OptStr(data, "namespace"), Str(data, "soap_version", "1.1"), Int(data, "timeout", 30), now, []);
  }

  /**
   * A dict holding only a URL and a body gives a SOAP 1.1 request with an empty action, no
   * namespace, timeout 30 and the SOAP 1.1 content type as its only header.
   */
  lemma DictDefaults(url: string, body: string, id: string, now: int)
    requires |url| > 0 && |body| > 0
    ensures DictTyped([("endpoint_url", VStr(url)), ("body", VStr(body))])
    ensures var r := DictRequest([("endpoint_url", VStr(url)), ("body", VStr(body))], id, now);
            && r.Ok? && r.value.endpointUrl == url && r.value.body == body
            && r.value.soapAction == Some("") && r.value.namespace.None?
            && r.value.soapVersion == "1.1" && r.value.timeout == 30
            && r.value.headers == [("Content-Type", SoapRequest.Soap11ContentType)]
  {
    var data := [("endpoint_url", VStr(url)), ("body", VStr(body))];
    assert Keys(data) == ["endpoint_url", "body"];
    assert Get(data, "endpoint_url") == Some(VStr(url)) && Get(data, "body") == Some(VStr(body));
    assert !HasKey(data, "soap_action") && !HasKey(data, "namespace") && !HasKey(data, "soap_version");
    assert !HasKey(data, "timeout") && !HasKey(data, "headers");
  }
}
