/** The SOAP request entity: construction checks, SOAP header defaults, custom headers and the envelope text. */
module SoapRequest {
  import opened Wrappers
  import opened Strings
  import opened Dicts
  import SoapEnvelope

  /** Python truthiness of an optional string. */
  predicate Given(s: Option<string>) {
    s.Some? && |s.value| > 0
  }

  /** The first failed construction check, in the order `__post_init__` makes them. */
  function CheckError(endpointUrl: Option<string>, body: Option<string>, soapVersion: string, timeout: int): (r: Option<Exception>)
    ensures r.None? <==> Given(endpointUrl) && Given(body) && soapVersion in ["1.1", "1.2"] && timeout > 0
    ensures !Given(endpointUrl) ==> r == Some(ValueError("endpoint_url ist erforderlich"))
    ensures Given(endpointUrl) && !Given(body) ==> r == Some(ValueError("body ist erforderlich"))
    ensures Given(endpointUrl) && Given(body) && soapVersion !in ["1.1", "1.2"] ==>
              r == Some(ValueError("soap_version muss '1.1' oder '1.2' sein"))
    ensures Given(endpointUrl) && Given(body) && soapVersion in ["1.1", "1.2"] && timeout <= 0 ==>
              r == Some(ValueError("timeout muss größer als 0 sein"))
  {
    if !Given(endpointUrl) then Some(ValueError("endpoint_url ist erforderlich"))
    else if !Given(body) then Some(ValueError("body ist erforderlich"))
    else if soapVersion !in ["1.1", "1.2"] then Some(ValueError("soap_version muss '1.1' oder '1.2' sein"))
    else if timeout <= 0 then Some(ValueError("timeout muss größer als 0 sein"))
    else None
  }

  const Soap11ContentType: string := "text/xml; charset=utf-8"
  const Soap12ContentType: string := "application/soap+xml; charset=utf-8"

  /** The Content-Type SOAP 1.2 announces: the media type, with the action as a parameter when there is one. */
  function Soap12Type(soapAction: Option<string>): (r: string)
    ensures Given(soapAction) ==> r == Soap12ContentType + "; action=\"" + soapAction.value + "\""
    ensures !Given(soapAction) ==> r == Soap12ContentType
  {
    var contentType := Soap12ContentType;
    if Given(soapAction) then contentType + "; action=\"" + soapAction.value + "\"" else contentType
  }

  /** `_ensure_soap_headers`: the version's defaults, each set only when the caller did not set that header. */
  function EnsureHeaders(soapVersion: string, soapAction: Option<string>, headers: Dict<string>): Dict<string> {
    if soapVersion == "1.1" then
      var h := SetDefault(headers, "Content-Type", Soap11ContentType);
      if Given(soapAction) then SetDefault(h, "SOAPAction", "\"" + soapAction.value + "\"") else h
    else if soapVersion == "1.2" then
      SetDefault(headers, "Content-Type", Soap12Type(soapAction))
    else headers
  }

  lemma SetDefaultGet(d: Dict<string>, k: string, v: string, k': string)
    ensures Get(SetDefault(d, k, v), k') == if k' == k && !HasKey(d, k) then Some(v) else Get(d, k')
  {
    if !HasKey(d, k) {
      if k' == k { GetSetSame(d, k, v); } else { GetSetOther(d, k, v, k'); }
    }
  }

  /** A header the caller set keeps the caller's value; the defaults never overwrite. */
  lemma CallerHeadersKept(soapVersion: string, soapAction: Option<string>, headers: Dict<string>, k: string)
    requires HasKey(headers, k)
    ensures Get(EnsureHeaders(soapVersion, soapAction, headers), k) == Get(headers, k)
  {
    HeaderDefaults(soapVersion, soapAction, headers, k);
  }

  /** The header table `_ensure_soap_headers` produces, key by key. */
  lemma HeaderDefaults(soapVersion: string, soapAction: Option<string>, headers: Dict<string>, k: string)
    ensures var h := EnsureHeaders(soapVersion, soapAction, headers);
            Get(h, k) ==
              if HasKey(headers, k) then Get(headers, k)
              else if soapVersion == "1.1" && k == "Content-Type" then Some(Soap11ContentType)
              else if soapVersion == "1.1" && k == "SOAPAction" && Given(soapAction) then Some("\"" + soapAction.value + "\"")
              else if soapVersion == "1.2" && k == "Content-Type" then Some(Soap12Type(soapAction))
              else None
  {
    if soapVersion == "1.1" {
      var h := SetDefault(headers, "Content-Type", Soap11ContentType);
      SetDefaultGet(headers, "Content-Type", Soap11ContentType, k);
      if Given(soapAction) {
        SetDefaultGet(h, "SOAPAction", "\"" + soapAction.value + "\"", k);
        SetDefaultGet(headers, "Content-Type", Soap11ContentType, "SOAPAction");
      }
    } else if soapVersion == "1.2" {
      SetDefaultGet(headers, "Content-Type", Soap12Type(soapAction), k);
    }
    if !HasKey(headers, k) {
      assert Get(headers, k).None?;
    }
  }

  /** SOAP 1.2 never gains a SOAPAction header; the action travels in the Content-Type. */
  lemma NoSoapActionHeaderIn12(soapAction: Option<string>, headers: Dict<string>)
    ensures HasKey(EnsureHeaders("1.2", soapAction, headers), "SOAPAction") <==> HasKey(headers, "SOAPAction")
  {
    HeaderDefaults("1.2", soapAction, headers, "SOAPAction");
  }

  const EnvelopeMarker: string := "<soap:Envelope"
  const Declaration: string := "<?xml version=\"1.0\" encoding=\"utf-8\"?>\n"
  const BodyTail: string := "\n    </soap:Body>\n</soap:Envelope>"

  /** `xmlns:ns` for the request namespace, or nothing. */
  function NamespaceAttr(namespace: Option<string>): string {
    if Given(namespace) then " xmlns:ns=\"" + namespace.value + "\"" else ""
  }

  /** What follows `<soap:Envelope` up to the body: the declarations and the opening Body tag, indented. */
  function EnvelopeRest(soapNamespace: string, namespace: Option<string>): string {
    " xmlns:soap=\"" + soapNamespace + "\"" + NamespaceAttr(namespace) + ">\n    <soap:Body>\n        "
  }

  /** `get_soap_envelope`: the body itself when it already is an envelope, else the body wrapped in one. */
  function EnvelopeText(soapVersion: string, namespace: Option<string>, body: string): (r: string)
    ensures Contains(body, EnvelopeMarker) || Contains(body, "<SOAP-ENV:Envelope") ==> r == body
  {
    if Contains(body, EnvelopeMarker) || Contains(body, "<SOAP-ENV:Envelope") then body
    else
      var soapNamespace := if soapVersion == "1.1" then SoapEnvelope.SoapVersion.V1_1.Namespace() else SoapEnvelope.SoapVersion.V1_2.Namespace();
      Declaration + EnvelopeMarker + EnvelopeRest(soapNamespace, namespace) + body + BodyTail
  }

  /** The body always appears verbatim in the envelope text. */
  lemma BodyInEnvelope(soapVersion: string, namespace: Option<string>, body: string)
    ensures Contains(EnvelopeText(soapVersion, namespace, body), body)
  {
    var r := EnvelopeText(soapVersion, namespace, body);
    if r == body {
      assert r[0..|body|] == body;
      ContainsAt(r, body, 0);
    } else {
      var soapNamespace := if soapVersion == "1.1" then SoapEnvelope.SoapVersion.V1_1.Namespace() else SoapEnvelope.SoapVersion.V1_2.Namespace();
      ContainsMiddle(Declaration + EnvelopeMarker + EnvelopeRest(soapNamespace, namespace), body, BodyTail);
    }
  }

  /** The envelope text is itself an envelope, so asking again returns it unchanged. */
  lemma EnvelopeStable(soapVersion: string, namespace: Option<string>, body: string)
    ensures var r := EnvelopeText(soapVersion, namespace, body);
            Contains(r, EnvelopeMarker) || Contains(r, "<SOAP-ENV:Envelope")
    ensures var r := EnvelopeText(soapVersion, namespace, body);
            EnvelopeText(soapVersion, namespace, r) == r
  {
    var r := EnvelopeText(soapVersion, namespace, body);
    if r != body {
      var soapNamespace := if soapVersion == "1.1" then SoapEnvelope.SoapVersion.V1_1.Namespace() else SoapEnvelope.SoapVersion.V1_2.Namespace();
      WrappedHasMarker(Declaration, EnvelopeRest(soapNamespace, namespace), body, BodyTail);
    }
  }

  lemma WrappedHasMarker(decl: string, rest: string, body: string, tail: string)
    ensures Contains(decl + EnvelopeMarker + rest + body + tail, EnvelopeMarker)
  {
    ContainsMiddle(decl, EnvelopeMarker, rest);
    ContainsInfix("", decl + EnvelopeMarker + rest, body + tail, EnvelopeMarker);
    assert "" + (decl + EnvelopeMarker + rest) + (body + tail) == decl + EnvelopeMarker + rest + body + tail;
  }

  /** A SOAP request; only its headers change after construction. */
  class SoapRequest {
    var id: string
    var endpointUrl: string
    var soapAction: Option<string>
    var body: string
    var headers: Dict<string>
    var namespace: Option<string>
    var soapVersion: string
    var timeout: int
    /** `created_at`, as the clock reading passed in */
    var createdAt: int

    /** What construction guarantees. */
    predicate Valid()
      reads this
    {
      |endpointUrl| > 0 && |body| > 0 && soapVersion in ["1.1", "1.2"] && timeout > 0
    }

    constructor (id: string, endpointUrl: string, soapAction: Option<string>, body: string, headers: Dict<string>,
                 namespace: Option<string>, soapVersion: string, timeout: int, now: int)
      requires CheckError(Some(endpointUrl), Some(body), soapVersion, timeout).None?
      ensures Valid()
      ensures this.id == id && this.endpointUrl == endpointUrl && this.soapAction == soapAction && this.body == body
      ensures this.namespace == namespace && this.soapVersion == soapVersion && this.timeout == timeout
      ensures this.createdAt == now
      ensures this.headers == EnsureHeaders(soapVersion, soapAction, headers)
    {
      this.id := id;
      this.endpointUrl := endpointUrl;
      this.soapAction := soapAction;
      this.body := body;
      this.namespace := namespace;
      this.soapVersion := soapVersion;
      this.timeout := timeout;
      this.createdAt := now;
      this.headers := EnsureHeaders(soapVersion, soapAction, headers);
    }

    /** `add_header`: rejects an empty key or value; otherwise sets exactly that header. */
    method AddHeader(key: string, value: string) returns (r: Outcome)
      modifies this`headers
      ensures r.Raised? <==> |key| == 0 || |value| == 0
      ensures r.Raised? ==> r.error == ValueError("Header key und value dürfen nicht leer sein") && headers == old(headers)
      ensures r.Done? ==> headers == Set(old(headers), key, value)
    {
      if |key| == 0 || |value| == 0 {
        return Raised(ValueError("Header key und value dürfen nicht leer sein"));
      }
      headers := Set(headers, key, value);
      r := Done;
    }

    /** `get_soap_envelope` */
    function Envelope(): (r: string)
      reads this
      ensures Contains(r, body)
    {
      BodyInEnvelope(soapVersion, namespace, body);
      EnvelopeText(soapVersion, namespace, body)
    }

    /** `__eq__`: requests are the same entity exactly when their ids agree. */
    predicate Equals(other: SoapRequest)
      reads this, other
    {
      id == other.id
    }

    /** `__hash__` hashes the id. */
    function HashKey(): string
      reads this
    {
      id
    }
  }

  /** `SoapRequest(...)`: the checks in order, then the SOAP header defaults. */
  method Create(id: string, endpointUrl: Option<string>, soapAction: Option<string>, body: Option<string>,
                headers: Dict<string>, namespace: Option<string>, soapVersion: string, timeout: int, now: int)
    returns (r: Result<SoapRequest>)
    ensures r.Fail? <==> CheckError(endpointUrl, body, soapVersion, timeout).Some?
    ensures r.Fail? ==> r.error == CheckError(endpointUrl, body, soapVersion, timeout).value
    ensures r.Ok? ==> fresh(r.value) && r.value.Valid()
    ensures r.Ok? ==> r.value.id == id && r.value.endpointUrl == endpointUrl.value && r.value.body == body.value
    ensures r.Ok? ==> r.value.soapAction == soapAction && r.value.namespace == namespace
    ensures r.Ok? ==> r.value.soapVersion == soapVersion && r.value.timeout == timeout && r.value.createdAt == now
    ensures r.Ok? ==> r.value.headers == EnsureHeaders(soapVersion, soapAction, headers)
  {
    var err := CheckError(endpointUrl, body, soapVersion, timeout);
    if err.Some? {
      return Fail(err.value);
    }
    var request := new SoapRequest(id, endpointUrl.value, soapAction, body.value, headers, namespace, soapVersion, timeout, now);
    r := Ok(request);
  }
}
