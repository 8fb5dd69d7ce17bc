/**
 * The validation service of the plugin layer: an accumulator of errors and warnings, and the
 * request, endpoint and SOAP-structure checks that fill it. Only errors make a result invalid.
 */
module ValidationService {
  import opened Wrappers
  import opened Strings
  import opened Dicts
  import opened Values
  import Url
  import PlainXmlBody
  import SoapRequest
  import Endpoint

  /** `ValidationResult`: starts valid; an error makes it invalid for good, a warning never does. */
  class ValidationResult {
    var isValid: bool
    var errors: seq<string>
    var warnings: seq<string>

    /** The flag always agrees with the error list. */
    predicate Valid()
      reads this
    {
      isValid <==> |errors| == 0
    }

    constructor ()
      ensures Valid() && isValid
      ensures errors == [] && warnings == []
    {
      isValid := true;
      errors := [];
      warnings := [];
    }

    /** `add_error` */
    method AddError(message: string)
      modifies this
      ensures Valid() && !isValid
      ensures errors == old(errors) + [message]
      ensures warnings == old(warnings)
    {
      isValid := false;
      errors := errors + [message];
    }

    /** `add_warning` */
    method AddWarning(message: string)
      modifies this`warnings
      ensures warnings == old(warnings) + [message]
    {
      warnings := warnings + [message];
    }

    /** `to_dict` */
    function ToDict(): (r: Dict<Value>)
      reads this
      ensures Keys(r) == ["valid", "errors", "warnings"]
      ensures Valid() ==> (r[0].1 == VBool(true) <==> |errors| == 0)
      ensures r[1].1 == StrList(errors) && r[2].1 == StrList(warnings)
    {
      [("valid", VBool(isValid)), ("errors", StrList(errors)), ("warnings", StrList(warnings))]
    }
  }

  /** A Python list of strings. */
  function StrList(xs: seq<string>): (r: Value)
    ensures r.VList? && |r.items| == |xs| && forall i :: 0 <= i < |xs| ==> r.items[i] == VStr(xs[i])
  {
    VList(seq(|xs|, i requires 0 <= i < |xs| => VStr(xs[i])))
  }

  /** Python truthiness of an optional string. */
  predicate Given(s: Option<string>) {
    s.Some? && |s.value| > 0
  }

  const MaxBodyLength: nat := 1024 * 1024
  const MaxTimeout: int := 300

  /** The message of the URL check, as `Url.from_string` reports a failure. */
  function UrlError(url: string): (r: Option<string>)
    ensures r.None? <==> Url.IsValid(Strip(url))
  {
    match Url.FromString(url)
    case Ok(_) => None
    case Fail(e) => Some("Ungültige URL: " + e.Message())
  }

  /** The URL check of both validations: records its error, if any. */
  method AddUrlError(result: ValidationResult, url: string)
    requires result.Valid()
    modifies result
    ensures result.Valid()
    ensures result.errors == old(result.errors) + UrlErrors(url)
    ensures result.warnings == old(result.warnings)
  {
    var urlError := UrlError(url);
    if urlError.Some? {
      result.AddError(urlError.value);
    }
  }

  /** The URL check's error as a list. */
  function UrlErrors(url: string): (r: seq<string>)
    ensures |r| <= 1
    ensures |r| == 0 <==> Url.IsValid(Strip(url))
  {
    if UrlError(url).Some? then [UrlError(url).value] else []
  }

  // ---------------------------------------------------------------------------
  // validate_request

  /** The error for a timeout that is not positive. */
  function TimeoutErrors(timeout: int): (r: seq<string>)
    ensures |r| == 0 <==> timeout > 0
  {
    if timeout <= 0 then ["Timeout muss größer als 0 sein"] else []
  }

  /** The error for a SOAP version other than 1.1 and 1.2. */
  function VersionErrors(soapVersion: string): (r: seq<string>)
    ensures |r| == 0 <==> soapVersion in ["1.1", "1.2"]
  {
    if soapVersion !in ["1.1", "1.2"] then ["Ungültige SOAP Version: " + soapVersion] else []
  }

  /** The errors `validate_request` records, in order. */
  function RequestErrors(endpointUrl: string, timeout: int, soapVersion: string): seq<string> {
    UrlErrors(endpointUrl) + TimeoutErrors(timeout) + VersionErrors(soapVersion)
  }

  /** The warning for a body that is no envelope. */
  function EnvelopeWarnings(body: string): (r: seq<string>)
    ensures |r| == 0 <==> PlainXmlBody.IsSoapEnvelope(PlainXmlBody.FromString(body))
  {
    if !PlainXmlBody.IsSoapEnvelope(PlainXmlBody.FromString(body)) then ["Body ist kein SOAP Envelope"] else []
  }

  /** The warning for a body over 1 MiB. */
  function SizeWarnings(body: string): (r: seq<string>)
    ensures |r| == 0 <==> |body| <= MaxBodyLength
  {
    if PlainXmlBody.Len(PlainXmlBody.FromString(body)) > MaxBodyLength then ["Body ist größer als 1 MB"] else []
  }

  /** The warning for a timeout over 300 seconds. */
  function LongTimeoutWarnings(timeout: int): (r: seq<string>)
    ensures |r| == 0 <==> timeout <= MaxTimeout
  {
    if timeout > MaxTimeout then ["Timeout ist sehr hoch (> 300 Sekunden)"] else []
  }

  /** The warning for a missing SOAP action. */
  function ActionWarnings(soapAction: Option<string>): (r: seq<string>)
    ensures |r| == 0 <==> Given(soapAction)
  {
    if !Given(soapAction) then ["Keine SOAP Action definiert"] else []
  }

  /** The warnings `validate_request` records, in order. */
  function RequestWarnings(body: string, timeout: int, soapAction: Option<string>): seq<string> {
    EnvelopeWarnings(body) + SizeWarnings(body) + LongTimeoutWarnings(timeout) + ActionWarnings(soapAction)
  }

  /** The body checks of `validate_request`: warnings only. */
  method CheckBody(result: ValidationResult, body: string)
    requires result.Valid()
    modifies result
    ensures result.Valid()
    ensures result.errors == old(result.errors)
    ensures result.warnings == old(result.warnings) + EnvelopeWarnings(body) + SizeWarnings(body)
  {
    var xml := PlainXmlBody.FromString(body);
    if !PlainXmlBody.IsSoapEnvelope(xml) {
      result.AddWarning("Body ist kein SOAP Envelope");
    }
    if PlainXmlBody.Len(xml) > MaxBodyLength {
      result.AddWarning("Body ist größer als 1 MB");
    }
  }

  /** The timeout check of `validate_request`: an error, or a warning for a long timeout. */
  method CheckTimeout(result: ValidationResult, timeout: int)
    requires result.Valid()
    modifies result
    ensures result.Valid()
    ensures result.errors == old(result.errors) + TimeoutErrors(timeout)
    ensures result.warnings == old(result.warnings) + LongTimeoutWarnings(timeout)
  {
    if timeout <= 0 {
      result.AddError("Timeout muss größer als 0 sein");
    } else if timeout > MaxTimeout {
      result.AddWarning("Timeout ist sehr hoch (> 300 Sekunden)");
    }
  }

  /** The action and version checks of `validate_request`. */
  method CheckActionAndVersion(result: ValidationResult, soapAction: Option<string>, soapVersion: string)
    requires result.Valid()
    modifies result
    ensures result.Valid()
    ensures result.errors == old(result.errors) + VersionErrors(soapVersion)
    ensures result.warnings == old(result.warnings) + ActionWarnings(soapAction)
  {
    if !Given(soapAction) {
      result.AddWarning("Keine SOAP Action definiert");
    }
    if soapVersion !in ["1.1", "1.2"] {
      result.AddError("Ungültige SOAP Version: " + soapVersion);
    }
  }

  /**
   * `validate_request`. The body is read through the unvalidated XmlBody, whose `from_string`
   * never raises, so the "Ungültiges XML" branch cannot be reached.
   */
  method ValidateRequest(request: SoapRequest.SoapRequest) returns (result: ValidationResult)
    ensures fresh(result) && result.Valid()
    ensures result.errors == RequestErrors(request.endpointUrl, request.timeout, request.soapVersion)
    ensures result.warnings == RequestWarnings(request.body, request.timeout, request.soapAction)
  {
    result := CheckAfterUrl(UrlErrors(request.endpointUrl), request.body, request.timeout, request.soapAction, request.soapVersion);
  }

  /** The checks of `validate_request`, given the errors its URL check recorded first. */
  method CheckAfterUrl(urlErrors: seq<string>, body: string, timeout: int, soapAction: Option<string>, soapVersion: string) returns (result: ValidationResult)
    requires |urlErrors| <= 1
    ensures fresh(result) && result.Valid()
    ensures result.errors == urlErrors + TimeoutErrors(timeout) + VersionErrors(soapVersion)
    ensures result.warnings == RequestWarnings(body, timeout, soapAction)
  {
    result := new ValidationResult();
    if |urlErrors| == 1 {
      result.AddError(urlErrors[0]);
    }
    assert result.errors == urlErrors && result.warnings == [];
    CheckBody(result, body);
    assert result.warnings == EnvelopeWarnings(body) + SizeWarnings(body);
    CheckTimeout(result, timeout);
    assert result.errors == urlErrors + TimeoutErrors(timeout);
    assert result.warnings == EnvelopeWarnings(body) + SizeWarnings(body) + LongTimeoutWarnings(timeout);
    CheckActionAndVersion(result, soapAction, soapVersion);
  }

  /** A request is valid exactly when its URL, timeout and version pass; body, action and size only warn. */
  lemma RequestValidIff(endpointUrl: string, timeout: int, soapVersion: string)
    ensures |RequestErrors(endpointUrl, timeout, soapVersion)| == 0 <==>
              Url.IsValid(Strip(endpointUrl)) && timeout > 0 && soapVersion in ["1.1", "1.2"]
  {
  }

  /** A body without the letter 'v' in either case is not an envelope. */
  lemma NoEnvelopeWithoutV(body: string)
    requires forall i :: 0 <= i < |body| ==> body[i] != 'v' && body[i] != 'V'
    ensures !PlainXmlBody.IsSoapEnvelope(PlainXmlBody.FromString(body))
  {
    var l := Lower(body);
    forall i | 0 <= i < |l|
      ensures l[i] != 'v'
    {
      assert l[i] == LowerChar(body[i]);
      if 'A' <= body[i] <= 'Z' {
        assert body[i] as int != 'V' as int;
      }
    }
    assert "<soap:envelope"[8] == 'v' && "<envelope"[3] == 'v';
    NotContainsMissing(l, "<soap:envelope", 8);
    NotContainsMissing(l, "<envelope", 3);
  }

  /**
   * A body without the letter 'v', such as the unclosed "<not-closed", is no envelope and only draws
   * a warning.
   */
  lemma NotClosedBodyWarns(endpointUrl: string, body: string, timeout: int, soapVersion: string, soapAction: Option<string>)
    requires Url.IsValid(Strip(endpointUrl)) && 0 < timeout <= 300 && soapVersion in ["1.1", "1.2"]
    requires Given(soapAction)
    requires |body| <= MaxBodyLength && forall i :: 0 <= i < |body| ==> body[i] != 'v' && body[i] != 'V'
    ensures RequestErrors(endpointUrl, timeout, soapVersion) == []
    ensures RequestWarnings(body, timeout, soapAction) == ["Body ist kein SOAP Envelope"]
  {
    NoEnvelopeWithoutV(body);
  }

  /** A missing SOAP action only draws a warning. */
  lemma MissingActionWarns(endpointUrl: string, body: string, timeout: int, soapVersion: string)
    requires Url.IsValid(Strip(endpointUrl)) && timeout > 0 && soapVersion in ["1.1", "1.2"]
    ensures RequestErrors(endpointUrl, timeout, soapVersion) == []
    ensures "Keine SOAP Action definiert" in RequestWarnings(body, timeout, Some(""))
    ensures "Keine SOAP Action definiert" in RequestWarnings(body, timeout, None)
  {
  }

  // ---------------------------------------------------------------------------
  // validate_endpoint

  /** The auth error for a type that needs credentials or a certificate it lacks. */
  function AuthErrors(e: Endpoint.Endpoint): (r: seq<string>)
    ensures |r| <= 1
  {
    if !Endpoint.RequiresAuth(e) then []
    else
      var a := e.authType.value;
      if a in Endpoint.CredentialAuthTypes then
        if !Given(e.username) || !Given(e.password) then ["Auth-Type '" + a + "' erfordert Username und Password"] else []
      else if a == "certificate" then
        if !Given(e.certPath) then ["Certificate Auth erfordert cert_path"] else []
      else []
  }

  /** The error for a default timeout that is not positive. */
  function DefaultTimeoutErrors(e: Endpoint.Endpoint): (r: seq<string>)
    ensures |r| == 0 <==> e.defaultTimeout > 0
  {
    if e.defaultTimeout <= 0 then ["Default Timeout muss größer als 0 sein"] else []
  }

  /** The errors `validate_endpoint` records, in order. */
  function EndpointErrors(e: Endpoint.Endpoint): seq<string> {
    UrlErrors(e.url) + AuthErrors(e) + DefaultTimeoutErrors(e)
  }

  /** The warning `validate_endpoint` records for a valid URL that is not https. */
  function UrlWarnings(url: string): (r: seq<string>)
    ensures |r| > 0 ==> Url.IsValid(Strip(url)) && r == ["Endpoint verwendet kein HTTPS"]
  {
    match Url.FromString(url)
    case Fail(_) => []
    case Ok(u) => if !Url.IsSecure(u) then ["Endpoint verwendet kein HTTPS"] else []
  }

  /** The warnings `validate_endpoint` records. */
  function EndpointWarnings(e: Endpoint.Endpoint): seq<string> {
    UrlWarnings(e.url)
  }

  /** The URL check of `validate_endpoint`: an error for an invalid URL, a warning for one without https. */
  method CheckEndpointUrl(result: ValidationResult, url: string)
    requires result.Valid()
    modifies result
    ensures result.Valid()
    ensures result.errors == old(result.errors) + UrlErrors(url)
    ensures result.warnings == old(result.warnings) + UrlWarnings(url)
  {
    var error, warnings := UrlError(url), UrlWarnings(url);
    assert error.Some? ==> warnings == [];
    if error.Some? {
      result.AddError(error.value);
    } else if |warnings| > 0 {
      result.AddWarning("Endpoint verwendet kein HTTPS");
    }
  }

  /** The auth checks of `validate_endpoint`. */
  method CheckAuth(result: ValidationResult, e: Endpoint.Endpoint)
    requires result.Valid()
    modifies result
    ensures result.Valid()
    ensures result.errors == old(result.errors) + AuthErrors(e)
    ensures result.warnings == old(result.warnings)
  {
    if Endpoint.RequiresAuth(e) {
      var a := e.authType.value;
      if a in Endpoint.CredentialAuthTypes {
        if !Given(e.username) || !Given(e.password) {
          result.AddError("Auth-Type '" + a + "' erfordert Username und Password");
        }
      } else if a == "certificate" {
        if !Given(e.certPath) {
          result.AddError("Certificate Auth erfordert cert_path");
        }
      }
    }
  }

  /**
   * `validate_endpoint`. The auth config it fetches is never used and has no effect. Unknown auth types
   * draw no error here.
   */
  method ValidateEndpoint(e: Endpoint.Endpoint) returns (result: ValidationResult)
    ensures fresh(result) && result.Valid()
    ensures result.errors == EndpointErrors(e)
    ensures result.warnings == EndpointWarnings(e)
  {
    result := new ValidationResult();
    CheckEndpointUrl(result, e.url);
    assert result.errors == UrlErrors(e.url);
    CheckAuth(result, e);
    assert result.errors == UrlErrors(e.url) + AuthErrors(e);
    if e.defaultTimeout <= 0 {
      result.AddError("Default Timeout muss größer als 0 sein");
    }
  }

  /** An endpoint is valid exactly when its URL, its credentials for the auth type and its timeout pass. */
  lemma EndpointValidIff(e: Endpoint.Endpoint)
    ensures |EndpointErrors(e)| == 0 <==>
              && Url.IsValid(Strip(e.url))
              && (e.authType.Some? && e.authType.value in Endpoint.CredentialAuthTypes ==> Given(e.username) && Given(e.password))
              && (e.authType == Some("certificate") ==> Given(e.certPath))
              && e.defaultTimeout > 0
  {
    var u, a, t := UrlErrors(e.url), AuthErrors(e), DefaultTimeoutErrors(e);
    assert |EndpointErrors(e)| == |u| + |a| + |t|;
    AuthEmptyIff(e);
  }

  /** No auth error exactly when the auth type's credentials are given. */
  lemma AuthEmptyIff(e: Endpoint.Endpoint)
    ensures |AuthErrors(e)| == 0 <==>
              && (e.authType.Some? && e.authType.value in Endpoint.CredentialAuthTypes ==> Given(e.username) && Given(e.password))
              && (e.authType == Some("certificate") ==> Given(e.certPath))
  {
  }

  /** A constructed endpoint whose URL carries no surrounding blanks passes without errors. */
  lemma ConstructedEndpointPasses(e: Endpoint.Endpoint)
    requires Endpoint.Valid(e) && Strip(e.url) == e.url
    ensures EndpointErrors(e) == []
  {
    ConstructedUrl(e);
    ConstructedAuth(e);
    NoPartErrors(e);
  }

  lemma ConstructedUrl(e: Endpoint.Endpoint)
    requires Endpoint.Valid(e) && Strip(e.url) == e.url
    ensures UrlErrors(e.url) == []
  {
    assert Url.IsValid(e.url);
  }

  lemma ConstructedAuth(e: Endpoint.Endpoint)
    requires Endpoint.Valid(e)
    ensures AuthErrors(e) == []
  {
  }

  lemma NoPartErrors(e: Endpoint.Endpoint)
    requires UrlErrors(e.url) == [] && AuthErrors(e) == [] && e.defaultTimeout > 0
    ensures EndpointErrors(e) == []
  {
  }

  /** A plain http URL draws a warning, never an error. */
  lemma HttpWarnsOnly(e: Endpoint.Endpoint)
    requires Url.IsValid(Strip(e.url))
    ensures UrlErrors(e.url) == []
    ensures !Url.IsSecure(Url.Url(Strip(e.url))) <==> EndpointWarnings(e) == ["Endpoint verwendet kein HTTPS"]
  {
  }

  // ---------------------------------------------------------------------------
  // validate_soap_structure

  const SoapNamespaces: seq<string> := ["http://schemas.xmlsoap.org/soap/envelope/", "http://www.w3.org/2003/05/soap-envelope"]

  /** The loop over the declared namespaces: stops at the first SOAP envelope namespace. */
  method SoapNamespaceFound(namespaces: Dict<string>) returns (found: bool)
    ensures found <==> exists i :: 0 <= i < |namespaces| && namespaces[i].1 in SoapNamespaces
  {
    found := false;
    var i := 0;
    while i < |namespaces|
      invariant 0 <= i <= |namespaces|
      invariant !found
      invariant forall j :: 0 <= j < i ==> namespaces[j].1 !in SoapNamespaces
    {
      if namespaces[i].1 in SoapNamespaces {
        found := true;
        return;
      }
      i := i + 1;
    }
  }

  /** `validate_soap_structure` as a value: None when an exception other than ValueError escapes. */
  function StructureErrors(content: string, namespaces: Result<Dict<string>>, bodyContent: Result<Option<string>>): (r: Result<seq<string>>)
    ensures !PlainXmlBody.IsSoapEnvelope(PlainXmlBody.FromString(content)) ==> r == Ok(["Kein SOAP Envelope gefunden"])
  {
    if !PlainXmlBody.IsSoapEnvelope(PlainXmlBody.FromString(content)) then Ok(["Kein SOAP Envelope gefunden"])
    else match namespaces
      case Fail(e) => if e.ValueError? then Ok(["Ungültiges XML: " + e.Message()]) else Fail(e)
      case Ok(ns) =>
        var nsErrors := if exists i :: 0 <= i < |ns| && ns[i].1 in SoapNamespaces then [] else ["Kein gültiger SOAP Namespace gefunden"];
        match bodyContent
        case Fail(e) => if e.ValueError? then Ok(nsErrors + ["Ungültiges XML: " + e.Message()]) else Fail(e)
        case Ok(b) => Ok(nsErrors + (if !Given(b) then ["Kein SOAP Body gefunden"] else []))
  }

  /**
   * `validate_soap_structure`. The plugin XmlBody has neither `get_namespaces` nor `extract_body_content`,
   * so their outcomes on the content are parameters; an exception that is not a ValueError escapes.
   */
  method ValidateSoapStructure(content: string, namespaces: Result<Dict<string>>, bodyContent: Result<Option<string>>)
    returns (r: Result<ValidationResult>)
    ensures StructureErrors(content, namespaces, bodyContent).Fail? ==> r == Fail(StructureErrors(content, namespaces, bodyContent).error)
    ensures StructureErrors(content, namespaces, bodyContent).Ok? ==>
              && r.Ok? && fresh(r.value) && r.value.Valid() && r.value.warnings == []
              && r.value.errors == StructureErrors(content, namespaces, bodyContent).value
  {
    var result := new ValidationResult();
    var xml := PlainXmlBody.FromString(content);
    if !PlainXmlBody.IsSoapEnvelope(xml) {
      result.AddError("Kein SOAP Envelope gefunden");
      return Ok(result);
    }
    match namespaces {
      case Fail(e) =>
        if e.ValueError? {
          result.AddError("Ungültiges XML: " + e.Message());
          return Ok(result);
        }
        return Fail(e);
      case Ok(ns) =>
        var found := SoapNamespaceFound(ns);
        if !found {
          result.AddError("Kein gültiger SOAP Namespace gefunden");
        }
        match bodyContent {
          case Fail(e) =>
            if e.ValueError? {
              result.AddError("Ungültiges XML: " + e.Message());
              return Ok(result);
            }
            return Fail(e);
          case Ok(b) =>
            if !Given(b) {
              result.AddError("Kein SOAP Body gefunden");
            }
            return Ok(result);
        }
    }
  }

  /** Content that is not an envelope yields exactly one error, whatever the other lookups would give. */
  lemma NonEnvelopeOneError(content: string, namespaces: Result<Dict<string>>, bodyContent: Result<Option<string>>)
    requires !PlainXmlBody.IsSoapEnvelope(PlainXmlBody.FromString(content))
    ensures StructureErrors(content, namespaces, bodyContent).Ok?
    ensures |StructureErrors(content, namespaces, bodyContent).value| == 1
  {
  }

  /** An envelope with a SOAP namespace and a body passes; missing either one is an error. */
  lemma EnvelopeStructure(content: string, ns: Dict<string>, body: Option<string>)
    requires PlainXmlBody.IsSoapEnvelope(PlainXmlBody.FromString(content))
    ensures var r := StructureErrors(content, Ok(ns), Ok(body));
            && r.Ok?
            && (|r.value| == 0 <==> (exists i :: 0 <= i < |ns| && ns[i].1 in SoapNamespaces) && Given(body))
            && ("Kein SOAP Body gefunden" in r.value <==> !Given(body))
  {
    var r := StructureErrors(content, Ok(ns), Ok(body));
    if !Given(body) {
      assert r.value[|r.value| - 1] == "Kein SOAP Body gefunden";
    } else {
      assert forall i :: 0 <= i < |r.value| ==> r.value[i] == "Kein gültiger SOAP Namespace gefunden";
    }
  }
}
