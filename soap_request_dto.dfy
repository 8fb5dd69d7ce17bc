/**
 * The application layer's data transfer objects: the request input with its ordered checks,
 * and the response output with the dict handed back to Ansible.
 */
module SoapRequestDto {
  import opened Wrappers
  import opened Dicts
  import opened Values

  /** `SoapRequestDTO`: what the presentation layer collects for one request. */
  datatype RequestDto = RequestDto(
    endpointUrl: string,
    soapAction: string,
    body: Option<string>,
    bodyDict: Option<Dict<Value>>,
    bodyRootTag: string,
    namespace: Option<string>,
    namespacePrefix: Option<string>,
    skipRequestWrapper: Option<bool>,
    soapVersion: string,
    soapHeader: Option<string>,
    headers: Option<Dict<string>>,
    timeout: int,
    authType: string,
    username: Option<string>,
    password: Option<string>,
    certPath: Option<string>,
    keyPath: Option<string>,
    validate: bool,
    useCache: bool,
    maxRetries: int,
    extractXpath: Option<string>,
    stripNamespaces: bool)

  /** A DTO with the two required fields and every other field at its dataclass default. */
  function Defaults(endpointUrl: string, soapAction: string): (d: RequestDto)
    ensures d.body.None? && d.bodyDict.None? && d.bodyRootTag == "Request" && d.soapVersion == "1.1"
    ensures d.timeout == 30 && d.authType == "none" && d.validate && !d.useCache && d.maxRetries == 0
  {
    RequestDto(endpointUrl, soapAction, None, None, "Request", None, None, Some(false), "1.1", None, None, 30,
               "none", None, None, None, None, true, false, 0, None, false)
  }

  /** Python truthiness of an optional string. */
  predicate Given(s: Option<string>) {
    s.Some? && |s.value| > 0
  }

  /** Python truthiness of an optional dict. */
  predicate DictGiven<V>(d: Option<Dict<V>>) {
    d.Some? && |d.value| > 0
  }

  const AuthTypes: seq<string> := ["none", "basic", "digest", "ntlm", "certificate"]
  const CredentialAuthTypes: seq<string> := ["basic", "digest", "ntlm"]

  /**
   * The conditions `validate_input` checks, in its order, each with the message it reports when the
   * condition does not hold. The SOAP action is not among them.
   */
  function Checks(d: RequestDto): (cs: seq<(bool, string)>)
    ensures |cs| == 9
  {
    [(|d.endpointUrl| > 0, "endpoint_url ist erforderlich"),
     (Given(d.body) || DictGiven(d.bodyDict), "Entweder body oder body_dict muss angegeben werden"),
     (!(Given(d.body) && DictGiven(d.bodyDict)), "body und body_dict können nicht gleichzeitig angegeben werden"),
     (d.soapVersion in ["1.1", "1.2"], "soap_version muss 1.1 oder 1.2 sein"),
     (d.authType in AuthTypes, "Ungültiger auth_type: " + d.authType),
     (d.authType in CredentialAuthTypes ==> Given(d.username) && Given(d.password),
      d.authType + " Auth benötigt username und password"),
     (d.authType == "certificate" ==> Given(d.certPath), "certificate Auth benötigt cert_path"),
     (d.timeout >= 1, "timeout muss mindestens 1 Sekunde sein"),
     (d.maxRetries >= 0, "max_retries kann nicht negativ sein")]
  }

  /** Every check holds. */
  predicate InputValid(d: RequestDto) {
    && |d.endpointUrl| > 0
    && (Given(d.body) || DictGiven(d.bodyDict))
    && !(Given(d.body) && DictGiven(d.bodyDict))
    && d.soapVersion in ["1.1", "1.2"]
    && d.authType in AuthTypes
    && (d.authType in CredentialAuthTypes ==> Given(d.username) && Given(d.password))
    && (d.authType == "certificate" ==> Given(d.certPath))
    && d.timeout >= 1
    && d.maxRetries >= 0
  }

  /** `validate_input`: `(True, None)` when every check holds, else `(False, message)` of the first that fails. */
  function ValidateInput(d: RequestDto): (r: (bool, Option<string>))
    ensures r.0 <==> InputValid(d)
    ensures r.0 <==> r.1.None?
  {
    if |d.endpointUrl| == 0 then (false, Some("endpoint_url ist erforderlich"))
    else if !Given(d.body) && !DictGiven(d.bodyDict) then (false, Some("Entweder body oder body_dict muss angegeben werden"))
    else if Given(d.body) && DictGiven(d.bodyDict) then (false, Some("body und body_dict können nicht gleichzeitig angegeben werden"))
    else if d.soapVersion !in ["1.1", "1.2"] then (false, Some("soap_version muss 1.1 oder 1.2 sein"))
    else if d.authType !in AuthTypes then (false, Some("Ungültiger auth_type: " + d.authType))
    else if d.authType in CredentialAuthTypes && (!Given(d.username) || !Given(d.password)) then
      (false, Some(d.authType + " Auth benötigt username und password"))
    else if d.authType == "certificate" && !Given(d.certPath) then (false, Some("certificate Auth benötigt cert_path"))
    else if d.timeout < 1 then (false, Some("timeout muss mindestens 1 Sekunde sein"))
    else if d.maxRetries < 0 then (false, Some("max_retries kann nicht negativ sein"))
    else (true, None)
  }

  /** The index of the first check that does not hold, if any. */
  function FirstFailing(cs: seq<(bool, string)>): (r: Option<nat>)
    ensures r.None? <==> forall i :: 0 <= i < |cs| ==> cs[i].0
    ensures r.Some? ==> r.value < |cs| && !cs[r.value].0 && forall j :: 0 <= j < r.value ==> cs[j].0
  {
    if |cs| == 0 then None
    else if !cs[0].0 then Some(0)
    else
      var rest := FirstFailing(cs[1..]);
      if rest.None? then None else Some(rest.value + 1)
  }

  /**
   * The result is decided by the first check in order that does not hold: its message is reported,
   * and the checks after it do not matter. No failing check means `(True, None)`.
   */
  lemma ValidateInputFirstFailure(d: RequestDto)
    ensures var f := FirstFailing(Checks(d));
            ValidateInput(d) == if f.None? then (true, None) else (false, Some(Checks(d)[f.value].1))
  {
    var cs := Checks(d);
    assert cs[0].0 <==> |d.endpointUrl| > 0;
    assert cs[1].0 <==> Given(d.body) || DictGiven(d.bodyDict);
    assert cs[2].0 <==> !(Given(d.body) && DictGiven(d.bodyDict));
    assert cs[3].0 <==> d.soapVersion in ["1.1", "1.2"];
    assert cs[4].0 <==> d.authType in AuthTypes;
    assert cs[5].0 <==> (d.authType in CredentialAuthTypes ==> Given(d.username) && Given(d.password));
    assert cs[6].0 <==> (d.authType == "certificate" ==> Given(d.certPath));
    assert cs[7].0 <==> d.timeout >= 1;
    assert cs[8].0 <==> d.maxRetries >= 0;
  }

  /** The SOAP action plays no part in the checks. */
  lemma SoapActionUnchecked(d: RequestDto, action: string)
    ensures ValidateInput(d.(soapAction := action)) == ValidateInput(d)
  {
  }

  /** The default auth type 'none' needs no credentials: a DTO with a URL and a body passes as it stands. */
  lemma DefaultsValid(url: string, action: string, body: string)
    requires |url| > 0 && |body| > 0
    ensures ValidateInput(Defaults(url, action).(body := Some(body))) == (true, None)
  {
  }

  /** The failures the DTO's tests expect, each with the message of the check that catches it. */
  lemma SampleFailures()
    ensures var bodyDict := [("Req", VDict([("a", VInt(1))]))];
            ValidateInput(Defaults("", "Action").(bodyDict := Some(bodyDict))) == (false, Some("endpoint_url ist erforderlich"))
    ensures ValidateInput(Defaults("https://example.com", "Action"))
            == (false, Some("Entweder body oder body_dict muss angegeben werden"))
    ensures var bodyDict := [("Req", VDict([("a", VInt(1))]))];
            ValidateInput(Defaults("https://example.com", "Action").(body := Some("<xml />"), bodyDict := Some(bodyDict)))
            == (false, Some("body und body_dict können nicht gleichzeitig angegeben werden"))
    ensures ValidateInput(Defaults("https://example.com", "Action").(body := Some("<xml />"), timeout := 0))
            == (false, Some("timeout muss mindestens 1 Sekunde sein"))
    ensures ValidateInput(Defaults("https://example.com", "Action").(body := Some("<xml />"), maxRetries := -1))
            == (false, Some("max_retries kann nicht negativ sein"))
    ensures ValidateInput(Defaults("https://example.com", "Action").(body := Some("<xml />"), authType := "basic"))
            == (false, Some("basic" + " Auth benötigt username und password"))
  {
  }

  // ---------------------------------------------------------------------------
  // SoapResponseDTO

  /** `SoapResponseDTO`; the response time is kept in whole milliseconds. */
  datatype ResponseDto = ResponseDto(
    success: bool,
    statusCode: Option<int>,
    body: Option<string>,
    headers: Option<Dict<string>>,
    responseTimeMs: Option<int>,
    extractedData: Value,
    errorMessage: Option<string>)

  /** A dict of strings as a Python value. */
  function StrDictValue(h: Dict<string>): (r: Value)
    ensures r.VDict? && |r.entries| == |h|
    ensures forall i :: 0 <= i < |h| ==> r.entries[i] == (h[i].0, VStr(h[i].1))
  {
    if |h| == 0 then VDict([]) else VDict([(h[0].0, VStr(h[0].1))] + StrDictValue(h[1..]).entries)
  }

  /** An optional string or integer as a Python value. */
  function OptStrValue(s: Option<string>): Value {
    if s.Some? then VStr(s.value) else VNone
  }

  function OptIntValue(n: Option<int>): Value {
    if n.Some? then VInt(n.value) else VNone
  }

  /** One key, or nothing when the condition does not hold. */
  function EntryIf(present: bool, k: string, v: Value): (r: Dict<Value>)
    ensures Keys(r) == if present then [k] else []
  {
    if present then [(k, v)] else []
  }

  /** The keys after the first three. */
  function OptionalEntries(r: ResponseDto): Dict<Value> {
    EntryIf(DictGiven(r.headers), "headers", if r.headers.Some? then StrDictValue(r.headers.value) else VNone)
    + EntryIf(r.responseTimeMs.Some?, "response_time_ms", OptIntValue(r.responseTimeMs))
    + EntryIf(Truthy(r.extractedData), "extracted_data", r.extractedData)
    + EntryIf(Given(r.errorMessage), "error_message", OptStrValue(r.errorMessage))
  }

  /** The three keys every dict holds. */
  function FixedEntries(r: ResponseDto): (d: Dict<Value>)
    ensures Keys(d) == ["success", "status_code", "body"]
  {
    [("success", VBool(r.success)), ("status_code", OptIntValue(r.statusCode)), ("body", OptStrValue(r.body))]
  }

  /** `SoapResponseDTO.to_dict` */
  function ResponseToDict(r: ResponseDto): Dict<Value> {
    FixedEntries(r) + OptionalEntries(r)
  }

  lemma OptionalKeys(r: ResponseDto)
    ensures Keys(OptionalEntries(r)) ==
              (if DictGiven(r.headers) then ["headers"] else []) + (if r.responseTimeMs.Some? then ["response_time_ms"] else [])
              + (if Truthy(r.extractedData) then ["extracted_data"] else []) + (if Given(r.errorMessage) then ["error_message"] else [])
  {
    var h := EntryIf(DictGiven(r.headers), "headers", if r.headers.Some? then StrDictValue(r.headers.value) else VNone);
    var t := EntryIf(r.responseTimeMs.Some?, "response_time_ms", OptIntValue(r.responseTimeMs));
    var x := EntryIf(Truthy(r.extractedData), "extracted_data", r.extractedData);
    var e := EntryIf(Given(r.errorMessage), "error_message", OptStrValue(r.errorMessage));
    KeysAppend(h, t);
    KeysAppend(h + t, x);
    KeysAppend(h + t + x, e);
  }

  /** The dict always holds success, status code and body with the DTO's values. */
  lemma ResponseDictFields(r: ResponseDto)
    ensures var d := ResponseToDict(r);
            && Get(d, "success") == Some(VBool(r.success))
            && Get(d, "status_code") == Some(OptIntValue(r.statusCode))
            && Get(d, "body") == Some(OptStrValue(r.body))
  {
    var d := ResponseToDict(r);
    var front := FixedEntries(r);
    assert d[0] == front[0] && d[1] == front[1] && d[2] == front[2];
    GetFirstAt(d, "success", 0);
    GetFirstAt(d, "status_code", 1);
    GetFirstAt(d, "body", 2);
  }

  /** The keys in order: the fixed three, then each optional key whose condition holds. */
  lemma ResponseDictKeyList(r: ResponseDto)
    ensures Keys(ResponseToDict(r)) ==
              ["success", "status_code", "body"]
              + (if DictGiven(r.headers) then ["headers"] else []) + (if r.responseTimeMs.Some? then ["response_time_ms"] else [])
              + (if Truthy(r.extractedData) then ["extracted_data"] else []) + (if Given(r.errorMessage) then ["error_message"] else [])
  {
    KeysAppend(FixedEntries(r), OptionalEntries(r));
    OptionalKeys(r);
  }

  /**
   * Headers appear only when there are any, the response time exactly when it is known, and the
   * extracted data and the error message only when they are truthy.
   */
  lemma ResponseDictKeys(r: ResponseDto)
    ensures var d := ResponseToDict(r);
            && (HasKey(d, "headers") <==> DictGiven(r.headers))
            && (HasKey(d, "response_time_ms") <==> r.responseTimeMs.Some?)
            && (HasKey(d, "extracted_data") <==> Truthy(r.extractedData))
            && (HasKey(d, "error_message") <==> Given(r.errorMessage))
  {
    ResponseDictKeyList(r);
    var f: seq<string> := ["success", "status_code", "body"];
    var h: seq<string> := if DictGiven(r.headers) then ["headers"] else [];
    var t: seq<string> := if r.responseTimeMs.Some? then ["response_time_ms"] else [];
    var x: seq<string> := if Truthy(r.extractedData) then ["extracted_data"] else [];
    var e: seq<string> := if Given(r.errorMessage) then ["error_message"] else [];
    assert Keys(ResponseToDict(r)) == f + h + t + x + e;
    assert "headers" !in f && "headers" !in t && "headers" !in x && "headers" !in e;
    assert "response_time_ms" !in f && "response_time_ms" !in h && "response_time_ms" !in x && "response_time_ms" !in e;
    assert "extracted_data" !in f && "extracted_data" !in h && "extracted_data" !in t && "extracted_data" !in e;
    assert "error_message" !in f && "error_message" !in h && "error_message" !in t && "error_message" !in x;
  }

  /** With headers present, the dict carries them unchanged. */
  lemma ResponseDictHeaders(r: ResponseDto)
    requires DictGiven(r.headers)
    ensures Get(ResponseToDict(r), "headers") == Some(StrDictValue(r.headers.value))
  {
    var d := ResponseToDict(r);
    OptionalKeys(r);
    KeysAppend(d[..3], OptionalEntries(r));
    assert d[..3] + OptionalEntries(r) == d;
    assert d[3] == ("headers", StrDictValue(r.headers.value));
    GetFirstAt(d, "headers", 3);
  }
}
