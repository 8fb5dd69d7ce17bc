/**
 * Sending one SOAP request from the application layer: an optional endpoint check, the action
 * parsed from its string, one send (with or without retries), an optional extraction, and the
 * result with its Ansible dict. Each failure before the response short-circuits to a result
 * without a response.
 *
 * The domain service the use case calls is a parameter: its own module in this package is not
 * part of this model. The endpoint and the action are the core package's entities.
 */
module SendSoapRequestUseCase {
  import opened Wrappers
  import opened Dicts
  import opened Values
  import Endpoint
  import SoapAction
  import SoapResponse
  import V = ValidationService

  /** `SendSoapRequestCommand` */
  datatype Command = Command(
    endpoint: Endpoint.Endpoint,
    soapAction: string,
    bodyContent: Option<string>,
    namespace: Option<string>,
    namespacePrefix: Option<string>,
    customHeaders: Option<Dict<string>>,
    timeout: Option<int>,
    validateResponse: bool,
    useCache: bool,
    maxRetries: int,
    extractXpath: Option<string>,
    stripNamespaces: bool)

  /** `SendSoapRequestResult`; `extractedData` is `VNone` when nothing was extracted. */
  datatype SendResult = SendResult(
    success: bool,
    response: Option<SoapResponse.SoapResponse>,
    extractedData: Value,
    validationErrors: Option<seq<string>>,
    errorMessage: Option<string>)

  /** A result without a response, the shape of every short-circuit. */
  function Failed(errors: Option<seq<string>>, message: string): SendResult {
    SendResult(false, None, VNone, errors, Some(message))
  }

  /**
   * The service calls of the use case: a single send (endpoint, action, body, namespace declarations,
   * custom headers, cache flag), a send with retries (the last argument is the retry count), and the
   * extraction (xpath, namespace stripping).
   */
  datatype Service = Service(
    executeRequest: (Endpoint.Endpoint, SoapAction.SoapAction, Option<string>, Option<Dict<string>>, Option<Dict<string>>, bool)
                     -> Result<SoapResponse.SoapResponse>,
    executeWithRetry: (Endpoint.Endpoint, SoapAction.SoapAction, Option<string>, Option<Dict<string>>, Option<Dict<string>>, int)
                      -> Result<SoapResponse.SoapResponse>,
    transform: (SoapResponse.SoapResponse, string, bool) -> Result<Value>)

  /** Python truthiness of an optional string. */
  predicate Given(s: Option<string>) {
    s.Some? && |s.value| > 0
  }

  /** `{prefix: namespace}` when both are set, else None. */
  function Declarations(c: Command): (r: Option<Dict<string>>)
    ensures r.Some? <==> Given(c.namespace) && Given(c.namespacePrefix)
    ensures r.Some? ==> Get(r.value, c.namespacePrefix.value) == Some(c.namespace.value) && |r.value| == 1
  {
    if Given(c.namespace) && Given(c.namespacePrefix) then Some([(c.namespacePrefix.value, c.namespace.value)]) else None
  }

  /** The send: with retries when the command asks for any (no cache then), else once with its cache flag. */
  function Send(service: Service, c: Command, action: SoapAction.SoapAction): Result<SoapResponse.SoapResponse> {
    if c.maxRetries > 0 then
      service.executeWithRetry(c.endpoint, action, c.bodyContent, Declarations(c), c.customHeaders, c.maxRetries)
    else
      service.executeRequest(c.endpoint, action, c.bodyContent, Declarations(c), c.customHeaders, c.useCache)
  }

  /** The extraction: only with an xpath and a successful response; a failure is reported as data. */
  function Extracted(service: Service, c: Command, response: SoapResponse.SoapResponse): Value {
    if Given(c.extractXpath) && SoapResponse.IsSuccessful(response) then
      match service.transform(response, c.extractXpath.value, c.stripNamespaces)
      case Ok(v) => v
      case Fail(e) => VDict([("extraction_error", VStr(e.Message()))])
    else VNone
  }

  /** The result of a response: success is the response's own, and so is the message of a failure. */
  function Completed(service: Service, c: Command, response: SoapResponse.SoapResponse): SendResult {
    var ok := SoapResponse.IsSuccessful(response);
    SendResult(ok, Some(response), Extracted(service, c, response), None, if ok then None else response.errorMessage)
  }

  /** The use case once the action is parsed: a service exception is reported, a response completed. */
  function Sent(service: Service, c: Command, action: SoapAction.SoapAction): SendResult {
    match Send(service, c, action)
    case Fail(e) => Failed(None, RequestFailed(e))
    case Ok(response) => Completed(service, c, response)
  }

  /** The use case once the endpoint check is passed or skipped. */
  function Proceed(service: Service, c: Command): SendResult {
    match SoapAction.FromString(c.soapAction, c.namespace)
    case Fail(e) => Failed(None, InvalidAction(e))
    case Ok(action) => Sent(service, c, action)
  }

  /** What `execute` returns, given the errors the endpoint check reports. */
  function Decide(service: Service, c: Command, errors: seq<string>): SendResult {
    if c.validateResponse && |errors| > 0 then Failed(Some(errors), ValidationFailed)
    else Proceed(service, c)
  }

  const ValidationFailed := "Endpoint-Validierung fehlgeschlagen"

  function InvalidAction(e: Exception): string {
    "Ungültige SOAP Action: " + e.Message()
  }

  function RequestFailed(e: Exception): string {
    "Request fehlgeschlagen: " + e.Message()
  }

  /** `execute` */
  method Execute(service: Service, c: Command) returns (r: SendResult)
    ensures r == Decide(service, c, V.EndpointErrors(c.endpoint))
  {
    if c.validateResponse {
      var validation := V.ValidateEndpoint(c.endpoint);
      if !validation.isValid {
        return Failed(Some(validation.errors), ValidationFailed);
      }
    }
    r := SendParsed(service, c);
  }

  /** The body of `execute` after the endpoint check: parse the action, send, extract. */
  method SendParsed(service: Service, c: Command) returns (r: SendResult)
    ensures r == Proceed(service, c)
  {
    var action := SoapAction.FromString(c.soapAction, c.namespace);
    if action.Fail? {
      return Failed(None, InvalidAction(action.error));
    }
    var declarations := Declarations(c);
    var response: Result<SoapResponse.SoapResponse>;
    if c.maxRetries > 0 {
      response := service.executeWithRetry(c.endpoint, action.value, c.bodyContent, declarations, c.customHeaders, c.maxRetries);
    } else {
      response := service.executeRequest(c.endpoint, action.value, c.bodyContent, declarations, c.customHeaders, c.useCache);
    }
    assert response == Send(service, c, action.value);
    if response.Fail? {
      return Failed(None, RequestFailed(response.error));
    }
    var extracted := VNone;
    if Given(c.extractXpath) && SoapResponse.IsSuccessful(response.value) {
      var data := service.transform(response.value, c.extractXpath.value, c.stripNamespaces);
      extracted := if data.Ok? then data.value else VDict([("extraction_error", VStr(data.error.Message()))]);
    }
    var ok := SoapResponse.IsSuccessful(response.value);
    r := SendResult(ok, Some(response.value), extracted, None, if ok then None else response.value.errorMessage);
  }

  // ---------------------------------------------------------------------------
  // Properties of `execute`

  /**
   * A failed endpoint check, when asked for, ends the use case with the errors and no response,
   * whatever the service would have done.
   */
  lemma ValidationShortCircuits(service: Service, other: Service, c: Command, errors: seq<string>)
    requires c.validateResponse && |errors| > 0
    ensures Decide(service, c, errors) == Failed(Some(errors), ValidationFailed)
    ensures Decide(other, c, errors) == Decide(service, c, errors)
  {
  }

  /** Without the check, the endpoint's errors play no part. */
  lemma ValidationSkipped(service: Service, c: Command, errors: seq<string>)
    requires !c.validateResponse
    ensures Decide(service, c, errors) == Decide(service, c, [])
  {
  }

  /** An action string that does not parse ends the use case before anything is sent. */
  lemma InvalidActionNotSent(service: Service, other: Service, c: Command, errors: seq<string>)
    requires !(c.validateResponse && |errors| > 0)
    requires SoapAction.FromString(c.soapAction, c.namespace).Fail?
    ensures Decide(service, c, errors) ==
              Failed(None, InvalidAction(SoapAction.FromString(c.soapAction, c.namespace).error))
    ensures Decide(other, c, errors) == Decide(service, c, errors)
  {
  }

  /**
   * The retry path is taken exactly when retries are asked for: the result then does not depend on the
   * single send, and otherwise not on the retrying one.
   */
  lemma RetryPathChosen(service: Service, c: Command, errors: seq<string>,
                        single: (Endpoint.Endpoint, SoapAction.SoapAction, Option<string>, Option<Dict<string>>, Option<Dict<string>>, bool)
                                -> Result<SoapResponse.SoapResponse>,
                        retrying: (Endpoint.Endpoint, SoapAction.SoapAction, Option<string>, Option<Dict<string>>, Option<Dict<string>>, int)
                                  -> Result<SoapResponse.SoapResponse>)
    ensures c.maxRetries > 0 ==> Decide(service.(executeRequest := single), c, errors) == Decide(service, c, errors)
    ensures c.maxRetries <= 0 ==> Decide(service.(executeWithRetry := retrying), c, errors) == Decide(service, c, errors)
  {
    var s1 := service.(executeRequest := single);
    var s2 := service.(executeWithRetry := retrying);
    var a := SoapAction.FromString(c.soapAction, c.namespace);
    if a.Ok? {
      if c.maxRetries > 0 {
        SentSame(s1, service, c, a.value);
      } else {
        SentSame(s2, service, c, a.value);
      }
    }
  }

  /** Two services that send alike and transform alike give the same result. */
  lemma SentSame(s1: Service, s2: Service, c: Command, action: SoapAction.SoapAction)
    requires Send(s1, c, action) == Send(s2, c, action) && s1.transform == s2.transform
    ensures Sent(s1, c, action) == Sent(s2, c, action)
  {
    if Send(s1, c, action).Ok? {
      assert Extracted(s1, c, Send(s1, c, action).value) == Extracted(s2, c, Send(s1, c, action).value);
    }
  }

  /** A service exception ends the use case without a response and names the exception. */
  lemma SendFailureReported(service: Service, c: Command, errors: seq<string>)
    requires !(c.validateResponse && |errors| > 0)
    requires SoapAction.FromString(c.soapAction, c.namespace).Ok?
    requires Send(service, c, SoapAction.FromString(c.soapAction, c.namespace).value).Fail?
    ensures Decide(service, c, errors) ==
              Failed(None, RequestFailed(Send(service, c, SoapAction.FromString(c.soapAction, c.namespace).value).error))
  {
  }

  /**
   * Success is exactly a successful response; a failure always carries a message when it has no
   * response, and a success never carries one.
   */
  lemma SuccessMeansSuccessfulResponse(service: Service, c: Command, errors: seq<string>)
    ensures var r := Decide(service, c, errors);
            && (r.success <==> r.response.Some? && SoapResponse.IsSuccessful(r.response.value))
            && (r.success ==> r.errorMessage.None?)
            && (r.response.None? ==> r.errorMessage.Some?)
            && (r.response.Some? && !r.success ==> r.errorMessage == r.response.value.errorMessage)
  {
    var a := SoapAction.FromString(c.soapAction, c.namespace);
    if !(c.validateResponse && |errors| > 0) && a.Ok? && Send(service, c, a.value).Ok? {
      assert Decide(service, c, errors) == Completed(service, c, Send(service, c, a.value).value);
    }
  }

  /**
   * Data is extracted only with an xpath and a successful response, and a failed extraction does not
   * change the outcome: the same result arises with any other extraction.
   */
  lemma ExtractionOnlyOnSuccess(service: Service, c: Command, errors: seq<string>,
                                transform: (SoapResponse.SoapResponse, string, bool) -> Result<Value>)
    ensures var r := Decide(service, c, errors);
            r.extractedData != VNone ==> Given(c.extractXpath) && r.success
    ensures var r := Decide(service, c, errors);
            var r' := Decide(service.(transform := transform), c, errors);
            r'.success == r.success && r'.response == r.response && r'.errorMessage == r.errorMessage
  {
    var a := SoapAction.FromString(c.soapAction, c.namespace);
    var s' := service.(transform := transform);
    if !(c.validateResponse && |errors| > 0) && a.Ok? {
      assert Send(s', c, a.value) == Send(service, c, a.value);
      if Send(service, c, a.value).Ok? {
        var resp := Send(service, c, a.value).value;
        assert Decide(service, c, errors) == Completed(service, c, resp);
        assert Decide(s', c, errors) == Completed(s', c, resp);
      }
    }
  }

  // ---------------------------------------------------------------------------
  // to_dict

  /** `d[k] = v` when the condition holds. */
  function SetIf(d: Dict<Value>, present: bool, k: string, v: Value): (r: Dict<Value>)
    ensures forall k' :: Get(r, k') == if present && k' == k then Some(v) else Get(d, k')
  {
    if present then
      assert forall k' :: Get(Set(d, k, v), k') == if k' == k then Some(v) else Get(d, k') by {
        forall k' ensures Get(Set(d, k, v), k') == if k' == k then Some(v) else Get(d, k') {
          if k' == k { GetSetSame(d, k, v); } else { GetSetOther(d, k, v, k'); }
        }
      }
      Set(d, k, v)
    else d
  }

  /** success and changed, merged with the response's own result dict when there is a response. */
  function BaseDict(r: SendResult): Dict<Value> {
    var d := [("success", VBool(r.success)), ("changed", VBool(r.success))];
    if r.response.Some? then Update(d, SoapResponse.AnsibleResult(r.response.value)) else d
  }

  /** `SendSoapRequestResult.to_dict` */
  function ResultToDict(r: SendResult): Dict<Value> {
    WithOptionals(BaseDict(r), r)
  }

  /** The optional entries `to_dict` adds to the base, each only when its value is truthy. */
  function WithOptionals(d: Dict<Value>, r: SendResult): Dict<Value> {
    var d := SetIf(d, Truthy(r.extractedData), "extracted_data", r.extractedData);
    var d := SetIf(d, r.validationErrors.Some? && |r.validationErrors.value| > 0, "validation_errors",
                   V.StrList(if r.validationErrors.Some? then r.validationErrors.value else []));
    SetIf(d, Given(r.errorMessage), "error_message", if r.errorMessage.Some? then VStr(r.errorMessage.value) else VNone)
  }

  /**
   * The response's result dict holds "changed" first and "success" fifth, and every other key is
   * shorter or longer than both; none is as long as the use case's own optional keys.
   */
  lemma AnsibleResultKeys(resp: SoapResponse.SoapResponse)
    ensures var e := SoapResponse.AnsibleResult(resp);
            && 4 < |e| && e[0].0 == "changed" && e[4].0 == "success"
            && (forall j :: 0 <= j < |e| && j != 0 && j != 4 ==> |e[j].0| != 7)
            && (forall j :: 0 <= j < |e| ==> |e[j].0| < 13 || |e[j].0| == 16)
  {
    var b := SoapResponse.BaseResult(resp);
    var t := SoapResponse.TimingPart(resp);
    var o := SoapResponse.OutcomePart(resp);
    var e := SoapResponse.AnsibleResult(resp);
    SoapResponse.PartKeys(resp);
    var kb, kt, ko := Keys(b), Keys(t), Keys(o);
    assert forall i :: 0 <= i < |kt| ==> |kt[i]| == 16;
    assert forall i :: 0 <= i < |ko| ==> |ko[i]| in {3, 4, 5, 6, 11};
    assert forall i :: 0 <= i < |kb| ==> |kb[i]| in {6, 7, 10, 11};
    assert |kb[1]| == 10 && |kb[2]| == 6 && |kb[3]| == 11;
    assert e == b + t + o;
    forall j | 0 <= j < |e|
      ensures j != 0 && j != 4 ==> |e[j].0| != 7
      ensures |e[j].0| < 13 || |e[j].0| == 16
    {
      if j < |b| {
        assert e[j].0 == kb[j];
      } else if j < |b| + |t| {
        assert e[j].0 == kt[j - |b|];
      } else {
        assert e[j].0 == ko[j - |b| - |t|];
      }
    }
  }

  /** Without a response, "changed" equals "success" (the Ansible convention). */
  lemma DictWithoutResponse(r: SendResult)
    requires r.response.None?
    ensures Get(ResultToDict(r), "success") == Some(VBool(r.success))
    ensures Get(ResultToDict(r), "changed") == Some(VBool(r.success))
  {
    var d: Dict<Value> := [("success", VBool(r.success)), ("changed", VBool(r.success))];
    GetFirstAt(d, "success", 0);
    GetFirstAt(d, "changed", 1);
  }

  /**
   * With a response, its result dict overrides both: "success" becomes the response's own success
   * and "changed" is always False, so a successful send reports no change.
   */
  lemma DictWithResponse(r: SendResult)
    requires r.response.Some?
    ensures Get(ResultToDict(r), "success") == Some(VBool(SoapResponse.IsSuccessful(r.response.value)))
    ensures Get(ResultToDict(r), "changed") == Some(VBool(false))
  {
    var e := SoapResponse.AnsibleResult(r.response.value);
    var d: Dict<Value> := [("success", VBool(r.success)), ("changed", VBool(r.success))];
    AnsibleResultKeys(r.response.value);
    SoapResponse.ResultSuccess(r.response.value);
    GetFirstAt(e, "success", 4);
    GetFirstAt(e, "changed", 0);
    assert "success" != "changed";
    GetUpdateOnce(d, e, "success", 4);
    GetUpdateOnce(d, e, "changed", 0);
  }

  /** The merged base holds none of the keys added after it. */
  lemma BaseDictOwnKeys(r: SendResult)
    ensures Get(BaseDict(r), "extracted_data").None?
    ensures Get(BaseDict(r), "validation_errors").None?
    ensures Get(BaseDict(r), "error_message").None?
  {
    var d: Dict<Value> := [("success", VBool(r.success)), ("changed", VBool(r.success))];
    assert |d[0].0| == 7 && |d[1].0| == 7;
    assert forall k :: |k| > 7 ==> Get(d, k).None?;
    if r.response.Some? {
      var e := SoapResponse.AnsibleResult(r.response.value);
      AnsibleResultKeys(r.response.value);
      GetUpdateAbsent(d, e, "extracted_data");
      GetUpdateAbsent(d, e, "validation_errors");
      GetUpdateAbsent(d, e, "error_message");
    }
  }

  /** The optional keys appear exactly when their values are truthy, with those values. */
  lemma DictOptionalKeys(r: SendResult)
    ensures var d := ResultToDict(r);
            && (Truthy(r.extractedData) ==> Get(d, "extracted_data") == Some(r.extractedData))
            && (!Truthy(r.extractedData) ==> !HasKey(d, "extracted_data"))
            && (r.validationErrors.Some? && |r.validationErrors.value| > 0 ==>
                  Get(d, "validation_errors") == Some(V.StrList(r.validationErrors.value)))
            && (!(r.validationErrors.Some? && |r.validationErrors.value| > 0) ==> !HasKey(d, "validation_errors"))
            && (Given(r.errorMessage) ==> Get(d, "error_message") == Some(VStr(r.errorMessage.value)))
            && (!Given(r.errorMessage) ==> !HasKey(d, "error_message"))
  {
    BaseDictOwnKeys(r);
    OptionalsOver(BaseDict(r), r);
  }

  /** The optional entries over a base that holds none of their keys. */
  lemma OptionalsOver(d0: Dict<Value>, r: SendResult)
    requires Get(d0, "extracted_data").None? && Get(d0, "validation_errors").None? && Get(d0, "error_message").None?
    ensures var d := WithOptionals(d0, r);
            && (Truthy(r.extractedData) ==> Get(d, "extracted_data") == Some(r.extractedData))
            && (!Truthy(r.extractedData) ==> !HasKey(d, "extracted_data"))
            && (r.validationErrors.Some? && |r.validationErrors.value| > 0 ==>
                  Get(d, "validation_errors") == Some(V.StrList(r.validationErrors.value)))
            && (!(r.validationErrors.Some? && |r.validationErrors.value| > 0) ==> !HasKey(d, "validation_errors"))
            && (Given(r.errorMessage) ==> Get(d, "error_message") == Some(VStr(r.errorMessage.value)))
            && (!Given(r.errorMessage) ==> !HasKey(d, "error_message"))
  {
    var ev := if r.validationErrors.Some? then r.validationErrors.value else [];
    var em := if r.errorMessage.Some? then VStr(r.errorMessage.value) else VNone;
    var d1 := SetIf(d0, Truthy(r.extractedData), "extracted_data", r.extractedData);
    var d2 := SetIf(d1, r.validationErrors.Some? && |r.validationErrors.value| > 0, "validation_errors", V.StrList(ev));
    var d3 := SetIf(d2, Given(r.errorMessage), "error_message", em);
    assert WithOptionals(d0, r) == d3;
    assert "extracted_data"[1] != "error_message"[1];
    assert "validation_errors"[0] != "error_message"[0] && "validation_errors"[0] != "extracted_data"[0];
    assert Get(d3, "extracted_data") == Get(d2, "extracted_data") == Get(d1, "extracted_data");
    assert Get(d3, "validation_errors") == Get(d2, "validation_errors");
  }

  /** A result produced by `execute` reports in its dict the success it computed. */
  lemma ExecutedDictSuccess(service: Service, c: Command, errors: seq<string>)
    ensures var r := Decide(service, c, errors);
            Get(ResultToDict(r), "success") == Some(VBool(r.success))
  {
    var r := Decide(service, c, errors);
    SuccessMeansSuccessfulResponse(service, c, errors);
    if r.response.Some? {
      DictWithResponse(r);
    } else {
      DictWithoutResponse(r);
    }
  }
}
