/** The SOAP response entity: status predicates, fault information, error summary and the Ansible result dict. */
module SoapResponse {
  import opened Wrappers
  import opened Dicts
  import opened Values

  datatype ResponseStatus =
    | Success | SoapFault | HttpError | NetworkError | Timeout | Failure | Error | ParsingError | AuthError
  {
    /** The enum member's value. */
    function Value(): string {
      match this
      case Success => "success"
      case SoapFault => "soap_fault"
      case HttpError => "http_error"
      case NetworkError => "network_error"
      case Timeout => "timeout"
      case Failure => "failure"
      case Error => "error"
      case ParsingError => "parsing_error"
      case AuthError => "auth_error"
    }
  }

  /** The dataclass fields; `received_at` is a clock reading passed in. */
  datatype SoapResponse = SoapResponse(
    requestId: string,
    status: ResponseStatus,
    statusCode: Option<int>,
    body: Option<string>,
    headers: Dict<string>,
    parsedBody: Option<Value>,
    faultCode: Option<string>,
    faultString: Option<string>,
    faultDetail: Option<string>,
    errorMessage: Option<string>,
    responseTimeMs: Option<int>,
    receivedAt: int)

  /** A response with every optional field at its default. */
  function Plain(requestId: string, status: ResponseStatus, receivedAt: int): SoapResponse {
    SoapResponse(requestId, status, None, None, [], None, None, None, None, None, None, receivedAt)
  }

  /** `SoapResponse(...)`: only the request id is checked. */
  function New(r: SoapResponse): (res: Result<SoapResponse>)
    ensures res.Fail? <==> |r.requestId| == 0
    ensures res.Fail? ==> res.error == ValueError("request_id ist erforderlich")
    ensures res.Ok? ==> res.value == r
  {
    if |r.requestId| == 0 then Fail(ValueError("request_id ist erforderlich")) else Ok(r)
  }

  /** `status_code or 0` */
  function CodeOrZero(r: SoapResponse): int {
    if r.statusCode.Some? then r.statusCode.value else 0
  }

  /** `is_successful`: SUCCESS status and a 2xx code. */
  predicate IsSuccessful(r: SoapResponse) {
    r.status == Success && 200 <= CodeOrZero(r) < 300
  }

  /** `has_soap_fault` */
  predicate HasSoapFault(r: SoapResponse) {
    r.status == SoapFault
  }

  /** Success and fault exclude each other; a missing code is never successful. */
  lemma SuccessExcludesFault(r: SoapResponse)
    ensures IsSuccessful(r) ==> !HasSoapFault(r)
    ensures r.statusCode.None? ==> !IsSuccessful(r)
    ensures r.status != Success ==> !IsSuccessful(r)
  {
  }

  /** `None` as Python prints it in an f-string, else the string. */
  function Shown(s: Option<string>): string {
    if s.Some? then s.value else "None"
  }

  function OptStr(s: Option<string>): Value {
    if s.Some? then VStr(s.value) else VNone
  }

  /** `get_fault_info`: code, string and detail, only for a SOAP fault. */
  function FaultInfo(r: SoapResponse): (res: Option<Dict<Value>>)
    ensures res.Some? <==> HasSoapFault(r)
  {
    if !HasSoapFault(r) then None
    else Some([("code", OptStr(r.faultCode)), ("string", OptStr(r.faultString)), ("detail", OptStr(r.faultDetail))])
  }

  /** `get_error_summary`: success, then fault, then the error message, then the bare status. */
  function ErrorSummary(r: SoapResponse): string {
    if IsSuccessful(r) then "Success"
    else if HasSoapFault(r) then "SOAP Fault: " + Shown(r.faultCode) + " - " + Shown(r.faultString)
    else if r.errorMessage.Some? && |r.errorMessage.value| > 0 then r.status.Value() + ": " + r.errorMessage.value
    else "Error: " + r.status.Value()
  }

  /** A fault is summarised as a fault even when an error message is also set. */
  lemma FaultSummaryFirst(r: SoapResponse)
    requires HasSoapFault(r)
    ensures ErrorSummary(r) == "SOAP Fault: " + Shown(r.faultCode) + " - " + Shown(r.faultString)
  {
  }

  predicate HasMessage(r: SoapResponse) {
    r.errorMessage.Some? && |r.errorMessage.value| > 0
  }

  /** The fixed keys every result starts with. */
  function BaseResult(r: SoapResponse): Dict<Value> {
    [("changed", VBool(false)),
     ("request_id", VStr(r.requestId)),
     ("status", VStr(r.status.Value())),
     ("status_code", if r.statusCode.Some? then VInt(r.statusCode.value) else VNone),
     ("success", VBool(IsSuccessful(r)))]
  }

  function TimingPart(r: SoapResponse): Dict<Value> {
    if r.responseTimeMs.Some? then [("response_time_ms", VInt(r.responseTimeMs.value))] else []
  }

  function OutcomePart(r: SoapResponse): Dict<Value> {
    if IsSuccessful(r) then
      [("body", OptStr(r.body))] + (if r.parsedBody.Some? && Truthy(r.parsedBody.value) then [("parsed_body", r.parsedBody.value)] else [])
    else FailurePart(ErrorSummary(r), FaultInfo(r), if HasMessage(r) then r.errorMessage else None)
  }

  /** The keys of a failed result: failed, msg, and the fault and error when there are any. */
  function FailurePart(summary: string, fault: Option<Dict<Value>>, error: Option<string>): Dict<Value> {
    [("failed", VBool(true)), ("msg", VStr(summary))]
    + (if fault.Some? then [("fault", VDict(fault.value))] else [])
    + (if error.Some? then [("error", VStr(error.value))] else [])
  }

  /**
   * `to_ansible_result`. Every key is assigned once, so the dict lists the keys in the order
   * the code assigns them.
   */
  function AnsibleResult(r: SoapResponse): Dict<Value> {
    BaseResult(r) + TimingPart(r) + OutcomePart(r)
  }

  /** A fault's information carries its code, string and detail. */
  lemma FaultInfoFields(r: SoapResponse)
    requires HasSoapFault(r)
    ensures var d := FaultInfo(r).value;
            && Get(d, "code") == Some(OptStr(r.faultCode))
            && Get(d, "string") == Some(OptStr(r.faultString))
            && Get(d, "detail") == Some(OptStr(r.faultDetail))
  {
    var d := FaultInfo(r).value;
    assert d[1..] == [("string", OptStr(r.faultString)), ("detail", OptStr(r.faultDetail))];
    assert d[1..][1..] == [("detail", OptStr(r.faultDetail))];
    assert Get(d[1..][1..], "detail") == Some(OptStr(r.faultDetail));
    assert Get(d[1..], "string") == Some(OptStr(r.faultString));
  }

  lemma FailureKeys(summary: string, fault: Option<Dict<Value>>, error: Option<string>)
    ensures Keys(FailurePart(summary, fault, error)) ==
              ["failed", "msg"] + (if fault.Some? then ["fault"] else []) + (if error.Some? then ["error"] else [])
  {
    var f: Dict<Value> := if fault.Some? then [("fault", VDict(fault.value))] else [];
    var e: Dict<Value> := if error.Some? then [("error", VStr(error.value))] else [];
    var m: Dict<Value> := [("failed", VBool(true)), ("msg", VStr(summary))];
    KeysAppend(m, f);
    KeysAppend(m + f, e);
  }

  /** The keys before the outcome part hold none of the outcome keys. */
  lemma FrontKeys(r: SoapResponse)
    ensures var front := BaseResult(r) + TimingPart(r);
            && !HasKey(front, "failed") && !HasKey(front, "msg") && !HasKey(front, "body")
            && !HasKey(front, "fault") && !HasKey(front, "error")
  {
    var front := BaseResult(r) + TimingPart(r);
    PartKeys(r);
    KeysAppend(BaseResult(r), TimingPart(r));
    var ks := Keys(front);
    assert forall i :: 0 <= i < |ks| ==> |ks[i]| in {6, 7, 10, 11, 16};
    assert "status" != "failed";
  }

  lemma PartKeys(r: SoapResponse)
    ensures Keys(BaseResult(r)) == ["changed", "request_id", "status", "status_code", "success"]
    ensures Keys(TimingPart(r)) == if r.responseTimeMs.Some? then ["response_time_ms"] else []
    ensures IsSuccessful(r) ==>
              Keys(OutcomePart(r)) == ["body"] + (if r.parsedBody.Some? && Truthy(r.parsedBody.value) then ["parsed_body"] else [])
    ensures !IsSuccessful(r) ==>
              Keys(OutcomePart(r)) == ["failed", "msg"] + (if HasSoapFault(r) then ["fault"] else []) + (if HasMessage(r) then ["error"] else [])
  {
    var o := OutcomePart(r);
    if IsSuccessful(r) {
      var p: Dict<Value> := if r.parsedBody.Some? && Truthy(r.parsedBody.value) then [("parsed_body", r.parsedBody.value)] else [];
      KeysAppend([("body", OptStr(r.body))], p);
    } else {
      FailureKeys(ErrorSummary(r), FaultInfo(r), if HasMessage(r) then r.errorMessage else None);
    }
  }

  /** The keys of the result, in order: the fixed five, the timing when known, then success or failure keys. */
  lemma ResultKeys(r: SoapResponse)
    ensures Keys(AnsibleResult(r)) ==
              ["changed", "request_id", "status", "status_code", "success"]
              + (if r.responseTimeMs.Some? then ["response_time_ms"] else [])
              + (if IsSuccessful(r) then ["body"] + (if r.parsedBody.Some? && Truthy(r.parsedBody.value) then ["parsed_body"] else [])
                 else ["failed", "msg"] + (if HasSoapFault(r) then ["fault"] else []) + (if HasMessage(r) then ["error"] else []))
  {
    PartKeys(r);
    KeysAppend(BaseResult(r), TimingPart(r));
    KeysAppend(BaseResult(r) + TimingPart(r), OutcomePart(r));
  }

  /** A successful result never carries "failed" or "msg", and always carries the body. */
  lemma SuccessResultClean(r: SoapResponse)
    requires IsSuccessful(r)
    ensures !HasKey(AnsibleResult(r), "failed") && !HasKey(AnsibleResult(r), "msg")
    ensures HasKey(AnsibleResult(r), "body")
  {
    ResultKeys(r);
    var ks := Keys(AnsibleResult(r));
    assert forall i :: 0 <= i < |ks| ==> |ks[i]| != 3 && ks[i] != "failed";
    assert ks[|ks| - 1] == "body" || ks[|ks| - 1] == "parsed_body";
    assert "body" in ks;
  }

  /** A failed result carries "fault" exactly for a SOAP fault and "error" exactly when a message is set. */
  lemma FailureResultKeys(r: SoapResponse)
    requires !IsSuccessful(r)
    ensures !HasKey(AnsibleResult(r), "body")
    ensures HasKey(AnsibleResult(r), "fault") <==> HasSoapFault(r)
    ensures HasKey(AnsibleResult(r), "error") <==> HasMessage(r)
  {
    var front := BaseResult(r) + TimingPart(r);
    var error := if HasMessage(r) then r.errorMessage else None;
    FrontKeys(r);
    FailureKeys(ErrorSummary(r), FaultInfo(r), error);
    KeysAppend(front, OutcomePart(r));
    FailurePartKeys(ErrorSummary(r), FaultInfo(r), error);
  }

  lemma FailurePartKeys(summary: string, fault: Option<Dict<Value>>, error: Option<string>)
    ensures var ks := Keys(FailurePart(summary, fault, error));
            "body" !in ks && ("fault" in ks <==> fault.Some?) && ("error" in ks <==> error.Some?)
  {
    FailureKeys(summary, fault, error);
  }

  /** "success" always equals `is_successful()`, and "changed" is always False. */
  lemma ResultSuccess(r: SoapResponse)
    ensures Get(AnsibleResult(r), "success") == Some(VBool(IsSuccessful(r)))
    ensures Get(AnsibleResult(r), "changed") == Some(VBool(false))
  {
    var b := BaseResult(r);
    var d := AnsibleResult(r);
    assert d == b + (TimingPart(r) + OutcomePart(r));
    assert d[4] == ("success", VBool(IsSuccessful(r))) && d[0] == ("changed", VBool(false));
    GetFirstAt(d, "success", 4);
    GetFirstAt(d, "changed", 0);
  }

  /** A failed result carries failed=True and the error summary as its message. */
  lemma ResultFailure(r: SoapResponse)
    requires !IsSuccessful(r)
    ensures Get(AnsibleResult(r), "failed") == Some(VBool(true))
    ensures Get(AnsibleResult(r), "msg") == Some(VStr(ErrorSummary(r)))
  {
    var front := BaseResult(r) + TimingPart(r);
    var error := if HasMessage(r) then r.errorMessage else None;
    FrontKeys(r);
    GetAppend(front, OutcomePart(r), "failed");
    GetAppend(front, OutcomePart(r), "msg");
    FailureGet(ErrorSummary(r), FaultInfo(r), error);
  }

  lemma FailureGet(summary: string, fault: Option<Dict<Value>>, error: Option<string>)
    ensures Get(FailurePart(summary, fault, error), "failed") == Some(VBool(true))
    ensures Get(FailurePart(summary, fault, error), "msg") == Some(VStr(summary))
  {
    var d := FailurePart(summary, fault, error);
    GetFirstAt(d, "failed", 0);
    GetFirstAt(d, "msg", 1);
  }
}
