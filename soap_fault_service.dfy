/**
 * SOAP fault handling: extracting faultcode/faultstring (section 4.4 of SOAP 1.1) or
 * Code/Reason (section 5.4 of SOAP 1.2 Part 1) from a response, retry advice and categories.
 */
module SoapFaultService {
  import opened Wrappers
  import opened Strings
  import opened Dicts
  import opened Values
  import opened XmlTree
  import SoapResponse

  datatype SoapFault = SoapFault(faultCode: string, faultString: string, faultActor: Option<string>, detail: Option<string>)

  /** `SoapFault.to_dict` */
  function FaultDict(f: SoapFault): (r: Dict<Value>)
    ensures Keys(r) == ["fault_code", "fault_string", "fault_actor", "detail"]
  {
    [("fault_code", VStr(f.faultCode)),
     ("fault_string", VStr(f.faultString)),
     ("fault_actor", if f.faultActor.Some? then VStr(f.faultActor.value) else VNone),
     ("detail", if f.detail.Some? then VStr(f.detail.value) else VNone)]
  }

  /** `str(fault)` */
  function FaultText(f: SoapFault): string {
    "SOAP Fault: " + f.faultCode + " - " + f.faultString
  }

  /** Python truthiness of an optional string. */
  predicate Given(s: Option<string>) {
    s.Some? && |s.value| > 0
  }

  /** `find_element('.//' + tag)` on the response body: the found text, or an exception. */
  type Lookup = string -> Result<Option<string>>

  /** `find(t1) or find(t2) or …`: the first truthy result, else the last one; an exception ends the chain. */
  function OrLookup(find: Lookup, tags: seq<string>): (r: Result<Option<string>>)
    requires |tags| > 0
    ensures (forall i :: 0 <= i < |tags| ==> find(tags[i]).Ok? && !Given(find(tags[i]).value)) ==>
              r == find(tags[|tags| - 1])
    ensures r.Ok? && Given(r.value) ==> exists i :: 0 <= i < |tags| && r == find(tags[i])
  {
    match find(tags[0])
    case Fail(e) => Fail(e)
    case Ok(v) => if Given(v) || |tags| == 1 then Ok(v) else OrLookup(find, tags[1..])
  }

  const Soap11: string := "http://schemas.xmlsoap.org/soap/envelope/"
  const Soap12: string := "http://www.w3.org/2003/05/soap-envelope"

  function CodeTags(): seq<string> { ["faultcode", Qualified(Soap11, "faultcode"), Qualified(Soap12, "Code")] }
  function StringTags(): seq<string> { ["faultstring", Qualified(Soap11, "faultstring"), Qualified(Soap12, "Reason")] }
  function ActorTags(): seq<string> { ["faultactor", Qualified(Soap11, "faultactor")] }
  function DetailTags(): seq<string> { ["detail", Qualified(Soap11, "detail"), Qualified(Soap12, "Detail")] }

  /** The body of the `try`: the four lookups in order, then a fault when a code or a string was found. */
  function FaultFrom(find: Lookup): (r: Result<Option<SoapFault>>)
    ensures r.Ok? <==> && OrLookup(find, CodeTags()).Ok? && OrLookup(find, StringTags()).Ok?
                       && OrLookup(find, ActorTags()).Ok? && OrLookup(find, DetailTags()).Ok?
    ensures r.Ok? ==> (r.value.Some? <==>
                         Given(OrLookup(find, CodeTags()).value) || Given(OrLookup(find, StringTags()).value))
    ensures r.Ok? && r.value.Some? ==>
              var code := OrLookup(find, CodeTags()).value;
              var str := OrLookup(find, StringTags()).value;
              && r.value.value.faultCode == (if Given(code) then code.value else "Unknown")
              && r.value.value.faultString == (if Given(str) then str.value else "Unknown error")
              && r.value.value.faultActor == OrLookup(find, ActorTags()).value
              && r.value.value.detail == OrLookup(find, DetailTags()).value
  {
    match OrLookup(find, CodeTags())
    case Fail(e) => Fail(e)
    case Ok(code) =>
      match OrLookup(find, StringTags())
      case Fail(e) => Fail(e)
      case Ok(str) =>
        match OrLookup(find, ActorTags())
        case Fail(e) => Fail(e)
        case Ok(actor) =>
          match OrLookup(find, DetailTags())
          case Fail(e) => Fail(e)
          case Ok(detail) =>
            if Given(code) || Given(str) then
              Ok(Some(SoapFault(if Given(code) then code.value else "Unknown",
                                if Given(str) then str.value else "Unknown error",
                                actor, detail)))
            else Ok(None)
  }

  /** `extract_fault` around a given lookup: nothing for SUCCESS, and any exception yields nothing. */
  function ExtractFaultWith(status: SoapResponse.ResponseStatus, find: Lookup): (r: Option<SoapFault>)
    ensures status == SoapResponse.Success ==> r.None?
    ensures status != SoapResponse.Success && FaultFrom(find).Fail? ==> r.None?
    ensures status != SoapResponse.Success && FaultFrom(find).Ok? ==> r == FaultFrom(find).value
  {
    if status == SoapResponse.Success then None
    else match FaultFrom(find)
      case Fail(_) => None
      case Ok(f) => f
  }

  /**
   * The lookup as the code performs it: the XmlBody of this package has no `find_element`, so the
   * first lookup raises AttributeError.
   */
  function MissingFind(tag: string): Result<Option<string>> {
    Fail(AttributeError("'XmlBody' object has no attribute 'find_element'"))
  }

  /** `extract_fault` as written. */
  function ExtractFaultAsWritten(response: SoapResponse.SoapResponse): Option<SoapFault> {
    ExtractFaultWith(response.status, MissingFind)
  }

  /** As written, no fault is ever extracted, whatever the response holds. */
  lemma AsWrittenNeverFindsFault(response: SoapResponse.SoapResponse)
    ensures ExtractFaultAsWritten(response).None?
  {
    assert OrLookup(MissingFind, CodeTags()).Fail?;
  }

  /**
   * The lookup the code evidently intends, as the XmlBody with `find_element` performs it: parse the
   * body and give the text of the first descendant with the tag; a missing body, a parse error or no
   * match gives None.
   */
  function BodyFind(body: Option<string>, parse: Parser): Lookup {
    (tag: string) =>
      if body.None? then Ok(None)
      else match parse(body.value)
        case ParseError(_) => Ok(None)
        case Parsed(root) =>
          var found := FindDescendant(root, tag);
          Ok(if found.Some? then found.value.text else None)
  }

  /** `extract_fault` with working lookups. */
  function ExtractFault(response: SoapResponse.SoapResponse, parse: Parser): Option<SoapFault> {
    ExtractFaultWith(response.status, BodyFind(response.body, parse))
  }

  /** The intended lookups never raise. */
  lemma BodyFindTotal(body: Option<string>, parse: Parser, tags: seq<string>)
    requires |tags| > 0
    ensures OrLookup(BodyFind(body, parse), tags).Ok?
  {
    if |tags| > 1 {
      BodyFindTotal(body, parse, tags[1..]);
    }
  }

  /**
   * With working lookups, a failed response whose body holds a `faultcode` with text yields a fault
   * with that code.
   */
  lemma FaultCodeFound(response: SoapResponse.SoapResponse, parse: Parser, root: Node, code: string)
    requires response.status != SoapResponse.Success
    requires response.body.Some? && parse(response.body.value) == Parsed(root)
    requires FindDescendant(root, "faultcode").Some? && FindDescendant(root, "faultcode").value.text == Some(code)
    requires |code| > 0
    ensures ExtractFault(response, parse).Some?
    ensures ExtractFault(response, parse).value.faultCode == code
  {
    var find := BodyFind(response.body, parse);
    assert find("faultcode") == Ok(Some(code));
    assert OrLookup(find, CodeTags()) == Ok(Some(code));
    BodyFindTotal(response.body, parse, StringTags());
    BodyFindTotal(response.body, parse, ActorTags());
    BodyFindTotal(response.body, parse, DetailTags());
  }

  /** `is_retriable_fault`: exactly the four server-side codes, compared case-sensitively. */
  predicate IsRetriable(f: SoapFault) {
    f.faultCode in ["Server", "soap:Server", "Receiver", "soap:Receiver"]
  }

  /** `categorize_fault`: ordered case-insensitive substring tests on the code. */
  function Categorize(f: SoapFault): string {
    var code := Lower(f.faultCode);
    if Contains(code, "client") || Contains(code, "sender") then "CLIENT_ERROR"
    else if Contains(code, "server") || Contains(code, "receiver") then "SERVER_ERROR"
    else if Contains(code, "version") then "VERSION_MISMATCH"
    else if Contains(code, "mustunderstand") then "MUST_UNDERSTAND"
    else "UNKNOWN"
  }

  /** Categories ignore case. */
  lemma CategorizeIgnoresCase(f: SoapFault)
    ensures Categorize(f) == Categorize(f.(faultCode := Lower(f.faultCode)))
  {
    LowerLower(f.faultCode);
  }

  /** A code that lacks 'l' and 'n' but names the server or the receiver is a server error. */
  lemma ServerCategory(f: SoapFault, word: string, at: nat)
    requires word == "server" || word == "receiver"
    requires var code := Lower(f.faultCode);
             && at + |word| <= |code| && code[at..at + |word|] == word
             && forall i :: 0 <= i < |code| ==> code[i] != 'l' && code[i] != 'n'
    ensures Categorize(f) == "SERVER_ERROR"
  {
    var code := Lower(f.faultCode);
    NotContainsMissing(code, "client", 1);
    NotContainsMissing(code, "sender", 2);
    ContainsAt(code, word, at);
  }

  /** A code whose lower-cased form is `lowered`, naming the server or the receiver at `at`, is a server error. */
  lemma ServerCode(f: SoapFault, lowered: string, word: string, at: nat)
    requires word == "server" || word == "receiver"
    requires |lowered| == |f.faultCode| && forall i :: 0 <= i < |lowered| ==> lowered[i] == LowerChar(f.faultCode[i])
    requires at + |word| <= |lowered| && lowered[at..at + |word|] == word
    requires forall i :: 0 <= i < |lowered| ==> lowered[i] != 'l' && lowered[i] != 'n'
    ensures Categorize(f) == "SERVER_ERROR"
  {
    assert Lower(f.faultCode) == lowered;
    ServerCategory(f, word, at);
  }

  /** Every fault worth retrying is a server error. */
  lemma RetriableIsServerError(f: SoapFault)
    requires IsRetriable(f)
    ensures Categorize(f) == "SERVER_ERROR"
  {
    var c := f.faultCode;
    if c == "Server" {
      ServerCode(f, "server", "server", 0);
    } else if c == "soap:Server" {
      ServerCode(f, "soap:server", "server", 5);
    } else if c == "Receiver" {
      ServerCode(f, "receiver", "receiver", 0);
    } else {
      ServerCode(f, "soap:receiver", "receiver", 5);
    }
  }
}
