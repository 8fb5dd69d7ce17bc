/**
 * The mapper between the application layer's DTOs and the use case's command and result: a request
 * DTO becomes a command with a freshly built endpoint and, when only a body dict is given, its
 * rendered XML body; a result or a bare response becomes a response DTO.
 *
 * The endpoint entity of the plugin package is not part of this model: its construction (which may
 * raise) is the parameter `construct`, applied to the core entity's fields.
 */
module DtoMappers {
  import opened Wrappers
  import opened Dicts
  import opened Values
  import Endpoint
  import EndpointFactory
  import XmlTree
  import PlainXmlBody
  import SoapResponse
  import SoapAction
  import opened SoapRequestDto
  import U = SendSoapRequestUseCase

  /** The fields `dto_to_command` gives the endpoint: name "default", the DTO's auth settings and timeout. */
  function EndpointFields(d: RequestDto): (e: Endpoint.Endpoint)
    ensures e.url == d.endpointUrl && e.name == Some("default") && e.authType == Some(d.authType)
    ensures e.username == d.username && e.password == d.password
    ensures e.certPath == d.certPath && e.keyPath == d.keyPath && e.defaultTimeout == d.timeout
    ensures EndpointFactory.Defaulted(e) && e.supportedOperations == []
  {
    EndpointFactory.Fields(d.endpointUrl, Some("default"), Some(d.authType), d.username, d.password,
                           d.certPath, d.keyPath, d.timeout, [])
  }

  /**
   * The body of the command: the DTO's own text unless it is empty or missing and a non-empty body
   * dict is given; then the dict rendered under the DTO's root tag and namespace.
   */
  function CommandBody(d: RequestDto, ser: XmlTree.Serializer): Option<string> {
    if !Given(d.body) && DictGiven(d.bodyDict) then
      Some(ser(PlainXmlBody.RootTree(d.bodyRootTag, d.namespace, d.bodyDict.value)))
    else d.body
  }

  /** What `dto_to_command` returns: the construction error, or the command. */
  function ToCommand(d: RequestDto, construct: Endpoint.Endpoint -> Result<Endpoint.Endpoint>,
                     ser: XmlTree.Serializer): Result<U.Command>
  {
    match construct(EndpointFields(d))
    case Fail(e) => Fail(e)
    case Ok(endpoint) =>
      Ok(U.Command(endpoint, d.soapAction, CommandBody(d, ser), d.namespace, d.namespacePrefix, d.headers,
                   Some(d.timeout), d.validate, d.useCache, d.maxRetries, d.extractXpath, d.stripNamespaces))
  }

  /**
   * `dto_to_command`. The auth type it looks up first is never used and a failed lookup is caught,
   * so it has no effect. The namespace registration the body builder performs is not part of the
   * command.
   */
  method DtoToCommand(d: RequestDto, construct: Endpoint.Endpoint -> Result<Endpoint.Endpoint>,
                      ser: XmlTree.Serializer) returns (r: Result<U.Command>)
    ensures r == ToCommand(d, construct, ser)
  {
    var built := construct(EndpointFields(d));
    if built.Fail? {
      return Fail(built.error);
    }
    var body := d.body;
    if !Given(body) && DictGiven(d.bodyDict) {
      var xml := PlainXmlBody.FromDict(d.bodyDict.value, Some(d.bodyRootTag), d.namespace, d.namespacePrefix, ser);
      body := PlainXmlBody.ToString(xml.value.body);
    }
    r := Ok(U.Command(built.value, d.soapAction, body, d.namespace, d.namespacePrefix, d.headers,
                      Some(d.timeout), d.validate, d.useCache, d.maxRetries, d.extractXpath, d.stripNamespaces));
  }

  /** The command fails exactly when the endpoint cannot be built, and otherwise copies the request settings. */
  lemma CommandFields(d: RequestDto, construct: Endpoint.Endpoint -> Result<Endpoint.Endpoint>, ser: XmlTree.Serializer)
    ensures ToCommand(d, construct, ser).Fail? <==> construct(EndpointFields(d)).Fail?
    ensures ToCommand(d, construct, ser).Fail? ==> ToCommand(d, construct, ser).error == construct(EndpointFields(d)).error
    ensures var r := ToCommand(d, construct, ser);
            r.Ok? ==> && r.value.endpoint == construct(EndpointFields(d)).value
                      && r.value.soapAction == d.soapAction && r.value.namespace == d.namespace
                      && r.value.namespacePrefix == d.namespacePrefix && r.value.customHeaders == d.headers
                      && r.value.timeout == Some(d.timeout) && r.value.validateResponse == d.validate
                      && r.value.useCache == d.useCache && r.value.maxRetries == d.maxRetries
                      && r.value.extractXpath == d.extractXpath && r.value.stripNamespaces == d.stripNamespaces
  {
  }

  /**
   * A non-empty body text always wins; a missing or empty one is replaced by the rendered body dict
   * when there is a non-empty one, and is kept as it is otherwise.
   */
  lemma BodyRule(d: RequestDto, ser: XmlTree.Serializer)
    ensures Given(d.body) ==> CommandBody(d, ser) == d.body
    ensures !Given(d.body) && DictGiven(d.bodyDict) ==>
              CommandBody(d, ser) == Some(ser(PlainXmlBody.RootTree(d.bodyRootTag, d.namespace, d.bodyDict.value)))
    ensures !Given(d.body) && !DictGiven(d.bodyDict) ==> CommandBody(d, ser) == d.body
    ensures CommandBody(d, ser).None? <==> d.body.None? && !DictGiven(d.bodyDict)
  {
  }

  /** `result_to_dto` */
  function ResultToDto(r: U.SendResult): (dto: ResponseDto)
    ensures dto.success <==> r.success && r.response.Some?
  {
    if r.response.Some? then
      var resp := r.response.value;
      ResponseDto(r.success, resp.statusCode, resp.body, Some(resp.headers), resp.responseTimeMs, r.extractedData, r.errorMessage)
    else
      ResponseDto(false, Some(0), Some(""), None, None, VNone,
                  Some(if Given(r.errorMessage) then r.errorMessage.value else "Unknown error"))
  }

  /** `response_to_dto` */
  function ResponseToDto(resp: SoapResponse.SoapResponse): (dto: ResponseDto)
    ensures dto.success <==> SoapResponse.IsSuccessful(resp)
    ensures dto.extractedData == VNone
  {
    ResponseDto(SoapResponse.IsSuccessful(resp), resp.statusCode, resp.body, Some(resp.headers), resp.responseTimeMs,
                VNone, resp.errorMessage)
  }

  /** Without a response, the DTO is a failure with status 0, an empty body and always a message. */
  lemma NoResponseDto(r: U.SendResult)
    requires r.response.None?
    ensures var dto := ResultToDto(r);
            && !dto.success && dto.statusCode == Some(0) && dto.body == Some("") && Given(dto.errorMessage)
            && (Given(r.errorMessage) ==> dto.errorMessage == r.errorMessage)
  {
  }

  /**
   * A result of the use case with a response maps to the same DTO as that response itself, except
   * for the extracted data and the message, which a success drops.
   */
  lemma ExecutedDtoMatchesResponse(service: U.Service, c: U.Command, errors: seq<string>)
    ensures var r := U.Decide(service, c, errors);
            r.response.Some? ==>
              var resp := r.response.value;
              ResultToDto(r) == ResponseToDto(resp).(extractedData := r.extractedData,
                                                     errorMessage := if SoapResponse.IsSuccessful(resp) then None else resp.errorMessage)
  {
    U.SuccessMeansSuccessfulResponse(service, c, errors);
  }

  /** A result of the use case without a response always carries its own message, so "Unknown error" never shows. */
  lemma ExecutedNeverUnknown(service: U.Service, c: U.Command, errors: seq<string>)
    ensures var r := U.Decide(service, c, errors);
            r.response.None? ==> ResultToDto(r).errorMessage == r.errorMessage
  {
    var r := U.Decide(service, c, errors);
    if r.response.None? {
      assert |U.ValidationFailed| > 0;
      var a := SoapAction.FromString(c.soapAction, c.namespace);
      if !(c.validateResponse && |errors| > 0) {
        if a.Fail? {
          assert r.errorMessage == Some(U.InvalidAction(a.error));
        } else {
          assert r == U.Sent(service, c, a.value);
          assert r.errorMessage == Some(U.RequestFailed(U.Send(service, c, a.value).error));
        }
      }
    }
  }
}
