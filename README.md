# ansible-soap: a Dafny model of the SOAP message pipeline

This project models the core of *ansible-soap*, an Ansible collection that sends SOAP requests. Its layers are:

- **value objects**:
  - SOAP actions and their header values;
  - URLs checked component by component;
  - XML bodies built from dicts and flattened back into dicts;
  - SOAP 1.1/1.2 envelopes, both the string-built and the tree-built variant;
- **entities**: endpoints, requests with their SOAP headers, and responses with their status predicates and Ansible result;
- **domain services**:
  - fault extraction and classification;
  - request and endpoint validation;
  - the SOAP service with its response cache, its retry loop and its sequential batch;
- **infrastructure**:
  - the HTTP repository's classifier from HTTP status and fault text to a response;
  - the two HTTP clients' header, certificate, timeout and session rules;
  - the XML parser adapter;
  - the request and endpoint factories;
- **application layer**:
  - DTO validation and mapping;
  - the send, batch and validate-endpoint use cases;
- **the batch action plugin**: per-request preprocessing and its dict-to-XML builder.

The project's modules follow the source's files; a pair of byte-identical files shares one module. The outside world is passed in as parameters:

- the network is a function from a request to an HTTP outcome;
- XML parsing and ElementTree serialisation are functions on strings and on the tree datatype `XmlTree.Node`;
- the clock, request ids (uuid4), the SHA-256 cache key and `time.sleep` are explicit inputs or recorded outputs.

Python's exceptions are the `Exception` datatype of `Wrappers`: one constructor per exception class the code raises or catches, and a predicate for `except SoapRepositoryError`. Ansible's loosely typed parameter dicts are `Values.Value` (None, bool, int, string, list, ordered dict).

Shared modules:

- `Wrappers`: Option, Result, exceptions;
- `Strings`: strip, split, find and replace over `seq<char>`;
- `Dicts`: Python dicts as ordered association lists;
- `Values`;
- `XmlTree`;
- `UrlLib`: `urllib.parse`'s `urlparse`, `urlunparse`, `parse_qs`, `urlencode`, `quote_plus`.

## Model

| member | source | states |
|---|---|---|
| SoapService.Repository.constructor | module_utils/soap_module/domain/services/soap_service.py:22-27 | The repository starts with an empty log of sent requests and the given answer function. |
| SoapService.Repository.Send | module_utils/soap_module/domain/services/soap_service.py:91 | The request as handed over is appended to the log, and the answer is the repository's outcome for that send. |
| SoapService.Execute | module_utils/soap_module/domain/services/soap_service.py:31-97 | execute_request: the outcome of one call. The cache gains at most this call's own successful response, and only under use_cache. Whatever is sent is answered by the repository. |
| SoapService.UnsupportedRefused | module_utils/soap_module/domain/services/soap_service.py:57-60 | An operation the endpoint does not support raises ValueError before the cache or the repository is consulted. |
| SoapService.FreshCacheServed | module_utils/soap_module/domain/services/soap_service.py:62-69 | Under use_cache, a stored response younger than the five-minute TTL is returned unchanged, nothing is sent and the cache is unchanged. |
| SoapService.ExecuteKeepsCacheValid | module_utils/soap_module/domain/services/soap_service.py:93-95 | No call ever puts an unsuccessful response into the cache. |
| SoapService.StaleEntryRefreshed | module_utils/soap_module/domain/services/soap_service.py:66-95 | On a miss or a stale entry the request is sent; under use_cache a successful answer replaces the entry, and otherwise the cache is unchanged. |
| SoapService.AddHeadersGet | module_utils/soap_module/domain/services/soap_service.py:85-88 | After the custom headers are added, each header the caller set has the caller's value and every other header keeps its value. |
| SoapService.AddHeadersFails | module_utils/soap_module/domain/services/soap_service.py:85-88 | The first custom header with an empty key or value aborts the call with that ValueError. |
| SoapService.AddHeadersOk | module_utils/soap_module/domain/services/soap_service.py:85-88 | Custom headers with non-empty keys and values are always accepted. |
| SoapService.PreparedRequest | module_utils/soap_module/domain/services/soap_service.py:71-88 | A prepared request holds the endpoint's URL and timeout, the action as SOAP action, the envelope text around the body, and each caller-set header over any default. |
| SoapService.WireHoldsBody | module_utils/soap_module/domain/services/soap_service.py:73-79 | The envelope text that is sent contains the body content. |
| SoapService.AsWrittenNeverSends | module_utils/soap_module/domain/services/soap_service.py:72 | As written (Endpoint has no soap_version), every call that the cache does not serve raises AttributeError, so nothing is sent or cached. |
| SoapService.IntendedSends | module_utils/soap_module/domain/services/soap_service.py:71-91 | With the endpoint's default_soap_version, a supported call with a parsable body and proper headers reaches the repository in the endpoint's version. |
| SoapService.CacheKeyAmbiguous | module_utils/soap_module/domain/services/soap_service.py:293-297 | The joined cache key does not keep its parts apart: two different (action, body) pairs can share one key. |
| SoapService.RunnerAnswered | module_utils/soap_module/domain/services/soap_service.py:124-161 | Every call the retry loop or the batch makes is answered by the service's repository. |
| SoapService.RetryStep | module_utils/soap_module/domain/services/soap_service.py:124-132 | One attempt of the retry loop, followed by what its outcome decides. |
| SoapService.RetryStops | module_utils/soap_module/domain/services/soap_service.py:125-126 | A success, or an exception other than SoapRepositoryError, ends the retry loop with that outcome. |
| SoapService.RetryGoesOn | module_utils/soap_module/domain/services/soap_service.py:127-131 | A SoapRepositoryError before the last attempt is followed by a pause of delay*(attempt+1) and the next attempt. |
| SoapService.RetryBounded | module_utils/soap_module/domain/services/soap_service.py:124-132 | The retry loop sends at most one request per remaining attempt, and the k-th pause is delay*(attempt+k+1). |
| SoapService.RetryReturnsFirstSuccess | module_utils/soap_module/domain/services/soap_service.py:124-128 | A successful retry returns the answer to its last send, and every earlier send was answered with a SoapRepositoryError. |
| SoapService.RetryRefused | module_utils/soap_module/domain/services/soap_service.py:127-131 | The inductive step of RetryReturnsFirstSuccess after a refused attempt. |
| SoapService.RetryExhausted | module_utils/soap_module/domain/services/soap_service.py:122-137 | A SoapRepositoryError escapes the loop only as the final one, whose message names max_retries and the last error. |
| SoapService.AsWrittenRetryRaises | module_utils/soap_module/domain/services/soap_service.py:72-128 | As written, the first attempt raises AttributeError, which the loop does not catch, and nothing is sent. |
| SoapService.ErrorResponse | module_utils/soap_module/domain/services/soap_service.py:163-172 | The stand-in for a request that raised: an ERROR response with id "batch-error", status 0, and the message both in the error body and as error_message. |
| SoapService.Items | module_utils/soap_module/domain/services/soap_service.py:156-158 | Each request of a batch yields its action (from from_string) and its body, position by position, or the KeyError/ValueError that reading them raises. |
| SoapService.BatchSendsAtMostOne | module_utils/soap_module/domain/services/soap_service.py:154-174 | The batch sends at most one request per request. |
| SoapService.BatchOnePerRequest | module_utils/soap_module/domain/services/soap_service.py:154-174 | The batch returns exactly one response per request if and only if every request has a valid action and a body. |
| SoapService.BatchRaisesFirst | module_utils/soap_module/domain/services/soap_service.py:157-158 | A request that has no action, has an invalid action or has no body ends the batch with that error; it is raised outside the try block. |
| SoapService.BatchResponses | module_utils/soap_module/domain/services/soap_service.py:156-172 | Each response of a batch is the answer to the call for the request at its position, or an ERROR response with the message if that call raised. |
| SoapService.BatchAllFailed | module_utils/soap_module/domain/services/soap_service.py:160-172 | When every call raises e without sending, nothing is sent and every response is an ERROR response carrying e. |
| SoapService.AsWrittenBatchAllErrors | module_utils/soap_module/domain/services/soap_service.py:72-172 | As written, every well-formed request on a supported operation comes back as an ERROR response that names the missing soap_version, and nothing is sent. |
| SoapService.AsWrittenBatchStep | module_utils/soap_module/domain/services/soap_service.py:160-172 | One batch call as written: it yields the AttributeError stand-in response. |
| SoapService.CompareProperties | module_utils/soap_module/domain/services/soap_service.py:261-291 | Comparison is reflexive, and symmetric wherever it answers. Different statuses never compare equal. Two unsuccessful responses with the same status compare by their error messages. |
| SoapService.CompareIgnoresGaps | module_utils/soap_module/domain/services/soap_service.py:284-291 | Successful responses whose bodies differ only in whitespace between tags compare equal. |
| SoapService.SoapService.constructor | module_utils/soap_module/domain/services/soap_service.py:22-29 | A new service has the given repository and an empty cache. |
| SoapService.SoapService.ExecuteRequest | module_utils/soap_module/domain/services/soap_service.py:31-97 | The outcome, the new cache and the new repository log are those Execute gives for the old cache and log. |
| SoapService.SoapService.PrepareRequest | module_utils/soap_module/domain/services/soap_service.py:71-88 | On a cache miss, the request that is built (or the error raised while building it) is the one Execute specifies. |
| SoapService.SoapService.Attempt | module_utils/soap_module/domain/services/soap_service.py:126 | One uncached call: its result and the requests it sends are those of the retry and batch specification. |
| SoapService.SoapService.ExecuteRequestWithRetry | module_utils/soap_module/domain/services/soap_service.py:99-137 | The result, the requests sent and the pauses taken are those of the retry specification; the cache is unchanged. |
| SoapService.SoapService.RetryLoop | module_utils/soap_module/domain/services/soap_service.py:124-132 | The loop meets the retry specification attempt by attempt; its invariant is that the log so far plus the rest of the specification gives the whole. |
| SoapService.SoapService.BatchExecute | module_utils/soap_module/domain/services/soap_service.py:139-174 | The responses and the requests sent are those of the batch specification; the cache is unchanged. |
| SoapService.SoapService.BatchLoop | module_utils/soap_module/domain/services/soap_service.py:156-172 | The loop meets the batch specification request by request. |
| SoapService.SoapService.ClearCache | module_utils/soap_module/domain/services/soap_service.py:315-317 | The cache is empty afterwards. |
| SoapService.AddCustomHeaders | module_utils/soap_module/domain/services/soap_service.py:86-88 | The loop succeeds exactly when the pure header addition does, in which case the request's headers are its result; otherwise the loop raises the same error. |
| HttpSoapRepository.MapClientError | plugins/module_utils/soap_module/infrastructure/repositories/http_soap_repository.py:80-98 | A client error always becomes a repository exception. The lower-cased message is checked for "timeout", then "ssl", then "connection"; each of these names the endpoint, and anything else is a plain SoapRepositoryError "HTTP-Fehler: …". |
| HttpSoapRepository.SslPrefixGeneric | plugins/module_utils/soap_module/infrastructure/repositories/http_soap_repository.py:87-91 | A message that starts with "ssl" and cannot start "timeout" is reported as an SSL failure, unless the rest of it names a timeout. |
| HttpSoapRepository.TimeoutPrefixGeneric | plugins/module_utils/soap_module/infrastructure/repositories/http_soap_repository.py:82-86 | A message whose lower case contains "timeout" is reported as a timeout, with the request's own timeout. |
| HttpSoapRepository.PrefixKeepsKind | plugins/module_utils/soap_module/infrastructure/repositories/http_soap_repository.py:82-98 | A prefix that names none of the three words leaves the classification to the rest of the message. |
| HttpSoapRepository.TimeoutMessageKind | plugins/module_utils/soap_module/infrastructure/repositories/http_soap_repository.py:82-86 | The client's timeout message is always classified as a timeout, whatever follows its prefix. |
| HttpSoapRepository.PostTimeoutReported | plugins/module_utils/soap_module/infrastructure/repositories/http_soap_repository.py:82-86 | A timeout in post is reported as an unreachable endpoint with "Timeout nach <request timeout>s". |
| HttpSoapRepository.PostSslReported | plugins/module_utils/soap_module/infrastructure/repositories/http_soap_repository.py:87-91 | An SSL error in post is an unreachable endpoint, with the message prefixed twice, unless the library's message names a timeout. |
| HttpSoapRepository.PostConnectionReported | plugins/module_utils/soap_module/infrastructure/repositories/http_soap_repository.py:92-98 | The client's prefix for a connection error names none of the three words. So the failure is classified by the library's message alone, and without one of the words it is a plain repository error. |
| HttpSoapRepository.PostOtherReported | plugins/module_utils/soap_module/infrastructure/repositories/http_soap_repository.py:92-98 | Any other post failure is also classified by the library's message alone. |
| HttpSoapRepository.TextBelowFind | plugins/module_utils/soap_module/infrastructure/repositories/http_soap_repository.py:225-227 | Each lookup is ElementTree's find('.//'+tag) followed by its text. |
| HttpSoapRepository.OrElse | plugins/module_utils/soap_module/infrastructure/repositories/http_soap_repository.py:225-227 | Python's `a or b` on optional text: a unless it is None or empty, else b. |
| HttpSoapRepository.AsWrittenOnlyFindsFaults | plugins/module_utils/soap_module/infrastructure/repositories/http_soap_repository.py:220-230 | Whatever the written fault test reports is a Fault element that is really present. |
| HttpSoapRepository.FaultEnvelopeFinds | plugins/module_utils/soap_module/infrastructure/repositories/http_soap_repository.py:225-227 | In the typical SOAP 1.1 fault envelope, the textless SOAP 1.1 Fault is the only Fault element. |
| HttpSoapRepository.AsWrittenMissesTextlessFault | plugins/module_utils/soap_module/infrastructure/repositories/http_soap_repository.py:225-228 | A document whose only Fault is a SOAP 1.1 Fault without text of its own escapes the written test. |
| HttpSoapRepository.AsWrittenMissesSoap11Fault | plugins/module_utils/soap_module/infrastructure/repositories/http_soap_repository.py:220-230 | The written test misses the usual SOAP 1.1 Fault, which holds only faultcode and faultstring; the intended test (a Fault element is present) finds it. |
| HttpSoapRepository.ExtractFaultString | plugins/module_utils/soap_module/infrastructure/repositories/http_soap_repository.py:232-241 | The first non-empty of the three lookups (faultstring, the SOAP 1.1 faultstring, the SOAP 1.2 Reason). It is never empty: the fallbacks are "Unbekannter SOAP Fault" and, for unparsable text, "SOAP Fault (Details nicht verfügbar)". |
| HttpSoapRepository.FaultStringFound | plugins/module_utils/soap_module/infrastructure/repositories/http_soap_repository.py:236-239 | An unqualified faultstring whose text is not blank is the fault string, stripped. |
| HttpSoapRepository.CreateSoapResponse | plugins/module_utils/soap_module/infrastructure/repositories/http_soap_repository.py:176-218 | Code, body, headers and time are copied from the answer. The response is successful exactly when the answer is 2xx, and 401/403 are authentication errors. SOAP_FAULT needs a 500 that the written Fault test accepts. Every status except success carries a message. |
| HttpSoapRepository.CreateSoapResponseIntended | plugins/module_utils/soap_module/infrastructure/repositories/http_soap_repository.py:176-230 | With the Fault test the code evidently intends, SOAP_FAULT is exactly a 500 carrying some Fault element. The response is the written one on every answer whose Fault the written test does not miss. |
| HttpSoapRepository.AsWrittenServerError | plugins/module_utils/soap_module/infrastructure/repositories/http_soap_repository.py:195-202 | For a 500 answer carrying the usual SOAP 1.1 Fault, the written code gives a plain "Server-Fehler" ERROR, where the intended test gives SOAP_FAULT. |
| HttpSoapRepository.SendResult | plugins/module_utils/soap_module/infrastructure/repositories/http_soap_repository.py:57-98 | What send makes of the client's result: an invalid XML body raises InvalidResponseError, a valid answer is classified with the written Fault test, and a client error is mapped to a repository exception. |
| HttpSoapRepository.SendRaisesDomainErrors | plugins/module_utils/soap_module/infrastructure/repositories/http_soap_repository.py:40-98 | Whatever the network does, send either answers or raises a repository exception. The only other exception is the ValueError of a request without an id. |
| HttpSoapRepository.StoredResponse | plugins/module_utils/soap_module/infrastructure/repositories/http_soap_repository.py:113-126 | Once the asynchronous send is done, the request's id has a response exactly when the id is not empty. That response is send's, or an ERROR response with code 0 and the exception's text, never a successful one. Other requests' responses stay. |
| HttpSoapRepository.Repository.constructor | plugins/module_utils/soap_module/infrastructure/repositories/http_soap_repository.py:22-38 | A given client is used as it is; otherwise a new one is made from verify_ssl and timeout. The async store starts empty. |
| HttpSoapRepository.Repository.Send | plugins/module_utils/soap_module/infrastructure/repositories/http_soap_repository.py:40-98 | Exactly one POST with the request's URL, body, headers and timeout and no credentials; the result is SendResult of its outcome. |
| HttpSoapRepository.Repository.CompleteAsync | plugins/module_utils/soap_module/infrastructure/repositories/http_soap_repository.py:113-126 | One POST; the store afterwards is the old store updated with that send's response, or with the ERROR stand-in. |
| HttpSoapRepository.Repository.SendAsync | plugins/module_utils/soap_module/infrastructure/repositories/http_soap_repository.py:100-132 | Returns the request's id, under which the store holds the outcome once the send completes. |
| HttpSoapRepository.Repository.GetResponse | plugins/module_utils/soap_module/infrastructure/repositories/http_soap_repository.py:134-144 | The stored response for the id, or None for an id never stored. |
| HttpSoapRepository.Repository.ValidateEndpoint | plugins/module_utils/soap_module/infrastructure/repositories/http_soap_repository.py:146-156 | The client's connectivity test with its default 5-second timeout: true exactly for an answer below 500. |
| HttpSoapRepository.Repository.GetWsdl | plugins/module_utils/soap_module/infrastructure/repositories/http_soap_repository.py:158-174 | The body of a 2xx answer to a GET with a 10-second timeout; None for any other answer or a client error. |
| HttpSoapRepository.Repository.Close | plugins/module_utils/soap_module/infrastructure/repositories/http_soap_repository.py:252-254 | The client's session is closed (cleared), and nothing else changes. |
| HttpClient.HandlerIndex | plugins/module_utils/soap_module/infrastructure/adapters/http_client.py:152-159 | The except clause that handles an exception is the first one whose class the exception is an instance of. |
| HttpClient.PostErrorMessages | plugins/module_utils/soap_module/infrastructure/adapters/http_client.py:152-159 | post reports every requests exception under its most specific class: timeouts (connect timeouts included) as "Request timeout nach Ns", SSL errors as "SSL-Fehler", other connection errors as "Verbindungsfehler", and the rest as "HTTP-Fehler". |
| HttpClient.GetErrorMessage | plugins/module_utils/soap_module/infrastructure/adapters/http_client.py:203-204 | get reports every requests exception as "HTTP-Fehler: …". |
| HttpClient.EffectiveTimeout | plugins/module_utils/soap_module/infrastructure/adapters/http_client.py:104 | The caller's timeout unless it is missing or 0; then the client's default. |
| HttpClient.Credentials | plugins/module_utils/soap_module/infrastructure/adapters/http_client.py:233-249 | The username is read before the password. A missing one raises KeyError for that key. |
| HttpClient.ConfigureAuth | plugins/module_utils/soap_module/infrastructure/adapters/http_client.py:223-251 | No config or an empty config gives no auth. The types basic, digest and ntlm give their auth object holding the config's username and password. Any other type gives no auth. |
| HttpClient.ConfigureCert | plugins/module_utils/soap_module/infrastructure/adapters/http_client.py:253-270 | Only type "certificate" with a truthy cert_path gives a certificate; the pair (cert, key) when key_path is truthy, else the cert path alone. |
| HttpClient.AuthOrCert | plugins/module_utils/soap_module/infrastructure/adapters/http_client.py:223-270 | One configuration never yields both credentials and a client certificate. |
| HttpClient.UserAgentKeepsKeys | plugins/module_utils/soap_module/infrastructure/adapters/http_client.py:113-114 | Adding the default User-Agent keeps every key of the caller's headers. |
| HttpClient.CharsetKeepsKeys | plugins/module_utils/soap_module/infrastructure/adapters/http_client.py:123-126 | The Content-Type step keeps the keys and their order. |
| HttpClient.PostHeadersNameUserAgent | plugins/module_utils/soap_module/infrastructure/adapters/http_client.py:111-126 | After post's header steps, some key names the User-Agent in any letter case. |
| HttpClient.CharsetPresent | plugins/module_utils/soap_module/infrastructure/adapters/http_client.py:123-126 | After the Content-Type step, an exact 'Content-Type' key carries a charset. |
| HttpClient.CharsetNamed | plugins/module_utils/soap_module/infrastructure/adapters/http_client.py:125-126 | The appended "; charset=utf-8" does name the charset. |
| HttpClient.PostHeadersProperties | plugins/module_utils/soap_module/infrastructure/adapters/http_client.py:111-126 | The headers post sends always carry a User-Agent key in some case. It is the default agent when the caller named none. An exact 'Content-Type' key exists exactly when the caller gave one, and then carries a charset. Every caller key is kept, and any other key keeps its value. |
| HttpClient.PostHeadersIdempotent | plugins/module_utils/soap_module/infrastructure/adapters/http_client.py:111-126 | Preparing post's headers a second time changes nothing. |
| HttpClient.NewSession | plugins/module_utils/soap_module/infrastructure/adapters/http_client.py:55-75 | A new session has no adapters when max_retries <= 0. Otherwise "http://" and "https://" both get a Retry of total max_retries, backoff 1, statuses 429/500/502/503/504 and the method POST. |
| HttpClient.Client.constructor | plugins/module_utils/soap_module/infrastructure/adapters/http_client.py:35-53 | The settings are stored and there is no session yet. |
| HttpClient.Client.GetSession | plugins/module_utils/soap_module/infrastructure/adapters/http_client.py:55-75 | An open session is returned unchanged; otherwise exactly one new session is created and kept. |
| HttpClient.Client.Post | plugins/module_utils/soap_module/infrastructure/adapters/http_client.py:77-159 | A missing credential raises KeyError before anything is sent. Otherwise exactly one POST goes out, with the prepared headers, the auth, the certificate, the effective timeout and the verify flag, and the result is the translated reply. The session is opened if there was none. |
| HttpClient.Client.Get | plugins/module_utils/soap_module/infrastructure/adapters/http_client.py:161-204 | Like post without a body. The User-Agent default applies only when the exact 'User-Agent' key is missing, and every exception is an HTTP error. |
| HttpClient.Client.TestConnectivity | plugins/module_utils/soap_module/infrastructure/adapters/http_client.py:206-221 | Reachable exactly when the GET is answered with a code below 500; a client error is unreachable; exactly one GET to the URL is sent. |
| HttpClient.Client.Close | plugins/module_utils/soap_module/infrastructure/adapters/http_client.py:272-276 | The session is closed and dropped; the next request opens a new one. |
| PlainHttpClient.AsWrittenSslNeverReported | module_utils/soap_module/infrastructure/adapters/http_client.py:140-150 | As written, the SSLError clause is never the handler, because SSLError derives from ConnectionError. Every SSL failure is reported as "Verbindungsfehler". |
| PlainHttpClient.CorrectedOrder | module_utils/soap_module/infrastructure/adapters/http_client.py:140-150 | With the SSL clause before ConnectionError, SSL failures are reported as "SSL-Fehler", and every other exception exactly as the written order reports it. |
| PlainHttpClient.Client.constructor | module_utils/soap_module/infrastructure/adapters/http_client.py:39-57 | The settings are stored and there is no session yet. |
| PlainHttpClient.Client.GetSession | module_utils/soap_module/infrastructure/adapters/http_client.py:59-79 | An open session is returned unchanged; otherwise exactly one new session with the retry adapters is created. |
| PlainHttpClient.Client.Post | module_utils/soap_module/infrastructure/adapters/http_client.py:81-150 | A missing credential raises KeyError before anything is sent. Otherwise exactly one POST goes out, with the caller's headers (or none) unchanged, the auth, the certificate and the effective timeout. Failures are translated in the written clause order, so an SSL failure is reported as a connection failure. |
| PlainHttpClient.Client.Get | module_utils/soap_module/infrastructure/adapters/http_client.py:152-193 | The caller's headers go out unchanged, with no credentials, certificate or proxies; every exception is an HTTP error. |
| PlainHttpClient.Client.TestConnectivity | module_utils/soap_module/infrastructure/adapters/http_client.py:195-210 | Reachable exactly when the GET is answered with a code below 500; exactly one GET is sent. |
| PlainHttpClient.Client.Close | module_utils/soap_module/infrastructure/adapters/http_client.py:261-265 | The session is closed and dropped. |
| XmlParser.Parse | module_utils/soap_module/infrastructure/adapters/xml_parser.py:36-39 | Parsing succeeds exactly when the parser accepts the text, giving its root. Otherwise it raises XmlParserError "XML-Parsing fehlgeschlagen: …" with the parser's detail. |
| XmlParser.RemoveNamespace | plugins/module_utils/soap_module/infrastructure/adapters/xml_parser.py:238-243 | The result never contains '}', and a tag without '}' is unchanged. |
| XmlParser.RemoveQualified | module_utils/soap_module/infrastructure/adapters/xml_parser.py:239-243 | A Clark-notation tag {uri}local loses exactly its {uri} part. |
| XmlParser.StripNamespaces | plugins/module_utils/soap_module/infrastructure/adapters/xml_parser.py:217-236 | Every tag loses its namespace, while attributes, text and the number of children are kept. |
| XmlParser.StripElement | module_utils/soap_module/infrastructure/adapters/xml_parser.py:228-236 | The in-place recursive rewrite, child by child, yields exactly the stripped tree. |
| XmlParser.StrippedHasNoNamespace | plugins/module_utils/soap_module/infrastructure/adapters/xml_parser.py:228-234 | No tag of a stripped tree, at any depth, contains '}'. |
| XmlParser.StripIdempotent | module_utils/soap_module/infrastructure/adapters/xml_parser.py:217-236 | Stripping twice is the same as stripping once. |
| XmlParser.StripSize | plugins/module_utils/soap_module/infrastructure/adapters/xml_parser.py:217-236 | Stripping keeps the number of elements. |
| XmlParser.DefaultNamespace | module_utils/soap_module/infrastructure/adapters/xml_parser.py:210-213 | A root tag in Clark notation contributes its URI as the default ("") namespace. |
| XmlParser.NoNamespaces | plugins/module_utils/soap_module/infrastructure/adapters/xml_parser.py:191-215 | An element with no xmlns attributes and a plain root tag has no namespaces. |
| XmlParser.ElementToDict | module_utils/soap_module/infrastructure/adapters/xml_parser.py:64-104 | The loop-built result equals the recursive specification ElementDict: attributes, stripped text, then the children under their namespace-free tags. A lone text collapses to the string. |
| XmlParser.AddChildren | plugins/module_utils/soap_module/infrastructure/adapters/xml_parser.py:85-98 | After the loop, the entries are the fold of every child into the starting entries. |
| XmlParser.FoldedOneMore | module_utils/soap_module/infrastructure/adapters/xml_parser.py:86-98 | One loop step adds the next child exactly as the fold does: a new tag gets the value, a repeated tag becomes or extends a list. |
| XmlParser.ChildFoldGet | plugins/module_utils/soap_module/infrastructure/adapters/xml_parser.py:86-98 | Children are keyed by their namespace-free tag. A tag that occurs once maps to that child's value, and a repeated tag collects every occurrence in document order in one list (when no child value is itself a list). |
| XmlParser.LeafDict | module_utils/soap_module/infrastructure/adapters/xml_parser.py:81-104 | A leaf with non-blank text gives its stripped text, and an empty or blank leaf gives {}. |
| XmlParser.AttributesKept | plugins/module_utils/soap_module/infrastructure/adapters/xml_parser.py:77-79 | Attributes are kept under '@attributes', so an element with attributes always gives a dict. |
| XmlParser.ChildFoldOther | module_utils/soap_module/infrastructure/adapters/xml_parser.py:92-98 | The fold leaves alone any key that no child maps to. |
| XmlParser.ValidateXml | plugins/module_utils/soap_module/infrastructure/adapters/xml_parser.py:245-260 | Validation says yes exactly when parsing the same text would return an element instead of raising. |
| XmlParser.LastDeclarationWins | module_utils/soap_module/infrastructure/adapters/xml_parser.py:204-207 | For each xmlns attribute, the prefix after the xmlns URI maps to the attribute's URI unless a later xmlns attribute redeclares the same prefix. The last declaration of a prefix wins. |
| XmlParser.DeclarationExtracted | plugins/module_utils/soap_module/infrastructure/adapters/xml_parser.py:191-215 | The extracted namespaces keep every root declaration that is not redeclared later, except that a namespaced root tag takes over the default prefix "". |
| XmlParser.DictToElement | module_utils/soap_module/infrastructure/adapters/xml_parser.py:106-123 | The element always carries the requested root tag. Data that is not a dict becomes the root's text, as str() renders it. |
| XmlParser.Fill | plugins/module_utils/soap_module/infrastructure/adapters/xml_parser.py:126-143 | Filling never changes the element's tag and only appends children after the existing ones. Data that is not a dict becomes the text. |
| XmlParser.FillEntry | module_utils/soap_module/infrastructure/adapters/xml_parser.py:129-141 | An '@attributes' value succeeds exactly when Python's dict conversion accepts it: a dict, a sequence of pairs or an empty string. It then adds no child, and otherwise it raises that conversion's error. An ordinary key with a non-list value appends exactly one child with that key as its tag. |
| XmlParser.FindElementText | plugins/module_utils/soap_module/infrastructure/adapters/xml_parser.py:168-189 | Without a match, or when the first match has no text or empty text, the default comes back. Any other result is the first match's text, stripped. |
| XmlParser.FillFlat | plugins/module_utils/soap_module/infrastructure/adapters/xml_parser.py:125-141 | Filling flat data (distinct plain keys with text values) appends one leaf per entry, in order. |
| XmlParser.FlatRoundTrip | module_utils/soap_module/infrastructure/adapters/xml_parser.py:106-143 | Converting flat data to an element and back to a dict gives the same data. |
| XmlParser.FlatElement | plugins/module_utils/soap_module/infrastructure/adapters/xml_parser.py:106-123 | Flat data becomes a root element that holds just its leaves. |
| XmlParser.BareElementDict | module_utils/soap_module/infrastructure/adapters/xml_parser.py:86-104 | An element with children only reads back as the dict its children fold to, unless that dict is a lone "#text". |
| XmlParser.FoldLeaves | plugins/module_utils/soap_module/infrastructure/adapters/xml_parser.py:86-98 | Folding the leaves of flat data rebuilds the data. |
| XmlParser.BlankTextIsEmpty | module_utils/soap_module/infrastructure/adapters/xml_parser.py:186-189 | A first match with whitespace-only text is found as "", not replaced by the default. |
| XmlParser.ExtractSoapBody | plugins/module_utils/soap_module/infrastructure/adapters/xml_parser.py:262-287 | A result is the first child of a SOAP 1.1 or SOAP 1.2 Body below the element. |
| XmlParser.ExtractSoapBodyLoop | module_utils/soap_module/infrastructure/adapters/xml_parser.py:279-287 | The loop over the two namespaces returns exactly what the specification gives. |
| XmlParser.SoapBodyOrder | plugins/module_utils/soap_module/infrastructure/adapters/xml_parser.py:273-287 | A SOAP 1.1 Body with content wins over any SOAP 1.2 Body. An envelope whose Bodies are missing or empty gives None. |
| XmlBody.New | module_utils/soap_module/domain/value_objects/xml_body.py:22-32 | A body exists exactly for non-empty text that parses; empty text raises "XML Body darf nicht leer sein" and unparsable text "Ungültiges XML: …". |
| XmlBody.FromString | module_utils/soap_module/domain/value_objects/xml_body.py:34-37 | The body holds the stripped text, and exists exactly when that text is non-empty and parses. |
| XmlBody.DictToXml | module_utils/soap_module/domain/value_objects/xml_body.py:50-66 | The parent gains exactly the elements specified for the dict, entry by entry, and nothing else changes. |
| XmlBody.AppendEntry | module_utils/soap_module/domain/value_objects/xml_body.py:53-66 | One entry appends its elements: a child for a dict, one child per list item, or a text child for a scalar. |
| XmlBody.FromDict | module_utils/soap_module/domain/value_objects/xml_body.py:39-48 | The result is the validated serialisation of the tree built from the dict under the root tag. |
| XmlBody.ElementValue | module_utils/soap_module/domain/value_objects/xml_body.py:93-123 | An element's value is never a list: attributes, then children, then text, collapsing to the stripped text or None. |
| XmlBody.ElementToDict | module_utils/soap_module/domain/value_objects/xml_body.py:93-123 | The loop-built value equals the recursive specification ElementValue. |
| XmlBody.ToDict | module_utils/soap_module/domain/value_objects/xml_body.py:85-91 | The result maps the root's tag to the root's value. |
| XmlBody.FoldGet | module_utils/soap_module/domain/value_objects/xml_body.py:104-114 | Repeated child tags collapse into one list that holds every occurrence in document order, and a tag that occurs once holds its value. |
| XmlBody.LeafValue | module_utils/soap_module/domain/value_objects/xml_body.py:116-123 | A leaf with non-blank text gives its stripped text; a leaf with no attributes or text gives None. |
| XmlBody.FoldAppend | module_utils/soap_module/domain/value_objects/xml_body.py:105-113 | Folding a concatenation of children folds the parts one after the other. |
| XmlBody.FoldDictChildren | module_utils/soap_module/domain/value_objects/xml_body.py:53-66 | The elements built for simple data fold back into the same entries, appended after the accumulator. |
| XmlBody.FoldList | module_utils/soap_module/domain/value_objects/xml_body.py:57-63 | Two or more simple list items fold back into one list entry that holds them in order. |
| XmlBody.ItemValue | module_utils/soap_module/domain/value_objects/xml_body.py:60-66 | The element built for a simple item converts back to that item. |
| XmlBody.NestedValue | module_utils/soap_module/domain/value_objects/xml_body.py:101-114 | An element with no attributes and no text, whose children fold to a non-empty dict, gives that dict. |
| XmlBody.DictRoundTrip | module_utils/soap_module/domain/value_objects/xml_body.py:39-123 | to_dict(from_dict(d, root)) gives back {root: d} for simple non-empty data, given a serialiser and parser that round-trip the built tree. |
| XmlBody.TaggedFirst | module_utils/soap_module/domain/value_objects/xml_body.py:151-160 | The first child with the tag is the element that find returns. |
| XmlBody.FindElementOneStep | module_utils/soap_module/domain/value_objects/xml_body.py:151-160 | A one-step path is ElementTree's find(tag), and a './/' step is the first descendant with the tag. |
| XmlBody.FirstNonEmpty | module_utils/soap_module/domain/value_objects/xml_body.py:188-191 | Python's `or` chain: the first candidate that is an element with children, since an element without children is falsy. |
| XmlBody.ExtractBodyContent | module_utils/soap_module/domain/value_objects/xml_body.py:172-199 | A body that is not a SOAP envelope gives None, and any result comes from a parsed body. The result is the first child of the first non-empty Body candidate, serialised and validated again. |
| XmlBody.ExtractDirectBody | module_utils/soap_module/domain/value_objects/xml_body.py:183-195 | A SOAP 1.1 Body directly under the root that has content is the one extracted from. |
| XmlBody.ExtractNoBody | module_utils/soap_module/domain/value_objects/xml_body.py:188-197 | With no Body candidate that has children, nothing is extracted. |
| XmlBody.Collapse | module_utils/soap_module/domain/value_objects/xml_body.py:203 | re.sub(r'>\s+<', '><', s): scanning left to right, every whitespace gap between '>' and '<' is removed. |
| XmlBody.Minify | module_utils/soap_module/domain/value_objects/xml_body.py:201-204 | The minified body holds the collapsed, stripped text, validated again. |
| XmlBody.CollapseAppend | module_utils/soap_module/domain/value_objects/xml_body.py:203 | A suffix that starts with '>' collapses separately from what precedes it. |
| XmlBody.CollapseGap | module_utils/soap_module/domain/value_objects/xml_body.py:203 | A whitespace gap >ws< collapses exactly as >< does. |
| XmlBody.CollapseNoGap | module_utils/soap_module/domain/value_objects/xml_body.py:203-204 | A collapsed text has no gap left, and stripping keeps it so. |
| XmlBody.EqualsIgnoresGap | module_utils/soap_module/domain/value_objects/xml_body.py:212-216 | Bodies that differ only by whitespace between two tags are equal. |
| XmlBody.EqualsProperties | module_utils/soap_module/domain/value_objects/xml_body.py:212-219 | Equality is reflexive whenever minify succeeds, symmetric, and agrees with the hash. |
| XmlBody.DefaultDeclarationFound | module_utils/soap_module/domain/value_objects/xml_body.py:132-134 | A default declaration xmlns="ns" or xmlns='ns' anywhere in the text makes the namespace count as used. |
| XmlBody.NoEqualsNoNamespace | module_utils/soap_module/domain/value_objects/xml_body.py:132-134 | Text without an '=' never uses any namespace, because both accepted spellings need one. |
| PlainXmlBody.ListNodes | plugins/module_utils/soap_module/domain/value_objects/xml_body.py:95-106 | A list entry becomes one element per item, each tagged like the key, with no wrapper. |
| PlainXmlBody.ItemNode | plugins/module_utils/soap_module/domain/value_objects/xml_body.py:103-106 | A list item that is a dict nests; None becomes empty text; anything else becomes str(item). |
| PlainXmlBody.AddElements | plugins/module_utils/soap_module/domain/value_objects/xml_body.py:83-113 | The parent gains exactly the elements specified for the data, entry by entry. |
| PlainXmlBody.AddEntry | plugins/module_utils/soap_module/domain/value_objects/xml_body.py:85-111 | The child is appended first; for a list it is removed again and one sibling per item takes its place. The net effect is the specified elements of the entry. |
| PlainXmlBody.Registration | plugins/module_utils/soap_module/domain/value_objects/xml_body.py:59-77 | A namespace is registered exactly when one is given and non-empty: under the given prefix, or under the default prefix "" when there is none. |
| PlainXmlBody.FromDict | plugins/module_utils/soap_module/domain/value_objects/xml_body.py:19-128 | Empty data raises "data darf nicht leer sein". With a root tag, the result is the serialised root tree. Without one, it is the fragment result. |
| PlainXmlBody.SerializeFragment | plugins/module_utils/soap_module/domain/value_objects/xml_body.py:121-124 | The join loop yields the top-level elements serialised one after the other. |
| PlainXmlBody.FragmentResult | plugins/module_utils/soap_module/domain/value_objects/xml_body.py:115-124 | Without a root tag, the result fails exactly when no element was built. It warns exactly when the data has more than one key. |
| PlainXmlBody.ChildrenQualified | plugins/module_utils/soap_module/domain/value_objects/xml_body.py:86-101 | Under a namespace, the elements are exactly those built without one, with every tag qualified by {uri}. |
| PlainXmlBody.QualifyAllTags | plugins/module_utils/soap_module/domain/value_objects/xml_body.py:86-101 | Every element of a qualified forest, at any depth, carries the {uri} prefix. |
| PlainXmlBody.RootTreeQualified | plugins/module_utils/soap_module/domain/value_objects/xml_body.py:70-81 | With a root tag and a namespace, the tree is the unqualified tree with every tag in the namespace, the root's included. |
| PlainXmlBody.UnqualifiedTags | plugins/module_utils/soap_module/domain/value_objects/xml_body.py:78-90 | Without a namespace, or with an empty one, no element is qualified: every tag is a key of the data. |
| PlainXmlBody.ListEntrySiblings | plugins/module_utils/soap_module/domain/value_objects/xml_body.py:95-106 | A list entry contributes one sibling per item, in item order, and nothing for an empty list. |
| PlainXmlBody.SingleEntryFragment | plugins/module_utils/soap_module/domain/value_objects/xml_body.py:115-126 | Without a root tag, a single scalar entry gives exactly that one serialised element and no warning. |
| PlainXmlBody.FragmentEmptyIff | plugins/module_utils/soap_module/domain/value_objects/xml_body.py:117-119 | A fragment fails with "Keine XML-Elemente in data gefunden" exactly when every entry is an empty list. |
| PlainXmlBody.EnvelopeAnyCase | plugins/module_utils/soap_module/domain/value_objects/xml_body.py:12-17 | Envelope sniffing ignores ASCII case: any text containing "<soap:envelope" or "<envelope" in any case is an envelope. |
| PlainXmlBody.EmptyNotEnvelope | plugins/module_utils/soap_module/domain/value_objects/xml_body.py:9-17 | A missing or empty text is never an envelope, and its length is 0. |
| PlainXmlBody.StringRoundTrip | plugins/module_utils/soap_module/domain/value_objects/xml_body.py:130-135 | to_string(from_string(s)) is s, and the body's length is the length of s. |
| SoapEnvelope.New | module_utils/soap_module/domain/value_objects/soap_envelope.py:40-57 | An envelope exists exactly when the body is non-empty and parses and any non-empty header parses. The checks run in that order, each with its own ValueError message. |
| SoapEnvelope.FromBody | module_utils/soap_module/domain/value_objects/soap_envelope.py:59-67 | The envelope holds the body and no header. |
| SoapEnvelope.WithHeader | module_utils/soap_module/domain/value_objects/soap_envelope.py:99-106 | The copy is validated again: it exists exactly when the new header is empty or parses, and it differs only in its header. |
| SoapEnvelope.WithNamespace | module_utils/soap_module/domain/value_objects/soap_envelope.py:108-118 | Always succeeds: the copy's declarations are the old ones (or none) with the prefix set to the URI, and nothing else changes. |
| SoapEnvelope.XmlnsAttrs | module_utils/soap_module/domain/value_objects/soap_envelope.py:74-76 | One xmlns:prefix="uri" attribute per declaration, in insertion order. |
| SoapEnvelope.Build | module_utils/soap_module/domain/value_objects/soap_envelope.py:69-97 | The list-and-join construction yields exactly the envelope text. |
| SoapEnvelope.CollectDeclarations | module_utils/soap_module/domain/value_objects/soap_envelope.py:72-76 | The declaration list is xmlns:soap for the version's namespace first, then one entry per declaration in insertion order. |
| SoapEnvelope.SoapTags | module_utils/soap_module/domain/value_objects/soap_envelope.py:81-95 | The tags formatted from the version's prefix "soap" are the Envelope, Header and Body tags of the envelope text. |
| SoapEnvelope.JoinLines | module_utils/soap_module/domain/value_objects/soap_envelope.py:81-97 | The line list of build, joined with newlines, is the envelope text. |
| SoapEnvelope.NamespacesDiffer | module_utils/soap_module/domain/value_objects/soap_envelope.py:15-25 | The two versions have different namespaces and the same prefix "soap", so the namespace identifies the version. |
| SoapEnvelope.WireFrame | module_utils/soap_module/domain/value_objects/soap_envelope.py:81-97 | The text starts with the XML declaration line and the Envelope start tag, and ends with the closing Body and Envelope tags. |
| SoapEnvelope.BodyVerbatim | module_utils/soap_module/domain/value_objects/soap_envelope.py:84-93 | The body appears verbatim between the Body tags; when there is a header, the Header block comes directly before. |
| SoapEnvelope.EmptyHeaderOmitted | module_utils/soap_module/domain/value_objects/soap_envelope.py:84-88 | An empty header leaves the text the same as no header. |
| SoapEnvelope.WithNamespaceAppends | module_utils/soap_module/domain/value_objects/soap_envelope.py:108-118 | A new prefix adds its declaration at the end of the start tag, and the rest of the text is unchanged. |
| SoapEnvelope.WithNamespaceGet | module_utils/soap_module/domain/value_objects/soap_envelope.py:110-111 | After with_namespace, the new prefix resolves to the new URI and every other declaration is kept. |
| SoapEnvelope.EqualsHash | module_utils/soap_module/domain/value_objects/soap_envelope.py:123-133 | Equal envelopes hash alike, and equality is an equivalence. |
| SoapEnvelope.DeclarationOrderIgnored | module_utils/soap_module/domain/value_objects/soap_envelope.py:123-133 | Declaring the same prefixes in another order gives an equal envelope with the same hash. |
| TreeSoapEnvelope.New | plugins/module_utils/soap_module/domain/value_objects/soap_envelope.py:40-56 | An envelope exists exactly when the body is non-empty and parses and any non-empty header parses. The checks run in that order, each with its own ValueError message. |
| TreeSoapEnvelope.FromBody | plugins/module_utils/soap_module/domain/value_objects/soap_envelope.py:58-80 | The envelope holds the body, no header, and the given body prefix. |
| TreeSoapEnvelope.WithHeader | plugins/module_utils/soap_module/domain/value_objects/soap_envelope.py:127-135 | The copy is validated again: it exists exactly when the new header is empty or parses, and only the header differs. |
| TreeSoapEnvelope.WithNamespace | plugins/module_utils/soap_module/domain/value_objects/soap_envelope.py:137-148 | Always succeeds: the copy's declarations are the old ones with the prefix set to the URI, and the body prefix and everything else are kept. |
| TreeSoapEnvelope.WithNamespacePrefix | plugins/module_utils/soap_module/domain/value_objects/soap_envelope.py:150-166 | Always succeeds, and only the body prefix changes. |
| TreeSoapEnvelope.EnvelopeTree | plugins/module_utils/soap_module/domain/value_objects/soap_envelope.py:105-120 | The tree is a SOAP Envelope in the version's namespace. It holds a Header wrapping the parsed header when there is one, and always last a Body wrapping the parsed body. |
| TreeSoapEnvelope.PrefixRegistration | plugins/module_utils/soap_module/domain/value_objects/soap_envelope.py:98-103 | At most one extra registration, present exactly when a declaration uses the body prefix. |
| TreeSoapEnvelope.Build | plugins/module_utils/soap_module/domain/value_objects/soap_envelope.py:82-125 | The text is the XML declaration line followed by the serialised envelope tree. The registrations made are the SOAP namespace, each declaration, then the body prefix. |
| TreeSoapEnvelope.RegisterNamespaces | plugins/module_utils/soap_module/domain/value_objects/soap_envelope.py:88-103 | The registration loop makes exactly the specified registrations, in order. |
| TreeSoapEnvelope.AssembleTree | plugins/module_utils/soap_module/domain/value_objects/soap_envelope.py:105-122 | The assembled tree is exactly the specified envelope tree. |
| TreeSoapEnvelope.FindPrefix | plugins/module_utils/soap_module/domain/value_objects/soap_envelope.py:100-103 | The search loop yields the registration of the first declaration whose prefix is the body prefix, or nothing. |
| TreeSoapEnvelope.PrefixRegisteredLast | plugins/module_utils/soap_module/domain/value_objects/soap_envelope.py:98-103 | A declared body prefix is registered last, so the serialiser writes that prefix for its URI. |
| TreeSoapEnvelope.SoapRegisteredFirst | plugins/module_utils/soap_module/domain/value_objects/soap_envelope.py:88-103 | The SOAP namespace is always registered first, under the prefix soap. One registration follows per declaration, plus one for a declared body prefix. |
| TreeSoapEnvelope.EmptyHeaderOmitted | plugins/module_utils/soap_module/domain/value_objects/soap_envelope.py:108-112 | An empty header builds the same envelope as no header. |
| TreeSoapEnvelope.EqualsHash | plugins/module_utils/soap_module/domain/value_objects/soap_envelope.py:171-188 | Equal envelopes hash alike, and the body prefix takes part in both. |
| TreeSoapEnvelope.PrefixDistinguishes | plugins/module_utils/soap_module/domain/value_objects/soap_envelope.py:171-178 | Two envelopes that differ only in the body prefix are not equal. |
| Url.New | module_utils/soap_module/domain/value_objects/url.py:19-33 | A URL exists exactly for valid text. The checks run in the source's order, each with its own message: empty, unparsable, no scheme, no host, a scheme other than http/https. |
| Url.FromString | plugins/module_utils/soap_module/domain/value_objects/url.py:35-38 | The URL holds the stripped text, and exists exactly when that text is valid. |
| Url.Scheme | module_utils/soap_module/domain/value_objects/url.py:50-52 | The scheme of a valid URL is "http" or "https". |
| Url.Host | plugins/module_utils/soap_module/domain/value_objects/url.py:54-56 | The host of a valid URL is the non-empty network location, free of '/', '?' and '#'. |
| Url.Path | module_utils/soap_module/domain/value_objects/url.py:58-60 | The path starts with '/', contains no '?' or '#', and is the parsed path whenever that is non-empty (else "/"). |
| Url.IsSecureIff | plugins/module_utils/soap_module/domain/value_objects/url.py:71-73 | is_secure holds exactly when the URL text starts with "https:" in any letter case, once leading controls and spaces and every tab, carriage return and line feed are removed. |
| Url.BaseUrlParts | module_utils/soap_module/domain/value_objects/url.py:66-69 | The base URL is a valid URL with the same scheme, host and path and no parameters, query or fragment. |
| Url.WithPathParts | plugins/module_utils/soap_module/domain/value_objects/url.py:75-86 | with_path succeeds for a path free of '?', '#', parameters, tabs and line breaks. It replaces the path, adding a leading '/', and keeps every other part. |
| Url.ValidFromParse | module_utils/soap_module/domain/value_objects/url.py:19-33 | Text that parses to well-formed http(s) parts is a valid URL with exactly those parts. |
| Url.WithQueryParams | plugins/module_utils/soap_module/domain/value_objects/url.py:88-106 | The loop-based method returns exactly the URL with the merged, re-encoded query, and always succeeds. |
| Url.MergeQueryParams | module_utils/soap_module/domain/value_objects/url.py:93-95 | The merge loop gives exactly the specified merge: existing[key] = [value] for each new parameter in order. |
| Url.MergeParamsGet | plugins/module_utils/soap_module/domain/value_objects/url.py:94-95 | After the merge, each new key maps to its one-element list and every other key keeps its values. |
| Url.WithQueryParamsKeeps | module_utils/soap_module/domain/value_objects/url.py:97-106 | with_query_params keeps scheme, host, path, parameters and fragment; only the query changes. |
| Url.EqualsIsValue | plugins/module_utils/soap_module/domain/value_objects/url.py:111-118 | Two URLs are equal exactly when their texts are, and equal URLs hash alike. |
| Url.FromPartsComponents | module_utils/soap_module/domain/value_objects/url.py:40-48 | from_parts of well-formed pieces succeeds and gives back the same scheme, host and path, with the encoded query when there is one. |
| Url.FromTextParts | plugins/module_utils/soap_module/domain/value_objects/url.py:44-48 | The text that from_parts builds parses back to its pieces. |
| UrlLib.ParseUnparse | module_utils/soap_module/domain/value_objects/url.py:75-86 | urlunparse followed by urlparse gives back well-formed parts unchanged; with_path and with_query_params rely on this. |
| UrlLib.UrlParseWellFormed | plugins/module_utils/soap_module/domain/value_objects/url.py:24-30 | Every urlparse result with a scheme and a network location is well formed. |
| UrlLib.SplitSchemePrefix | module_utils/soap_module/domain/value_objects/url.py:24-27 | A non-empty parsed scheme is the lower-cased text before the first ':'. |
| UrlLib.SplitTailOf | plugins/module_utils/soap_module/domain/value_objects/url.py:77-86 | The tail after the network location splits back into path, parameters, query and fragment. |
| UrlLib.UnparseShape | module_utils/soap_module/domain/value_objects/url.py:78-85 | Well-formed parts are written as the scheme, "://", the network location and the rest. |
| UrlLib.QuotePlusNoChar | plugins/module_utils/soap_module/domain/value_objects/url.py:44 | quote_plus never produces '#', a tab, a carriage return or a line feed. |
| UrlLib.UrlEncodeNoHash | module_utils/soap_module/domain/value_objects/url.py:44-47 | An encoded query string holds no '#', tab, carriage return or line feed. So it cannot spill into the fragment, and urlsplit's cleanup leaves it alone. |
| UrlLib.UrlEncodeSeqNoHash | plugins/module_utils/soap_module/domain/value_objects/url.py:97 | A doseq query string holds no '#', tab, carriage return or line feed. |
| UrlLib.UrlEncodeEmptyIff | module_utils/soap_module/domain/value_objects/url.py:44-47 | urlencode of a non-empty dict is non-empty, since each field holds '='; urlencode of an empty dict is empty. |
| UrlLib.CleanedClean | module_utils/soap_module/domain/value_objects/url.py:24-27 | Before splitting, urlsplit's cleanup leaves no tab, carriage return or line feed and no leading control character or space. Text that has none of them is left unchanged. |
| UrlLib.RemoveUnsafeSafe | plugins/module_utils/soap_module/domain/value_objects/url.py:24-27 | Removing the unsafe characters leaves none of them, keeps text without them as it is, and keeps a first character that is not a control or a space. |
| UrlLib.UnparseClean | module_utils/soap_module/domain/value_objects/url.py:75-86 | The text urlunparse writes for well-formed parts has nothing for urlsplit's cleanup to change. |
| UrlLib.UrlParseScheme | plugins/module_utils/soap_module/domain/value_objects/url.py:24-27 | The scheme of a parse is the one found in the cleaned text, not in the raw input. |
| SoapAction.New | module_utils/soap_module/domain/value_objects/soap_action.py:20-27 | An action exists exactly when its value is non-empty and free of whitespace. Each failed check raises its own ValueError, the emptiness check first. |
| SoapAction.FromString | module_utils/soap_module/domain/value_objects/soap_action.py:29-32 | The value is stripped first: " GetUser " gives "GetUser". The action exists exactly when the stripped text is non-empty and free of whitespace. |
| SoapAction.QualifiedNameSplit | module_utils/soap_module/domain/value_objects/soap_action.py:34-47 | Parsing splits at the last '#'. Failing that, it splits at the last '/' when "://" does not occur. Otherwise the whole text is the value, with no namespace. |
| SoapAction.TrailingSeparatorRejected | module_utils/soap_module/domain/value_objects/soap_action.py:40-47 | A trailing '#' leaves an empty action, which the constructor rejects. |
| SoapAction.QualifiedNameRoundTrip | module_utils/soap_module/domain/value_objects/soap_action.py:35-56 | from_qualified_name(get_qualified_name('#')) gives back the action when the namespace is non-empty and the value has no '#'. |
| SoapAction.HeaderValue | module_utils/soap_module/domain/value_objects/soap_action.py:69-78 | For SOAP "1.1" the value is wrapped in double quotes, as the SOAPAction header of SOAP 1.1 section 6.1.1 requires; for any other version it is returned unquoted. |
| SoapAction.EqualsIsStructural | module_utils/soap_module/domain/value_objects/soap_action.py:83-89 | Two actions are equal exactly when value and namespace match, and equal actions hash alike. |
| Endpoint.New | module_utils/soap_module/domain/entities/endpoint.py:44-80 | Construction succeeds exactly when the URL is non-empty and parses with an http or https scheme and a host, the auth settings are complete for their type, the timeout is positive and the SOAP version is "1.1" or "1.2". Each failure raises its own ValueError, in the order of the checks. On success the endpoint is unchanged except that a missing name is derived from the URL. |
| Endpoint.ConstructedName | module_utils/soap_module/domain/entities/endpoint.py:78-80 | A given name is kept. Otherwise the name is the one generated from the URL. |
| Endpoint.GeneratedNameShape | module_utils/soap_module/domain/entities/endpoint.py:82-85 | The generated name contains no '/' and neither starts nor ends with '_'. |
| Endpoint.NoneAuthRejected | module_utils/soap_module/domain/entities/endpoint.py:57-60 | auth_type "none" is not among the accepted types, so such an endpoint is always rejected; with a valid URL the ValueError names the type. |
| Endpoint.BaseUrl | module_utils/soap_module/domain/entities/endpoint.py:87-90 | The base URL is the URL's scheme, host and path, without query or fragment. It is the same base URL the Url value object gives. |
| Endpoint.AuthConfig | module_utils/soap_module/domain/entities/endpoint.py:96-111 | The configuration is None exactly when no auth type is set. Otherwise its first entry is the type. |
| Endpoint.AuthConfigKeys | module_utils/soap_module/domain/entities/endpoint.py:101-111 | The configuration holds username and password exactly for basic, digest and ntlm. It holds cert_path exactly for certificate, and key_path exactly for certificate with a key path given. |
| Endpoint.AuthConfigComplete | module_utils/soap_module/domain/entities/endpoint.py:62-64 | For a credential auth type that passed construction, the configuration carries both the username and the password, and neither is empty. |
| Endpoint.EmptyAuthType | module_utils/soap_module/domain/entities/endpoint.py:58-94 | An empty auth type skips the auth checks because it is falsy. It still counts as requiring auth, and its configuration holds only the type. |
| SoapRequest.CheckError | plugins/module_utils/soap_module/domain/entities/soap_request.py:28-40 | A request is accepted exactly when the endpoint URL and the body are non-empty, the SOAP version is "1.1" or "1.2" and the timeout is positive. Otherwise the error is the ValueError of the first check that fails. |
| SoapRequest.Soap12Type | plugins/module_utils/soap_module/domain/entities/soap_request.py:50-54 | The SOAP 1.2 Content-Type is application/soap+xml with charset utf-8. When an action is given, it is added as a quoted action parameter. |
| SoapRequest.HeaderDefaults | plugins/module_utils/soap_module/domain/entities/soap_request.py:44-54 | After construction, each header is the caller's value if the caller set it. Otherwise it is the SOAP default for the version: the Content-Type, plus the quoted SOAPAction under 1.1 when an action is given. Any other header stays absent. |
| SoapRequest.CallerHeadersKept | plugins/module_utils/soap_module/domain/entities/soap_request.py:46-54 | The defaults never overwrite a header the caller supplied. |
| SoapRequest.NoSoapActionHeaderIn12 | plugins/module_utils/soap_module/domain/entities/soap_request.py:50-54 | Under SOAP 1.2 no SOAPAction header is added; the request has one only if the caller gave it. |
| SoapRequest.EnvelopeText | plugins/module_utils/soap_module/domain/entities/soap_request.py:62-69 | A body that already contains a SOAP envelope start tag is returned as it is. |
| SoapRequest.BodyInEnvelope | plugins/module_utils/soap_module/domain/entities/soap_request.py:62-89 | The body always appears verbatim in the envelope text. |
| SoapRequest.EnvelopeStable | plugins/module_utils/soap_module/domain/entities/soap_request.py:68-89 | The envelope text is itself recognised as an envelope, so building the envelope a second time returns it unchanged. |
| SoapRequest.SoapRequest.constructor | plugins/module_utils/soap_module/domain/entities/soap_request.py:28-54 | A constructed request holds exactly the given fields, and its headers are the given ones completed with the SOAP defaults. |
| SoapRequest.SoapRequest.AddHeader | plugins/module_utils/soap_module/domain/entities/soap_request.py:56-60 | An empty key or value raises ValueError and leaves the headers unchanged. Otherwise exactly that one header is set. |
| SoapRequest.SoapRequest.Envelope | plugins/module_utils/soap_module/domain/entities/soap_request.py:62-89 | The envelope of a request contains its body. |
| SoapRequest.Create | plugins/module_utils/soap_module/domain/entities/soap_request.py:28-42 | Creation fails exactly when a construction check fails, with that check's ValueError. On success the request is new, holds the given fields, and its headers are the given ones completed with the SOAP defaults. |
| SoapResponse.New | module_utils/soap_module/domain/entities/soap_response.py:50-53 | A response exists exactly when its request id is non-empty. Otherwise the error is the ValueError naming request_id. |
| SoapResponse.SuccessExcludesFault | plugins/module_utils/soap_module/domain/entities/soap_response.py:55-61 | Success needs status SUCCESS and a 2xx status code. A response without a code is never successful, and a successful response is never a SOAP fault. |
| SoapResponse.FaultInfo | module_utils/soap_module/domain/entities/soap_response.py:63-72 | Fault information exists exactly when the status is SOAP_FAULT. |
| SoapResponse.FaultInfoFields | plugins/module_utils/soap_module/domain/entities/soap_response.py:68-72 | The fault information carries the fault code, string and detail under "code", "string" and "detail". |
| SoapResponse.FaultSummaryFirst | module_utils/soap_module/domain/entities/soap_response.py:74-80 | For a SOAP fault, the error summary is "SOAP Fault: " followed by the code and the string. |
| SoapResponse.ResultKeys | plugins/module_utils/soap_module/domain/entities/soap_response.py:87-117 | The keys of the Ansible result, in order: "changed", "request_id", "status", "status_code" and "success"; then "response_time_ms" when a time is known. A successful response adds "body", plus "parsed_body" when one is truthy. A failed response adds "failed" and "msg", then "fault" for a SOAP fault and "error" when a message is set. |
| SoapResponse.SuccessResultClean | module_utils/soap_module/domain/entities/soap_response.py:103-106 | A successful result carries the body and never "failed" or "msg". |
| SoapResponse.FailureResultKeys | plugins/module_utils/soap_module/domain/entities/soap_response.py:107-115 | A failed result has no body. It carries "fault" exactly for a SOAP fault and "error" exactly when an error message is set. |
| SoapResponse.ResultSuccess | module_utils/soap_module/domain/entities/soap_response.py:92-98 | The result's "success" is the response's success, and "changed" is always false. |
| SoapResponse.ResultFailure | plugins/module_utils/soap_module/domain/entities/soap_response.py:107-109 | A failed result has "failed" set to true, and its "msg" is the error summary. |
| SoapFaultService.FaultDict | plugins/module_utils/soap_module/domain/services/soap_fault_service.py:24-31 | A fault's dict has exactly the keys fault_code, fault_string, fault_actor and detail, in that order. |
| SoapFaultService.OrLookup | plugins/module_utils/soap_module/domain/services/soap_fault_service.py:59-61 | A chain of lookups joined by `or` gives the first truthy result. When none is truthy it gives the last lookup's result, and a lookup that raises ends the chain. |
| SoapFaultService.FaultFrom | plugins/module_utils/soap_module/domain/services/soap_fault_service.py:55-80 | A fault is found exactly when a code or a string is found. A missing code becomes "Unknown" and a missing string "Unknown error". Actor and detail are whatever their lookups give, and the lookups succeed only when none of the four chains raises. |
| SoapFaultService.ExtractFaultWith | plugins/module_utils/soap_module/domain/services/soap_fault_service.py:52-85 | A response with status SUCCESS never yields a fault. An exception in the lookups yields no fault instead of raising. |
| SoapFaultService.AsWrittenNeverFindsFault | plugins/module_utils/soap_module/domain/services/soap_fault_service.py:56-59 | As written, the first lookup raises AttributeError, because the XmlBody of this package has no find_element. No fault is ever extracted, whatever the response holds. |
| SoapFaultService.BodyFindTotal | plugins/module_utils/soap_module/domain/services/soap_fault_service.py:55-72 | With lookups that search the parsed body, no lookup chain ever raises. |
| SoapFaultService.FaultCodeFound | plugins/module_utils/soap_module/domain/services/soap_fault_service.py:42-80 | With working lookups, a failed response whose body has a non-empty faultcode element yields a fault carrying exactly that code. |
| SoapFaultService.CategorizeIgnoresCase | plugins/module_utils/soap_module/domain/services/soap_fault_service.py:106-127 | Categorising a fault ignores the case of its code. |
| SoapFaultService.ServerCode | plugins/module_utils/soap_module/domain/services/soap_fault_service.py:116-121 | A code naming the server or the receiver is a SERVER_ERROR, provided it names neither the client nor the sender. Containing no 'l' and no 'n' rules both out. |
| SoapFaultService.RetriableIsServerError | plugins/module_utils/soap_module/domain/services/soap_fault_service.py:87-121 | Every retriable fault (Server, soap:Server, Receiver, soap:Receiver) is categorised as SERVER_ERROR. |
| ValidationService.ValidationResult.constructor | plugins/module_utils/soap_module/domain/services/validation_service.py:15-18 | A new result is valid and holds no errors and no warnings. |
| ValidationService.ValidationResult.AddError | plugins/module_utils/soap_module/domain/services/validation_service.py:20-23 | Adding an error appends the message to the errors and makes the result invalid for good. The warnings are unchanged. |
| ValidationService.ValidationResult.AddWarning | plugins/module_utils/soap_module/domain/services/validation_service.py:25-27 | Adding a warning appends the message to the warnings and changes nothing else, so validity stays as it was. |
| ValidationService.ValidationResult.ToDict | plugins/module_utils/soap_module/domain/services/validation_service.py:29-35 | The dict has the keys valid, errors and warnings, in that order. "valid" is true exactly when there are no errors, and the lists are the recorded messages. |
| ValidationService.StrList | plugins/module_utils/soap_module/domain/services/validation_service.py:33-34 | A list of strings becomes a Python list of the same strings, in the same order. |
| ValidationService.UrlError | plugins/module_utils/soap_module/domain/services/validation_service.py:56-59 | The URL check fails exactly when the stripped URL is not a valid Url. |
| ValidationService.AddUrlError | plugins/module_utils/soap_module/domain/services/validation_service.py:56-59 | The URL check appends the URL's error, if any, and leaves the warnings alone. |
| ValidationService.CheckBody | plugins/module_utils/soap_module/domain/services/validation_service.py:61-74 | The body checks only warn: once when the body is no SOAP envelope, and once when it exceeds 1 MiB. |
| ValidationService.CheckTimeout | plugins/module_utils/soap_module/domain/services/validation_service.py:76-80 | A timeout that is not positive is an error. A timeout above 300 seconds is only a warning. |
| ValidationService.CheckActionAndVersion | plugins/module_utils/soap_module/domain/services/validation_service.py:82-88 | A missing action is a warning. A version other than 1.1 and 1.2 is an error. |
| ValidationService.ValidateRequest | plugins/module_utils/soap_module/domain/services/validation_service.py:43-90 | The result is new and consistent. Its errors are those of the URL, timeout and version checks, and its warnings those of the envelope, size, timeout and action checks, each in source order. |
| ValidationService.RequestValidIff | plugins/module_utils/soap_module/domain/services/validation_service.py:43-90 | A request is valid exactly when its URL is valid, its timeout positive and its version 1.1 or 1.2. The body and the action never make it invalid. |
| ValidationService.NotClosedBodyWarns | plugins/module_utils/soap_module/domain/services/validation_service.py:65-67 | A body that cannot be an envelope draws exactly the "no SOAP envelope" warning on an otherwise clean request. |
| ValidationService.MissingActionWarns | plugins/module_utils/soap_module/domain/services/validation_service.py:82-84 | A missing or empty SOAP action is a warning, never an error. |
| ValidationService.AuthErrors | plugins/module_utils/soap_module/domain/services/validation_service.py:112-124 | The auth check records at most one error. |
| ValidationService.CheckEndpointUrl | plugins/module_utils/soap_module/domain/services/validation_service.py:104-110 | An invalid URL is an error. A valid URL without https is a warning. |
| ValidationService.CheckAuth | plugins/module_utils/soap_module/domain/services/validation_service.py:112-124 | The auth check appends only the auth error, if any. |
| ValidationService.ValidateEndpoint | plugins/module_utils/soap_module/domain/services/validation_service.py:92-130 | The result is new and consistent. Its errors are those of the URL, auth and timeout checks, and its only possible warning is the one for a URL without https. |
| ValidationService.EndpointValidIff | plugins/module_utils/soap_module/domain/services/validation_service.py:92-130 | An endpoint is valid exactly when four checks pass. The stripped URL must be valid. Credential auth types need a username and a password, and certificate auth a cert_path. The default timeout must be positive. |
| ValidationService.ConstructedEndpointPasses | plugins/module_utils/soap_module/domain/services/validation_service.py:92-130 | Every endpoint that passed construction, and whose URL has no surrounding blanks, validates without errors. |
| ValidationService.HttpWarnsOnly | plugins/module_utils/soap_module/domain/services/validation_service.py:105-108 | A valid URL never draws an error. It draws the HTTPS warning exactly when it is not secure. |
| ValidationService.SoapNamespaceFound | plugins/module_utils/soap_module/domain/services/validation_service.py:191-201 | The search reports a namespace exactly when one of the declared URIs is a SOAP 1.1 or SOAP 1.2 envelope namespace. |
| ValidationService.StructureErrors | plugins/module_utils/soap_module/domain/services/validation_service.py:186-189 | Content that is not a SOAP envelope yields the single "no SOAP envelope" error. |
| ValidationService.ValidateSoapStructure | plugins/module_utils/soap_module/domain/services/validation_service.py:171-214 | An exception other than ValueError escapes. Otherwise the result is new and carries no warnings, and its errors are the structure errors. |
| ValidationService.NonEnvelopeOneError | plugins/module_utils/soap_module/domain/services/validation_service.py:186-189 | Content that is not an envelope yields exactly one error, whatever the other lookups would give. |
| ValidationService.EnvelopeStructure | plugins/module_utils/soap_module/domain/services/validation_service.py:191-209 | An envelope passes exactly when a SOAP namespace is declared and the body is non-empty. The missing-body error appears exactly when the body is missing. |
| SoapRequestFactory.MakeEnvelope | module_utils/soap_module/infrastructure/factories/soap_request_factory.py:44-57 | An envelope results exactly when the body and the header are valid. It holds exactly the given body, version and header, and the namespace declaration when one is given. An empty body raises the envelope's ValueError. |
| SoapRequestFactory.Assemble | module_utils/soap_module/infrastructure/factories/soap_request_factory.py:59-72 | A request results exactly when the construction checks pass and no extra header has an empty key or value. A failed check raises its own error. The request holds the given URL, action, body, namespace, version, timeout and time. |
| SoapRequestFactory.HeadersOutcome | module_utils/soap_module/infrastructure/factories/soap_request_factory.py:69-72 | Adding the extra headers succeeds exactly when none has an empty key or value. |
| SoapRequestFactory.ExtraHeadersWin | module_utils/soap_module/infrastructure/factories/soap_request_factory.py:69-72 | An extra header overrides a SOAP default of the same name. Every other header keeps its default. |
| SoapRequestFactory.Construct | module_utils/soap_module/infrastructure/factories/soap_request_factory.py:60-74 | Construction followed by the header loop fails exactly as the assembled request says. On success it yields a new request holding what the assembly holds. |
| SoapRequestFactory.AnsibleRequest | module_utils/soap_module/infrastructure/factories/soap_request_factory.py:28-29 | Parameters without endpoint_url raise KeyError("endpoint_url"). |
| SoapRequestFactory.FromAnsibleParams | module_utils/soap_module/infrastructure/factories/soap_request_factory.py:17-74 | Building from Ansible parameters step by step fails with the error the specification function gives. On success it returns a new request equal to the one that function describes. |
| SoapRequestFactory.AnsibleRequestShape | module_utils/soap_module/infrastructure/factories/soap_request_factory.py:28-67 | A request built from Ansible parameters takes the URL, the action (default '') and the namespace. It also takes the version string (default '1.1', one of the two versions) and a positive timeout (default 30). Its body is the text of the envelope around the body content. That envelope is SOAP 1.1 exactly for '1.1', declares the namespace under its prefix (default 'ns') exactly when one is given, and carries the SOAP header exactly when one is given. |
| SoapRequestFactory.BodyWins | module_utils/soap_module/infrastructure/factories/soap_request_factory.py:35-36 | A truthy body parameter is used as it is, and body_dict is then never read. |
| SoapRequestFactory.AnsibleHeadersWin | module_utils/soap_module/infrastructure/factories/soap_request_factory.py:69-72 | Headers from the parameters override the SOAP defaults of the request. |
| SoapRequestFactory.AsWrittenBodyDictRaises | module_utils/soap_module/infrastructure/factories/soap_request_factory.py:36-42 | As written, a body that must come from body_dict raises AttributeError, because the XmlBody of this package has no to_string. |
| SoapRequestFactory.IntendedBodyDictRendered | module_utils/soap_module/infrastructure/factories/soap_request_factory.py:36-42 | As intended, the body content is the serialised tree of body_dict under its root tag (default 'Request'). |
| SoapRequestFactory.FromEndpointAndAction | module_utils/soap_module/infrastructure/factories/soap_request_factory.py:76-118 | Building from an endpoint and an action step by step fails with the error the specification function gives. On success it returns a new request equal to the one that function describes. |
| SoapRequestFactory.AsWrittenFromEndpointRaises | module_utils/soap_module/infrastructure/factories/soap_request_factory.py:96-96 | As written, reading endpoint.soap_version raises AttributeError, because Endpoint has only default_soap_version. No request is ever built this way. |
| SoapRequestFactory.EndpointRequestShape | module_utils/soap_module/infrastructure/factories/soap_request_factory.py:95-111 | With the endpoint's default version, the request takes the endpoint's URL, timeout and version, and the action's value as its SOAP action. Its body is the envelope, which declares the action's namespace under 'ns' exactly when the action has one. |
| SoapRequestFactory.DictRequest | module_utils/soap_module/infrastructure/factories/soap_request_factory.py:131-139 | A dict without endpoint_url raises KeyError("endpoint_url"). One with it but without body raises KeyError("body"). |
| SoapRequestFactory.FromDict | module_utils/soap_module/infrastructure/factories/soap_request_factory.py:120-139 | Building from a dict fails with the error the specification function gives. On success it returns a new request equal to the one that function describes. |
| SoapRequestFactory.DictDefaults | module_utils/soap_module/infrastructure/factories/soap_request_factory.py:131-139 | A dict holding only a URL and a body gives a SOAP 1.1 request with an empty action, no namespace and timeout 30. Its only header is the SOAP 1.1 Content-Type. |
| EndpointFactory.FromAnsibleParams | module_utils/soap_module/infrastructure/factories/endpoint_factory.py:13-34 | Parameters without endpoint_url raise KeyError. A resulting endpoint has passed the entity's checks and carries the URL, auth type, credentials, certificate paths, timeout (default 30) and supported operations from the parameters. Its name is 'default' unless one is given, and every other field keeps the entity's default. |
| EndpointFactory.AsWrittenAnsibleDefaultRejected | module_utils/soap_module/infrastructure/factories/endpoint_factory.py:27-27 | As written, parameters without auth_type never yield an endpoint: the default 'none' is not an auth type the entity accepts. |
| EndpointFactory.IntendedAnsibleUrlOnly | module_utils/soap_module/infrastructure/factories/endpoint_factory.py:24-34 | With 'none' read as no authentication, a valid URL alone yields an endpoint named 'default', without authentication, with timeout 30 and no listed operations. |
| EndpointFactory.FromConfigFile | module_utils/soap_module/infrastructure/factories/endpoint_factory.py:36-57 | A configuration without url raises KeyError. A resulting endpoint has passed the entity's checks and takes auth type and credentials from the auth sub-dict, with timeout and operations from the configuration. Its name is 'unnamed' unless one is given. |
| EndpointFactory.AsWrittenConfigDefaultRejected | module_utils/soap_module/infrastructure/factories/endpoint_factory.py:50-50 | As written, a configuration whose auth names no type never yields an endpoint. |
| EndpointFactory.FromUrl | module_utils/soap_module/infrastructure/factories/endpoint_factory.py:59-78 | A resulting endpoint has passed the entity's checks. It carries the URL and the optional name (default 'default'), auth type, credentials and timeout, and never has certificate paths or listed operations. |
| EndpointFactory.AsWrittenFromUrlRejected | module_utils/soap_module/infrastructure/factories/endpoint_factory.py:71-78 | As written, from_url without an auth_type option fails for every URL. A valid URL is rejected with the ValueError naming 'none'. |
| EndpointFactory.IntendedFromUrlAccepted | module_utils/soap_module/infrastructure/factories/endpoint_factory.py:71-78 | With 'none' read as no authentication, every valid URL without options yields an endpoint named 'default', without authentication and with timeout 30. |
| SoapRequestDto.Defaults | plugins/module_utils/soap_module/application/dtos/soap_request_dto.py:14-39 | A DTO given only the two required fields has no body, root tag "Request", SOAP 1.1, timeout 30 and auth type "none". Validation is on, the cache is off and no retries are made. |
| SoapRequestDto.Checks | plugins/module_utils/soap_module/application/dtos/soap_request_dto.py:48-78 | validate_input makes nine checks, in source order. |
| SoapRequestDto.ValidateInput | plugins/module_utils/soap_module/application/dtos/soap_request_dto.py:41-80 | Input is valid exactly when all nine checks hold, and a message is reported exactly when it is not valid. |
| SoapRequestDto.FirstFailing | plugins/module_utils/soap_module/application/dtos/soap_request_dto.py:41-80 | Finds the first check that does not hold: every check before it holds. None means every check holds. |
| SoapRequestDto.ValidateInputFirstFailure | plugins/module_utils/soap_module/application/dtos/soap_request_dto.py:41-80 | The first failing check decides the result: its message is reported, and the checks after it do not matter. |
| SoapRequestDto.SoapActionUnchecked | plugins/module_utils/soap_module/application/dtos/soap_request_dto.py:51-52 | The SOAP action plays no part in validation, since its check is commented out. |
| SoapRequestDto.DefaultsValid | plugins/module_utils/soap_module/application/dtos/soap_request_dto.py:63-68 | The default auth type "none" needs no credentials, so a DTO with a URL and a body is valid as it stands. |
| SoapRequestDto.SampleFailures | plugins/module_utils/soap_module/application/dtos/soap_request_dto.py:48-78 | Each of these inputs is rejected with the message of the check that catches it: a missing URL, a missing body, both bodies given, timeout 0, negative retries, and basic auth without credentials. |
| SoapRequestDto.StrDictValue | plugins/module_utils/soap_module/application/dtos/soap_request_dto.py:104-105 | Headers become a Python dict with the same keys and string values, in the same order. |
| SoapRequestDto.ResponseDictFields | plugins/module_utils/soap_module/application/dtos/soap_request_dto.py:98-102 | The dict always holds success, status_code and body with the DTO's values. |
| SoapRequestDto.ResponseDictKeyList | plugins/module_utils/soap_module/application/dtos/soap_request_dto.py:96-116 | The keys in order: success, status_code and body, then headers, response_time_ms, extracted_data and error_message, each when its condition holds. |
| SoapRequestDto.ResponseDictKeys | plugins/module_utils/soap_module/application/dtos/soap_request_dto.py:104-114 | Headers appear only when there are any, and the response time exactly when it is known. Extracted data and the error message appear only when they are truthy. |
| SoapRequestDto.ResponseDictHeaders | plugins/module_utils/soap_module/application/dtos/soap_request_dto.py:104-105 | When headers are present, the dict carries them unchanged. |
| DtoMappers.DtoToCommand | plugins/module_utils/soap_module/application/mappers/dto_mappers.py:19-77 | Building the command step by step yields exactly the command or the error the specification function gives. That function builds the endpoint first and then the body. |
| DtoMappers.CommandFields | plugins/module_utils/soap_module/application/mappers/dto_mappers.py:39-77 | The conversion fails exactly when the endpoint cannot be built, and with that error. Otherwise the command holds the built endpoint and copies the DTO's action, namespace, prefix, headers, timeout, validation, cache, retry, XPath and namespace-stripping settings. |
| DtoMappers.BodyRule | plugins/module_utils/soap_module/application/mappers/dto_mappers.py:51-61 | A non-empty body text always wins. A missing or empty one is replaced by the body dict, rendered under the root tag and namespace, when that dict is non-empty. Otherwise the body is kept as it is. |
| DtoMappers.ResultToDto | plugins/module_utils/soap_module/application/mappers/dto_mappers.py:79-106 | The DTO reports success exactly when the result succeeded with a response. |
| DtoMappers.NoResponseDto | plugins/module_utils/soap_module/application/mappers/dto_mappers.py:100-106 | Without a response, the DTO is a failure with status 0 and an empty body. It always carries a message, the result's own when it has one. |
| DtoMappers.ResponseToDto | plugins/module_utils/soap_module/application/mappers/dto_mappers.py:108-126 | The DTO's success is the response's success, and a bare response carries no extracted data. |
| DtoMappers.ExecutedDtoMatchesResponse | plugins/module_utils/soap_module/application/mappers/dto_mappers.py:90-99 | A use-case result with a response maps to the same DTO as the response itself. Only the extracted data differs, and so does the message, which a success drops. |
| DtoMappers.ExecutedNeverUnknown | plugins/module_utils/soap_module/application/mappers/dto_mappers.py:100-106 | A use-case result without a response always carries its own message, so "Unknown error" never appears. |
| SendSoapRequestUseCase.Declarations | plugins/module_utils/soap_module/application/use_cases/send_soap_request_use_case.py:129-133 | Namespace declarations exist exactly when both namespace and prefix are set, and then map the prefix, and only it, to the namespace. |
| SendSoapRequestUseCase.Execute | plugins/module_utils/soap_module/application/use_cases/send_soap_request_use_case.py:93-181 | execute returns exactly what the decision function gives for the errors of the endpoint validation. |
| SendSoapRequestUseCase.SendParsed | plugins/module_utils/soap_module/application/use_cases/send_soap_request_use_case.py:116-181 | After the endpoint check, execute parses the action, sends and extracts, as the decision function describes. |
| SendSoapRequestUseCase.ValidationShortCircuits | plugins/module_utils/soap_module/application/use_cases/send_soap_request_use_case.py:103-114 | When asked for, a failed endpoint check ends the use case with its errors and no response, whatever the service would have done. |
| SendSoapRequestUseCase.ValidationSkipped | plugins/module_utils/soap_module/application/use_cases/send_soap_request_use_case.py:104-104 | Without the check, the endpoint's errors play no part. |
| SendSoapRequestUseCase.InvalidActionNotSent | plugins/module_utils/soap_module/application/use_cases/send_soap_request_use_case.py:116-127 | An action that does not parse ends the use case with "Ungültige SOAP Action" before anything is sent. |
| SendSoapRequestUseCase.RetryPathChosen | plugins/module_utils/soap_module/application/use_cases/send_soap_request_use_case.py:136-154 | The retrying send is used exactly when retries are asked for. The result then does not depend on the single send, and otherwise not on the retrying one. |
| SendSoapRequestUseCase.SendFailureReported | plugins/module_utils/soap_module/application/use_cases/send_soap_request_use_case.py:155-160 | An exception from the service ends the use case without a response, and the message names the exception. |
| SendSoapRequestUseCase.SuccessMeansSuccessfulResponse | plugins/module_utils/soap_module/application/use_cases/send_soap_request_use_case.py:175-181 | Success means exactly a successful response. A success carries no message, a result without a response always carries one, and a failed response passes on its own message. |
| SendSoapRequestUseCase.ExtractionOnlyOnSuccess | plugins/module_utils/soap_module/application/use_cases/send_soap_request_use_case.py:162-173 | Data is extracted only with an XPath and a successful response. A failed extraction changes neither success, response nor message. |
| SendSoapRequestUseCase.SetIf | plugins/module_utils/soap_module/application/use_cases/send_soap_request_use_case.py:59-66 | The key is set to the value when the condition holds; every other key, and the key otherwise, is unchanged. |
| SendSoapRequestUseCase.DictWithoutResponse | plugins/module_utils/soap_module/application/use_cases/send_soap_request_use_case.py:51-54 | Without a response, "changed" equals "success" (the Ansible convention). |
| SendSoapRequestUseCase.DictWithResponse | plugins/module_utils/soap_module/application/use_cases/send_soap_request_use_case.py:56-57 | With a response, its own result dict overrides both keys. "success" becomes the response's success and "changed" is always false, so a successful send reports no change. |
| SendSoapRequestUseCase.DictOptionalKeys | plugins/module_utils/soap_module/application/use_cases/send_soap_request_use_case.py:59-66 | extracted_data, validation_errors and error_message appear exactly when their values are truthy, and then carry those values. |
| SendSoapRequestUseCase.ExecutedDictSuccess | plugins/module_utils/soap_module/application/use_cases/send_soap_request_use_case.py:49-68 | The dict of a result that execute produced reports the success execute computed. |
| BatchSendUseCase.Outcomes | plugins/module_utils/soap_module/application/use_cases/batch_send_use_case.py:76-78 | Each command gets exactly one result. |
| BatchSendUseCase.OutcomeAt | plugins/module_utils/soap_module/application/use_cases/batch_send_use_case.py:76-78 | Each command's result sits at the command's own index and is what the single-request use case returns for it. |
| BatchSendUseCase.CountSuccess | plugins/module_utils/soap_module/application/use_cases/batch_send_use_case.py:80-83 | The number of successes never exceeds the number of results. |
| BatchSendUseCase.FirstFailure | plugins/module_utils/soap_module/application/use_cases/batch_send_use_case.py:80-85 | Finds the first failed result: every result before it succeeded. When none failed, it is the number of results. |
| BatchSendUseCase.InOrder | plugins/module_utils/soap_module/application/use_cases/batch_send_use_case.py:76-78 | The sequential order visits every command once, in its own position. |
| BatchSendUseCase.Completed | plugins/module_utils/soap_module/application/use_cases/batch_send_use_case.py:108-111 | Results listed in a completion order are the command results at the indices of that order. |
| BatchSendUseCase.SendOne | plugins/module_utils/soap_module/application/use_cases/batch_send_use_case.py:77-77 | One call of the single-request use case returns that use case's result for the command. |
| BatchSendUseCase.Gather | plugins/module_utils/soap_module/application/use_cases/batch_send_use_case.py:70-92 | The collecting loop returns the totals over the results in the order they are collected. It counts successes and failures and stops after the first failure when asked to. |
| BatchSendUseCase.GatherStep | plugins/module_utils/soap_module/application/use_cases/batch_send_use_case.py:78-83 | Collecting one more result extends the collected prefix by it and adds one to the success count exactly when it succeeded. |
| BatchSendUseCase.CollectedOutcomes | plugins/module_utils/soap_module/application/use_cases/batch_send_use_case.py:100-111 | Collecting the results in a completion order reorders the command results and changes nothing else. |
| BatchSendUseCase.FirstFailureAt | plugins/module_utils/soap_module/application/use_cases/batch_send_use_case.py:80-85 | A failure preceded only by successes is the first failure. |
| BatchSendUseCase.ExecuteBatch | plugins/module_utils/soap_module/application/use_cases/batch_send_use_case.py:55-137 | Sequential execution gives the totals over the command results in their own order. Parallel execution gives the totals over the same results in the completion order. |
| BatchSendUseCase.CountAllSucceed | plugins/module_utils/soap_module/application/use_cases/batch_send_use_case.py:80-81 | When every result succeeded, the success count is the number of results. |
| BatchSendUseCase.AccumulateCounts | plugins/module_utils/soap_module/application/use_cases/batch_send_use_case.py:76-92 | Every collected result counts once, as a success or a failure, and the collected results are a prefix. Without stop-on-error they are all results. With it, at most one failure is collected, it is the last, and all before it succeeded. |
| BatchSendUseCase.ReachedStep | plugins/module_utils/soap_module/application/use_cases/batch_send_use_case.py:108-116 | One more completed index adds itself to the reached successes exactly when it succeeded. |
| BatchSendUseCase.CountCompleted | plugins/module_utils/soap_module/application/use_cases/batch_send_use_case.py:108-116 | Results collected in an order without repeats count exactly the successful indices that order reaches. |
| BatchSendUseCase.ParallelSameTotals | plugins/module_utils/soap_module/application/use_cases/batch_send_use_case.py:94-137 | Without stop-on-error, a parallel run reports the same success and failure counts as a sequential run, whatever the completion order. |
| BatchSendUseCase.ThreeRequestsOneFailing | plugins/module_utils/soap_module/application/use_cases/batch_send_use_case.py:76-92 | With three requests whose second fails, the batch reports 3 total, 2 successful and 1 failed. With stop-on-error only the first two results are kept, giving 1 successful and 1 failed. |
| BatchSendUseCase.BatchToDict | plugins/module_utils/soap_module/application/use_cases/batch_send_use_case.py:33-40 | The dict holds total, successful, failed and results. results lists each result's own dict, in order. |
| ValidateEndpointUseCase.QuoteFrom | plugins/module_utils/soap_module/application/use_cases/validate_endpoint_use_case.py:130-131 | Finds the first double quote at or after the start, with no quote before it; None means there is none. |
| ValidateEndpointUseCase.NameAt | plugins/module_utils/soap_module/application/use_cases/validate_endpoint_use_case.py:130-131 | A match of name="…" captures a non-empty name free of quotes and ends after its closing quote. |
| ValidateEndpointUseCase.LazyFrom | plugins/module_utils/soap_module/application/use_cases/validate_endpoint_use_case.py:130-131 | The lazy skip to the first name="…" on the same line captures a non-empty name free of quotes. |
| ValidateEndpointUseCase.MatchAt | plugins/module_utils/soap_module/application/use_cases/validate_endpoint_use_case.py:130-131 | A match starting with "<operation" captures a non-empty name free of quotes and ends after the start. |
| ValidateEndpointUseCase.FindAll | plugins/module_utils/soap_module/application/use_cases/validate_endpoint_use_case.py:131-131 | Every name the pattern finds is non-empty and free of double quotes. |
| ValidateEndpointUseCase.Distinct | plugins/module_utils/soap_module/application/use_cases/validate_endpoint_use_case.py:133-133 | Duplicate removal keeps exactly the same names, each once. |
| ValidateEndpointUseCase.OperationsDistinctNames | plugins/module_utils/soap_module/application/use_cases/validate_endpoint_use_case.py:120-133 | The WSDL operations are distinct, non-empty, quote-free names, exactly those the pattern finds. |
| ValidateEndpointUseCase.Execute | plugins/module_utils/soap_module/application/use_cases/validate_endpoint_use_case.py:62-118 | execute returns what the specification function gives for the errors of the endpoint validation. |
| ValidateEndpointUseCase.Check | plugins/module_utils/soap_module/application/use_cases/validate_endpoint_use_case.py:84-118 | The probes after the configuration check give what the specification function describes. |
| ValidateEndpointUseCase.InvalidConfigNotProbed | plugins/module_utils/soap_module/application/use_cases/validate_endpoint_use_case.py:77-82 | An invalid configuration ends the use case with its errors before the repository is asked anything. |
| ValidateEndpointUseCase.WsdlUrl | plugins/module_utils/soap_module/application/use_cases/validate_endpoint_use_case.py:102-102 | The WSDL is fetched from the address the command gives when it is non-empty, else from the endpoint's URL with "?wsdl" appended. |
| ValidateEndpointUseCase.ProbeOnlyWhenAsked | plugins/module_utils/soap_module/application/use_cases/validate_endpoint_use_case.py:85-96 | Reachability is probed only when asked for. A failing probe makes the result invalid, while an endpoint found unreachable stays valid. |
| ValidateEndpointUseCase.WsdlFound | plugins/module_utils/soap_module/application/use_cases/validate_endpoint_use_case.py:98-118 | Past the configuration check, the result is valid exactly when no probe raised. The WSDL counts as found exactly when it was asked for and the download gave non-empty content; its operations are then listed. A failed download changes nothing else. |
| ValidateEndpointUseCase.ResultToDict | plugins/module_utils/soap_module/application/use_cases/validate_endpoint_use_case.py:32-41 | The dict has six entries. The two lists are the result's lists, or empty lists when they are missing. |
| ValidateEndpointUseCase.DictListsNeverNone | plugins/module_utils/soap_module/application/use_cases/validate_endpoint_use_case.py:38-39 | validation_errors and wsdl_operations are always lists in the dict, and a missing one is the empty list. |
| SoapBatchAction.ItemElements | plugins/action/soap_batch.py:153-165 | A list becomes one sibling per item, all tagged like the key, with no wrapper. |
| SoapBatchAction.ItemElement | plugins/action/soap_batch.py:157-165 | A list item that is not a dict becomes an element with str(item) as text and no children. |
| SoapBatchAction.DictToXml | plugins/action/soap_batch.py:142-167 | The conversion appends the elements for the data to the parent, in key order, and leaves the parent otherwise unchanged. |
| SoapBatchAction.AddEntry | plugins/action/soap_batch.py:145-167 | One entry appends its elements: a nested element for a dict, one sibling per item for a list, str(value) text for anything else. |
| SoapBatchAction.AddItems | plugins/action/soap_batch.py:153-165 | The list branch appends one sibling per item, in order. |
| SoapBatchAction.NsText | plugins/action/soap_batch.py:104-118 | The f-strings qualify a tag exactly when the namespace is true, whatever its type, with its str as the namespace text. |
| SoapBatchAction.Register | plugins/action/soap_batch.py:135 | ET.register_namespace accepts exactly a string prefix that is not of the reserved form ns followed by digits, together with a hashable URI, and then registers that pair. A reserved prefix raises the ValueError about internal use. |
| SoapBatchAction.BuildXmlBody | plugins/action/soap_batch.py:97-140 | _build_xml_body returns exactly the text, and the namespace registration, that the specification function gives, or raises its error. The builder arguments may be values of any type. |
| SoapBatchAction.RegisterAndSerialize | plugins/action/soap_batch.py:133-137 | The end of _build_xml_body under a root tag registers the namespace when called for, then serialises, giving what the specification of that end describes. |
| SoapBatchAction.RegisterNamespace | plugins/action/soap_batch.py:134-135 | register_namespace is called exactly when namespace and prefix are both true, and its failure is passed on. |
| SoapBatchAction.RenderFailsIff | plugins/action/soap_batch.py:97-140 | Building fails exactly when the body dict is not a dict, when there is no root tag and the dict is empty, when a root tag that is not a string is serialised without a namespace, or when the namespace registration is refused. |
| SoapBatchAction.BuildFailureMessages | plugins/action/soap_batch.py:97-140 | Each build failure is the ValueError with the fixed prefix and the message of its cause: the empty dict, the missing items or keys attribute, the unserialisable root tag, or the refused registration. |
| SoapBatchAction.FirstKeyOnly | plugins/action/soap_batch.py:108-127 | Without a root tag only the first key is rendered: the other keys are dropped silently, and no namespace is registered. |
| SoapBatchAction.RootTagTree | plugins/action/soap_batch.py:103-137 | With a root tag, the root element carries it, qualified when a namespace is set, and holds the elements of the whole dict. The namespace is registered exactly when both it and the prefix are set, and as given when the prefix is an unreserved string. |
| SoapBatchAction.ElementsAgree | plugins/action/soap_batch.py:142-167 | On data with no None in it, this builder makes the same elements as the body builder of the plugin package. |
| SoapBatchAction.RootTagAgreesWithFromDict | plugins/action/soap_batch.py:103-137 | With a string root tag, a body dict without None renders to the same text as XmlBody.from_dict, and without a namespace it always renders. |
| SoapBatchAction.NoneRendersAsText | plugins/action/soap_batch.py:166-167 | The two builders part on None: this one writes the text "None", the body builder leaves the text empty. |
| PyDict.Pair | plugins/action/soap_batch.py:38 | dict() reads a two-item list with a string first item as that key and the second item as its value. |
| PyDict.DictOf | plugins/action/soap_batch.py:38 | dict(req) copies a dict unchanged and raises the TypeError "not iterable" for anything that is neither a dict, a list nor a string. The same conversion serves `attrib.update` in the XML adapter. |
| PyDict.PairsDictEntries | plugins/action/soap_batch.py:38 | A request given as a list of [key, value] pairs with distinct keys is copied to the dict holding exactly those entries, in order. |
| SoapBatchAction.Checked | plugins/action/soap_batch.py:56-73 | A request is accepted exactly when it has body, endpoint_url and soap_action, and it is then handed on unchanged. |
| SoapBatchAction.Prepare | plugins/action/soap_batch.py:40-75 | An accepted request always has body, endpoint_url and soap_action, and preparing a dict never raises. |
| SoapBatchAction.Step | plugins/action/soap_batch.py:37-75 | One iteration raises exactly when dict(req) raises, and then with that exception. |
| SoapBatchAction.PrepareRequest | plugins/action/soap_batch.py:37-75 | One iteration of the loop, on any item, gives exactly what the specification function describes for it. |
| SoapBatchAction.PreparedRequest | plugins/action/soap_batch.py:40-75 | A request without body_dict is handed on unchanged when it has the three keys. One with a body_dict loses it and the three builder arguments, gains the rendered body (replacing any given one) and keeps every other entry. A build failure is reported under the request's number. |
| SoapBatchAction.NonStringRootTagReported | plugins/action/soap_batch.py:43-54 | A true root tag that is not a string, without a namespace, is reported under the request's number as the serialiser's TypeError behind the build prefix. |
| SoapBatchAction.PoppedEntries | plugins/action/soap_batch.py:44-47 | Popping the builder arguments removes them and leaves every other entry as it was. |
| SoapBatchAction.Items | plugins/action/soap_batch.py:37 | enumerate(requests) walks the items of a list, and raises exactly for a value that is neither a list, a string nor a dict. |
| SoapBatchAction.Steps | plugins/action/soap_batch.py:37-75 | Each request is prepared on its own: request i is numbered i + 1. |
| SoapBatchAction.CollectedAll | plugins/action/soap_batch.py:37-75 | The loop succeeds exactly when every request is accepted, and then hands on each prepared request in order. Otherwise it reports the message of the first rejection, or lets the exception of the first unreadable item escape, every earlier request having been accepted. |
| SoapBatchAction.AsValues | plugins/action/soap_batch.py:78-79 | The prepared requests become a list of dicts, one per request and in order. |
| SoapBatchAction.Run | plugins/action/soap_batch.py:13-84 | run, up to the call of the batch module, returns or raises exactly what the specification function gives for the action's arguments, whatever their types. |
| SoapBatchAction.PrepareAll | plugins/action/soap_batch.py:35-75 | The loop of run gives what the collection over the steps describes, stopping at the first rejection or exception. |
| SoapBatchAction.PrepareNth | plugins/action/soap_batch.py:37-38 | The iteration on item i is the step numbered i + 1. |
| SoapBatchAction.RequestsRequiredFirst | plugins/action/soap_batch.py:28-32 | Missing, empty or otherwise false requests end the action before anything is built, and only they give that message. |
| SoapBatchAction.StopNamesRequest | plugins/action/soap_batch.py:50-73 | When the loop stops on a rejection, its message is never the one about missing requests. |
| SoapBatchAction.RejectionNamesRequest | plugins/action/soap_batch.py:50-73 | No rejection message of one request is the one about missing requests. |
| SoapBatchAction.DelegatedRequests | plugins/action/soap_batch.py:75-79 | When the action goes ahead, the batch module gets one prepared request per given request, in order, and each has body, endpoint_url and soap_action. |
| SoapBatchAction.DelegatedSettings | plugins/action/soap_batch.py:22-84 | The batch module's other arguments are the action's settings, defaulting to parallel False, max_workers 5, stop_on_error False and validate_certs True. |
| SoapBatchAction.FirstRejectionReported | plugins/action/soap_batch.py:37-73 | A failure after the requests check reports the first rejected request, every request before it having been accepted. An escaping exception is the one of enumerate, or of the first request dict() cannot read. |

## Left out

- Network I/O: `requests` sessions, HTTPBasicAuth/HttpNtlmAuth objects, proxies, TLS and urllib3's retry/backoff. Each HTTP call is given its reply, or the `requests` exception it raises, as a parameter. The sessions and retry adapters are recorded values.
- Timing: `elapsed_ms` and the other float durations are whole milliseconds taken from the reply; `datetime.now()` is a clock parameter in microseconds; the uuid4 request ids are a parameter.
- `time.sleep` in the retry loop: the delays are recorded in order, and no time passes.
- SHA-256 in the cache key: the joined `url:action:body` string stands for its digest, so the key is taken to be injective. `SoapService.CacheKeyAmbiguous` shows that the joined string itself is not.
- Concurrency: the parallel batch's ThreadPoolExecutor, `as_completed`, the worker limit and the cancellation of futures. The parallel path is the same accounting over a completion order that is given as a permutation parameter.
- The `send_async` thread and the lock-free sharing of `_async_responses`: only the completed send (`HttpSoapRepository.Repository.CompleteAsync`) and the lookup are modelled.
- ElementTree and minidom: parsing is a parameter from strings to the tree datatype, and well-formedness means that parsing succeeds. Serialisation is a parameter from trees to strings. `to_pretty_string` and the `get_root_element`/`get_root_tag`/`get_namespaces` accessors of the core `XmlBody` are not modelled.
- ElementTree's process-wide namespace-prefix registry: it is modelled only as the list of `register_namespace` calls, where the first match wins. Its refusal of `ns<digits>` prefixes is modelled for the batch action's registration (`SoapBatchAction.Register`), not for `TreeSoapEnvelope`'s registrations.
- Regular expressions:
  - the core `XmlBody.strip_namespaces` (module_utils/soap_module/domain/value_objects/xml_body.py:125-130) is not modelled;
  - `SoapAction.is_uri` is not modelled;
  - the WSDL operation pattern is an explicit left-to-right matcher.
- ValidateEndpointUseCase.Distinct: `list(set(...))` has no defined order; the model keeps first occurrences in order, and only the set of names and their distinctness are promised.
- XSD validation through lxml (validate_against_schema) is not part of this model.
- The `_execute_module` call that hands the prepared arguments to the batch module, and every Ansible module entry point, argument spec, check mode and `exit_json`/`fail_json`.
- The templating action plugins soap_request and soap_validate are not part of this model.
- The abstract repository interface is mirrored only by its exception kinds in `Wrappers.Exception`. The `__init__.py` re-exports are not modelled.
- DtoMappers.DtoToCommand: the AuthType lookup it begins with has no effect on the result and is not modelled.
- XmlParser.FillEntry: attribute values are stored as their `str()`. ElementTree keeps each value as given, so a value that is not a string fails only later, when `tostring` raises "cannot serialize"; the model has its text instead. Tuples as pairs are not modelled (see the next line).
- Values.Value has no float, tuple or set, and dict keys are strings. Floats in module arguments, tuples given to `dict()` or `attrib.update`, and non-string dict keys are not modelled.
- PyDict.Pair: a key that is not a string is converted with `str()`. Python keeps the key's own type.
- SoapBatchAction.Register: the `\d` of the `ns<digits>` test matches ASCII digits only. Python's `re` also accepts other Unicode decimal digits. The TypeError text for a prefix that is not a string follows Python 3.11's `re` module.
- UrlLib.UrlParse: the model parses text that is ASCII in its network location. `urlsplit`'s `_checknetloc` (the NFKC test of non-ASCII network locations) and its check of a bracketed IPv6 host are not modelled, so text with a non-ASCII network location is accepted here where Python may raise ValueError. The only parse error modelled is an unbalanced bracket.
- Url.New: relies on UrlLib.UrlParse; `urlsplit`'s `_checknetloc` (the NFKC test of non-ASCII network locations) and its check of a bracketed IPv6 host are not modelled, so text with a non-ASCII network location is accepted here where Python may raise ValueError.
- Url.FromString: relies on UrlLib.UrlParse; `urlsplit`'s `_checknetloc` (the NFKC test of non-ASCII network locations) and its check of a bracketed IPv6 host are not modelled, so text with a non-ASCII network location is accepted here where Python may raise ValueError.
- Endpoint.New: its URL check relies on UrlLib.UrlParse; `urlsplit`'s `_checknetloc` (the NFKC test of non-ASCII network locations) and its check of a bracketed IPv6 host are not modelled, so text with a non-ASCII network location is accepted here where Python may raise ValueError.
- SoapRequest.SoapRequest.constructor and SoapRequest.SoapRequest.AddHeader: the headers are a value of the request. In Python, `_ensure_soap_headers` and `add_header` write into the dict the caller passed in, so the caller sees the added headers through its own reference; that aliasing is not modelled.
- XmlTree.Node has no `tail`: text that follows a child element inside its parent (mixed content) cannot be expressed. The modelled code reads only `.text`, so such text plays no part in what it computes.
- UrlLib.Unquote: each `%XX` escape becomes the character with that code. Python decodes the bytes as UTF-8, so non-ASCII escapes are approximated.
- Cross-file mismatches are modelled against the interface each file actually calls, as explicit parameters:
  - `endpoint.soap_version`;
  - the module utilities' `XmlBody.to_string`;
  - the `namespace_declarations` keyword of the service the send use case calls;
  - the plugin `XmlBody`'s missing `find_element`, `get_namespaces` and `extract_body_content`.
  - The findings below show what the code does as written.
- SoapRequest.SoapRequest.Equals, SoapRequest.SoapRequest.HashKey, Endpoint.SupportsOperation and Endpoint.RequiresAuth are plain definitions without contracts of their own: id equality, the id as hash key, membership in the operation list (an empty list allows every operation), and an auth type being set, even an empty one.

## Findings

| source | as written | input that shows it | evidently intended | confidence | as-written member | corrected member |
|---|---|---|---|---|---|---|
| module_utils/soap_module/domain/services/soap_service.py:72 | `execute_request` reads `endpoint.soap_version`, but the endpoint entity only has `default_soap_version`, so every call raises AttributeError before sending | any valid endpoint with a supported action and a body | build the request with the endpoint's default SOAP version and send it | high, not executed | SoapService.AsWrittenNeverSends | SoapService.IntendedSends |
| plugins/module_utils/soap_module/domain/services/soap_fault_service.py:56-59 | `extract_fault` calls `find_element` on the plugin `XmlBody`, which has no such method; the AttributeError is caught, so no fault is ever extracted | any response whose body holds a `faultcode` element | return the fault code and fault string found in the body | high, not executed | SoapFaultService.AsWrittenNeverFindsFault | SoapFaultService.FaultCodeFound |
| module_utils/soap_module/infrastructure/adapters/http_client.py:140-150 | the `except ConnectionError` clause comes before `except SSLError`, and SSLError derives from ConnectionError, so the SSL message is never produced | a `post` whose reply is an SSLError | report "SSL-Fehler: …" for SSL failures | high, not executed | PlainHttpClient.AsWrittenSslNeverReported | PlainHttpClient.CorrectedOrder |
| plugins/module_utils/soap_module/infrastructure/repositories/http_soap_repository.py:220-230 | `_contains_soap_fault` tests the Fault element's own text, which is empty when the Fault has only child elements, so a SOAP 1.1 fault is not recognised | a status-500 SOAP 1.1 envelope whose Fault holds only `faultcode` and `faultstring` | a response whose body has a Fault element is a fault | medium, not executed | HttpSoapRepository.AsWrittenServerError | HttpSoapRepository.CreateSoapResponseIntended |
| module_utils/soap_module/infrastructure/factories/endpoint_factory.py:71-78 | `from_url` defaults the auth type to "none", which the endpoint rejects | a valid URL and no options | an endpoint without authentication | high, not executed | EndpointFactory.AsWrittenFromUrlRejected | EndpointFactory.IntendedFromUrlAccepted |
| module_utils/soap_module/infrastructure/factories/soap_request_factory.py:36-42 | `from_ansible_params` calls `to_string` on the core `XmlBody`, which has no such method | parameters with `body_dict` and no `body` | render the dict to XML text and use it as the body | high, not executed | SoapRequestFactory.AsWrittenBodyDictRaises | SoapRequestFactory.IntendedBodyDictRendered |
| module_utils/soap_module/infrastructure/factories/soap_request_factory.py:96 | `from_endpoint_and_action` reads `endpoint.soap_version`, which the endpoint entity lacks | any endpoint | use the endpoint's default SOAP version | high, not executed | SoapRequestFactory.AsWrittenFromEndpointRaises | SoapRequestFactory.EndpointRequestShape |
