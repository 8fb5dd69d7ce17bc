/**
 * Building endpoints from Ansible parameters, from a configuration dict and from a URL with
 * keyword options: every field the source names is read with its default, every other field
 * keeps the entity's own default, and the entity's construction checks decide the outcome.
 *
 * A `url` of None and an empty one are both passed on as the empty string (the entity rejects
 * both alike); a `supported_operations` of None is passed on as the empty list (the entity
 * allows every operation for both).
 */
module EndpointFactory {
  import opened Wrappers
  import opened Dicts
  import opened Values
  import opened Params
  import Endpoint
  import Url

  /** What becomes of the `auth_type` value on its way into the entity. */
  type AuthPolicy = Option<string> -> Option<string>

  /** As written: the value is passed on unchanged, so the default 'none' reaches the entity. */
  function AuthAsWritten(a: Option<string>): Option<string> {
    a
  }

  /**
   * As intended: 'none' means no authentication, the way the modules' `auth_type` choices and the
   * application layer's mapper read it.
   */
  function AuthIntended(a: Option<string>): (r: Option<string>)
    ensures a == Some("none") ==> r.None?
    ensures a != Some("none") ==> r == a
  {
    if a == Some("none") then None else a
  }

  /** `Endpoint(...)` with the named fields and the dataclass defaults for all the others. */
  function Fields(url: string, name: Option<string>, authType: Option<string>, username: Option<string>,
                  password: Option<string>, certPath: Option<string>, keyPath: Option<string>, timeout: int,
                  operations: seq<string>): Endpoint.Endpoint
  {
    Endpoint.Endpoint(url, name, None, authType, username, password, certPath, keyPath, true, None, None,
                      timeout, "1.1", [], operations, None)
  }

  /** The text of an optional URL; None reaches the entity's emptiness check like "". */
  function UrlText(u: Option<string>): string {
    if u.Some? then u.value else ""
  }

  /** The entity's defaults for every field no factory sets. */
  predicate Defaulted(e: Endpoint.Endpoint) {
    && e.description.None? && e.verifySsl && e.caBundlePath.None? && e.proxyUrl.None?
    && e.defaultSoapVersion == "1.1" && e.defaultHeaders == [] && e.wsdlUrl.None?
  }

  // ---------------------------------------------------------------------------
  // from_ansible_params

  /** The types the module's argument spec gives the parameters read here. */
  predicate AnsibleTyped(params: Dict<Value>) {
    && StrOrNone(params, "endpoint_url") && StrOrNone(params, "endpoint_name") && StrOrNone(params, "auth_type")
    && StrOrNone(params, "username") && StrOrNone(params, "password") && StrOrNone(params, "cert_path")
    && StrOrNone(params, "key_path") && IntIfPresent(params, "timeout") && StrListOrNone(params, "supported_operations")
  }

  /**
   * `from_ansible_params`: KeyError without `endpoint_url`; otherwise the entity with name
   * 'default', auth type 'none' and timeout 30 unless given, and the credentials, paths and
   * operations copied.
   */
  function FromAnsibleParams(params: Dict<Value>, auth: AuthPolicy): (r: Result<Endpoint.Endpoint>)
    requires AnsibleTyped(params)
    ensures !HasKey(params, "endpoint_url") ==> r == Fail(KeyError("endpoint_url"))
    ensures r.Ok? ==> Endpoint.Valid(r.value) && Defaulted(r.value)
    ensures r.Ok? ==> && r.value.url == UrlText(OptStr(params, "endpoint_url"))
                      && r.value.authType == auth(StrDefault(params, "auth_type", "none"))
                      && r.value.username == OptStr(params, "username")
                      && r.value.password == OptStr(params, "password")
                      && r.value.certPath == OptStr(params, "cert_path")
                      && r.value.keyPath == OptStr(params, "key_path")
                      && r.value.defaultTimeout == Int(params, "timeout", 30)
                      && r.value.supportedOperations == StrList(params, "supported_operations")
    ensures r.Ok? && !HasKey(params, "endpoint_name") ==> r.value.name == Some("default")
    ensures r.Ok? && Endpoint.Given(OptStr(params, "endpoint_name")) ==> r.value.name == OptStr(params, "endpoint_name")
  {
    match StrItem(params, "endpoint_url")
    case Fail(e) => Fail(e)
    case Ok(url) =>
      Endpoint.New(Fields(UrlText(url), StrDefault(params, "endpoint_name", "default"),
                          auth(StrDefault(params, "auth_type", "none")), OptStr(params, "username"),
                          OptStr(params, "password"), OptStr(params, "cert_path"), OptStr(params, "key_path"),
                          Int(params, "timeout", 30), StrList(params, "supported_operations")))
  }

  /** As written, parameters without `auth_type` never yield an endpoint: 'none' is not an auth type. */
  lemma AsWrittenAnsibleDefaultRejected(params: Dict<Value>)
    requires AnsibleTyped(params) && !HasKey(params, "auth_type")
    ensures FromAnsibleParams(params, AuthAsWritten).Fail?
  {
    if HasKey(params, "endpoint_url") {
      Endpoint.NoneAuthRejected(Fields(UrlText(OptStr(params, "endpoint_url")), StrDefault(params, "endpoint_name", "default"),
                                       Some("none"), OptStr(params, "username"), OptStr(params, "password"),
                                       OptStr(params, "cert_path"), OptStr(params, "key_path"),
                                       Int(params, "timeout", 30), StrList(params, "supported_operations")));
    }
  }

  /** As intended, a valid URL alone yields an endpoint named 'default' without authentication and timeout 30. */
  lemma IntendedAnsibleUrlOnly(url: string)
    requires Url.IsValid(url)
    ensures var r := FromAnsibleParams([("endpoint_url", VStr(url))], AuthIntended);
            r.Ok? && r.value.url == url && r.value.name == Some("default") && r.value.authType.None?
            && r.value.defaultTimeout == 30 && r.value.supportedOperations == []
  {
    var params := [("endpoint_url", VStr(url))];
    assert Get(params, "endpoint_url") == Some(VStr(url));
    assert Keys(params) == ["endpoint_url"];
  }

  // ---------------------------------------------------------------------------
  // from_config_file

  /** The types a configuration dict gives the entries read here; `auth`, when present, is a dict. */
  predicate ConfigTyped(config: Dict<Value>) {
    && StrOrNone(config, "url") && StrOrNone(config, "name") && IntIfPresent(config, "timeout")
    && StrListOrNone(config, "operations")
    && (Get(config, "auth").None? || Get(config, "auth").value.VDict?)
    && var a := SubDict(config, "auth");
       StrOrNone(a, "type") && StrOrNone(a, "username") && StrOrNone(a, "password")
       && StrOrNone(a, "cert_path") && StrOrNone(a, "key_path")
  }

  /**
   * `from_config_file`: KeyError without `url`; name 'unnamed' unless given; the auth type (default
   * 'none'), the credentials and the paths come from the nested `auth` dict, each missing one None.
   */
  function FromConfigFile(config: Dict<Value>, auth: AuthPolicy): (r: Result<Endpoint.Endpoint>)
    requires ConfigTyped(config)
    ensures !HasKey(config, "url") ==> r == Fail(KeyError("url"))
    ensures r.Ok? ==> Endpoint.Valid(r.value) && Defaulted(r.value)
    ensures r.Ok? ==> var a := SubDict(config, "auth");
                      && r.value.url == UrlText(OptStr(config, "url"))
                      && r.value.authType == auth(StrDefault(a, "type", "none"))
                      && r.value.username == OptStr(a, "username") && r.value.password == OptStr(a, "password")
                      && r.value.certPath == OptStr(a, "cert_path") && r.value.keyPath == OptStr(a, "key_path")
                      && r.value.defaultTimeout == Int(config, "timeout", 30)
                      && r.value.supportedOperations == StrList(config, "operations")
    ensures r.Ok? && !HasKey(config, "name") ==> r.value.name == Some("unnamed")
  {
    match StrItem(config, "url")
    case Fail(e) => Fail(e)
    case Ok(url) =>
      var a := SubDict(config, "auth");
      Endpoint.New(Fields(UrlText(url), StrDefault(config, "name", "unnamed"), auth(StrDefault(a, "type", "none")),
                          OptStr(a, "username"), OptStr(a, "password"), OptStr(a, "cert_path"), OptStr(a, "key_path"),
                          Int(config, "timeout", 30), StrList(config, "operations")))
  }

  /** As written, a configuration whose `auth` names no type never yields an endpoint. */
  lemma AsWrittenConfigDefaultRejected(config: Dict<Value>)
    requires ConfigTyped(config) && !HasKey(SubDict(config, "auth"), "type")
    ensures FromConfigFile(config, AuthAsWritten).Fail?
  {
    if HasKey(config, "url") {
      var a := SubDict(config, "auth");
      Endpoint.NoneAuthRejected(Fields(UrlText(OptStr(config, "url")), StrDefault(config, "name", "unnamed"), Some("none"),
                                       OptStr(a, "username"), OptStr(a, "password"), OptStr(a, "cert_path"),
                                       OptStr(a, "key_path"), Int(config, "timeout", 30), StrList(config, "operations")));
    }
  }

  // ---------------------------------------------------------------------------
  // from_url

  /** The types of the keyword options read here. */
  predicate OptionsTyped(kwargs: Dict<Value>) {
    && StrOrNone(kwargs, "name") && StrOrNone(kwargs, "auth_type") && StrOrNone(kwargs, "username")
    && StrOrNone(kwargs, "password") && IntIfPresent(kwargs, "timeout")
  }

  /**
   * `from_url`: name 'default', auth type 'none' and timeout 30 unless given; username and password
   * copied; certificate and key paths are never set.
   */
  function FromUrl(url: string, kwargs: Dict<Value>, auth: AuthPolicy): (r: Result<Endpoint.Endpoint>)
    requires OptionsTyped(kwargs)
    ensures r.Ok? ==> Endpoint.Valid(r.value) && Defaulted(r.value)
    ensures r.Ok? ==> && r.value.url == url && r.value.certPath.None? && r.value.keyPath.None?
                      && r.value.authType == auth(StrDefault(kwargs, "auth_type", "none"))
                      && r.value.username == OptStr(kwargs, "username") && r.value.password == OptStr(kwargs, "password")
                      && r.value.defaultTimeout == Int(kwargs, "timeout", 30) && r.value.supportedOperations == []
    ensures r.Ok? && !HasKey(kwargs, "name") ==> r.value.name == Some("default")
  {
    Endpoint.New(Fields(url, StrDefault(kwargs, "name", "default"), auth(StrDefault(kwargs, "auth_type", "none")),
                        OptStr(kwargs, "username"), OptStr(kwargs, "password"), None, None,
                        Int(kwargs, "timeout", 30), []))
  }

  /** As written, `from_url` without an `auth_type` option fails for every URL, the valid ones included. */
  lemma AsWrittenFromUrlRejected(url: string, kwargs: Dict<Value>)
    requires OptionsTyped(kwargs) && !HasKey(kwargs, "auth_type")
    ensures FromUrl(url, kwargs, AuthAsWritten).Fail?
    ensures Url.IsValid(url) ==> FromUrl(url, kwargs, AuthAsWritten) == Fail(ValueError("Ungültiger auth_type: " + "none"))
  {
    Endpoint.NoneAuthRejected(Fields(url, StrDefault(kwargs, "name", "default"), Some("none"), OptStr(kwargs, "username"),
                                     OptStr(kwargs, "password"), None, None, Int(kwargs, "timeout", 30), []));
  }

  /** As intended, `from_url` of a valid URL with no options yields an endpoint without authentication. */
  lemma IntendedFromUrlAccepted(url: string)
    requires Url.IsValid(url)
    ensures var r := FromUrl(url, [], AuthIntended);
            r.Ok? && r.value.url == url && r.value.authType.None? && r.value.name == Some("default")
            && r.value.defaultTimeout == 30
  {
  }
}
