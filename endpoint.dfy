/** The SOAP endpoint entity: construction checks, derived name, base URL and auth configuration. */
module Endpoint {
  import opened Wrappers
  import opened Strings
  import opened Dicts
  import opened UrlLib
  import Url

  /** The dataclass fields; `name` is filled in by construction when it is not given. */
  datatype Endpoint = Endpoint(
    url: string,
    name: Option<string>,
    description: Option<string>,
    authType: Option<string>,
    username: Option<string>,
    password: Option<string>,
    certPath: Option<string>,
    keyPath: Option<string>,
    verifySsl: bool,
    caBundlePath: Option<string>,
    proxyUrl: Option<string>,
    defaultTimeout: int,
    defaultSoapVersion: string,
    defaultHeaders: Dict<string>,
    supportedOperations: seq<string>,
    wsdlUrl: Option<string>)

  /** Python truthiness of an optional string. */
  predicate Given(s: Option<string>) {
    s.Some? && |s.value| > 0
  }

  const AuthTypes: seq<string> := ["basic", "digest", "ntlm", "certificate"]
  const CredentialAuthTypes: seq<string> := ["basic", "digest", "ntlm"]

  /** The auth checks: only applied when an auth type is given (non-empty). */
  predicate AuthAcceptable(e: Endpoint) {
    Given(e.authType) ==>
      && e.authType.value in AuthTypes
      && (e.authType.value in CredentialAuthTypes ==> Given(e.username) && Given(e.password))
      && (e.authType.value == "certificate" ==> Given(e.certPath))
  }

  /** Every condition `__post_init__` enforces. */
  predicate Acceptable(e: Endpoint) {
    && |e.url| > 0
    && UrlParse(e.url).Ok?
    && |UrlParse(e.url).value.scheme| > 0
    && |UrlParse(e.url).value.netloc| > 0
    && UrlParse(e.url).value.scheme in ["http", "https"]
    && AuthAcceptable(e)
    && e.defaultTimeout > 0
    && e.defaultSoapVersion in ["1.1", "1.2"]
  }

  /** An endpoint as it exists after construction (a URL made of '_' and '/' alone can leave the name empty). */
  predicate Valid(e: Endpoint) {
    Acceptable(e) && e.name.Some?
  }

  /** The first failed auth check, if any. */
  function AuthError(e: Endpoint): (r: Option<Exception>)
    ensures r.None? <==> AuthAcceptable(e)
  {
    if !Given(e.authType) then None
    else
      var a := e.authType.value;
      if a !in AuthTypes then Some(ValueError("Ungültiger auth_type: " + a))
      else if a in CredentialAuthTypes && (!Given(e.username) || !Given(e.password)) then
        Some(ValueError(a + " Auth benötigt username und password"))
      else if a == "certificate" && !Given(e.certPath) then Some(ValueError("certificate Auth benötigt cert_path"))
      else None
  }

  /** `Endpoint(...)`: the checks of `__post_init__` in order, then the derived name when none is given. */
  function New(e: Endpoint): (r: Result<Endpoint>)
    ensures r.Ok? <==> Acceptable(e)
    ensures r.Ok? ==> Valid(r.value)
    ensures r.Ok? ==> r.value == e.(name := if Given(e.name) then e.name else Some(GeneratedName(e.url)))
    ensures |e.url| == 0 ==> r == Fail(ValueError("url ist erforderlich"))
    ensures |e.url| > 0 && UrlParse(e.url).Fail? ==> r == Fail(UrlParse(e.url).error)
    ensures |e.url| > 0 && UrlParse(e.url).Ok?
            && (|UrlParse(e.url).value.scheme| == 0 || |UrlParse(e.url).value.netloc| == 0) ==>
              r == Fail(ValueError("Ungültige URL: " + e.url))
    ensures Url.IsValid(e.url) && !AuthAcceptable(e) ==> r == Fail(AuthError(e).value)
    ensures Url.IsValid(e.url) && AuthAcceptable(e) && e.defaultTimeout <= 0 ==>
              r == Fail(ValueError("default_timeout muss größer als 0 sein"))
    ensures Url.IsValid(e.url) && AuthAcceptable(e) && e.defaultTimeout > 0 && e.defaultSoapVersion !in ["1.1", "1.2"] ==>
              r == Fail(ValueError("default_soap_version muss '1.1' oder '1.2' sein"))
  {
    if |e.url| == 0 then Fail(ValueError("url ist erforderlich"))
    else match UrlParse(e.url)
      case Fail(err) => Fail(err)
      case Ok(parsed) =>
        if |parsed.scheme| == 0 || |parsed.netloc| == 0 then Fail(ValueError("Ungültige URL: " + e.url))
        else if parsed.scheme !in ["http", "https"] then Fail(ValueError("URL muss http oder https verwenden: " + e.url))
        else match AuthError(e)
          case Some(err) => Fail(err)
          case None =>
            if e.defaultTimeout <= 0 then Fail(ValueError("default_timeout muss größer als 0 sein"))
            else if e.defaultSoapVersion !in ["1.1", "1.2"] then Fail(ValueError("default_soap_version muss '1.1' oder '1.2' sein"))
            else
              var name := if Given(e.name) then e.name else Some(GeneratedName(e.url));
              Ok(e.(name := name))
  }

  /** `_generate_name_from_url`: network location and path with '/' turned into '_' and outer '_' removed. */
  function GeneratedName(url: string): string
    requires UrlParse(url).Ok?
  {
    var parsed := UrlParse(url).value;
    StripChar(ReplaceChar(parsed.netloc + parsed.path, '/', '_'), '_')
  }

  /** The generated name holds no '/' and neither starts nor ends with '_'. */
  lemma GeneratedNameShape(url: string)
    requires UrlParse(url).Ok?
    ensures var n := GeneratedName(url);
            '/' !in n && (|n| > 0 ==> n[0] != '_' && n[|n| - 1] != '_')
  {
    var parsed := UrlParse(url).value;
    NameShape(parsed.netloc + parsed.path);
  }

  lemma NameShape(s: string)
    ensures var n := StripChar(ReplaceChar(s, '/', '_'), '_');
            '/' !in n && (|n| > 0 ==> n[0] != '_' && n[|n| - 1] != '_')
  {
    StripReplaced(s, '/', '_');
  }

  /** Replacing `a` by `b` and stripping `b` leaves no `a` and no `b` at either end. */
  lemma StripReplaced(s: string, a: char, b: char)
    requires a != b
    ensures var n := StripChar(ReplaceChar(s, a, b), b);
            a !in n && (|n| > 0 ==> n[0] != b && n[|n| - 1] != b)
  {
    var r := ReplaceChar(s, a, b);
    ReplacedFree(s, a, b);
    var l := LStripChar(r, b);
    SliceFree(r, |r| - |l|, |r|, a);
    var n := RStripChar(l, b);
    SliceFree(l, 0, |n|, a);
    if |n| > 0 {
      assert n[0] == l[0];
    }
  }

  /** After replacing `a` by a different character, no `a` is left. */
  lemma ReplacedFree(s: string, a: char, b: char)
    requires a != b
    ensures a !in ReplaceChar(s, a, b)
  {
  }

  /** A slice of a string without `a` has no `a` either. */
  lemma SliceFree(r: string, lo: int, hi: int, a: char)
    requires 0 <= lo <= hi <= |r| && a !in r
    ensures a !in r[lo..hi]
  {
  }

  /** A given name is kept; otherwise the name is derived from the URL. */
  lemma ConstructedName(e: Endpoint)
    requires New(e).Ok?
    ensures Given(e.name) ==> New(e).value.name == e.name
    ensures !Given(e.name) ==> New(e).value.name == Some(GeneratedName(e.url))
  {
  }

  /** The string "none" is not an auth type: an endpoint with `auth_type='none'` is rejected. */
  lemma NoneAuthRejected(e: Endpoint)
    requires e.authType == Some("none")
    ensures New(e).Fail?
    ensures Url.IsValid(e.url) ==> New(e) == Fail(ValueError("Ungültiger auth_type: " + "none"))
  {
    assert "none" !in AuthTypes;
    assert !AuthAcceptable(e);
  }

  /** `get_base_url`: scheme, host and path of the URL, without query and fragment. */
  function BaseUrl(e: Endpoint): (r: string)
    requires Valid(e)
    ensures r == Url.BaseUrl(Url.Url(e.url))
  {
    var parsed := UrlParse(e.url).value;
    parsed.scheme + "://" + parsed.netloc + parsed.path
  }

  /** `requires_auth`: an auth type is set, even an empty one. */
  predicate RequiresAuth(e: Endpoint) {
    e.authType.Some?
  }

  /**
   * `get_auth_config`: the type, with the credentials or the certificate paths the type calls for.
   * Each key is assigned once, so the dict lists them in assignment order.
   */
  function AuthConfig(e: Endpoint): (r: Option<Dict<Option<string>>>)
    ensures r.None? <==> e.authType.None?
    ensures r.Some? ==> |r.value| > 0 && r.value[0] == ("type", e.authType)
  {
    if !RequiresAuth(e) then None
    else
      var config := [("type", e.authType)];
      var a := e.authType.value;
      if a in CredentialAuthTypes then Some(config + [("username", e.username), ("password", e.password)])
      else if a == "certificate" then
        Some(config + [("cert_path", e.certPath)] + (if Given(e.keyPath) then [("key_path", e.keyPath)] else []))
      else Some(config)
  }

  /** Which keys the auth config holds, by auth type. */
  lemma AuthConfigKeys(e: Endpoint)
    requires e.authType.Some?
    ensures var c := AuthConfig(e).value;
            && (HasKey(c, "username") <==> e.authType.value in CredentialAuthTypes)
            && (HasKey(c, "password") <==> e.authType.value in CredentialAuthTypes)
            && (HasKey(c, "cert_path") <==> e.authType.value == "certificate")
            && (HasKey(c, "key_path") <==> e.authType.value == "certificate" && Given(e.keyPath))
  {
    var c := AuthConfig(e).value;
    var a := e.authType.value;
    if a in CredentialAuthTypes {
      assert Keys(c) == ["type", "username", "password"];
    } else if a == "certificate" {
      if Given(e.keyPath) {
        assert Keys(c) == ["type", "cert_path", "key_path"];
      } else {
        assert Keys(c) == ["type", "cert_path"];
      }
    } else {
      assert Keys(c) == ["type"];
    }
  }

  /** On a constructed endpoint the configured credentials are always present. */
  lemma AuthConfigComplete(e: Endpoint)
    requires AuthAcceptable(e) && e.authType.Some? && e.authType.value in CredentialAuthTypes
    ensures Get(AuthConfig(e).value, "username") == Some(e.username) && Given(e.username)
    ensures Get(AuthConfig(e).value, "password") == Some(e.password) && Given(e.password)
  {
    var c := AuthConfig(e).value;
    assert c == [("type", e.authType), ("username", e.username), ("password", e.password)];
    assert c[1..] == [("username", e.username), ("password", e.password)];
    assert c[2..] == [("password", e.password)];
    assert Get(c[2..], "password") == Some(e.password);
    assert Get(c[1..], "username") == Some(e.username);
    assert Get(c, "password") == Get(c[1..], "password") == Get(c[2..], "password");
  }

  /** An empty auth type passes construction unchecked, yet counts as requiring auth with a type-only config. */
  lemma EmptyAuthType(e: Endpoint)
    requires e.authType == Some("")
    ensures AuthAcceptable(e)
    ensures RequiresAuth(e) && AuthConfig(e) == Some([("type", Some(""))])
  {
  }

  /** `supports_operation`: everything when no operations are listed, else list membership. */
  predicate SupportsOperation(e: Endpoint, operation: string) {
    |e.supportedOperations| == 0 || operation in e.supportedOperations
  }
}
