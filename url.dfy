/** The URL value object: a string that `urlparse` splits into an http(s) scheme and a host. */
module Url {
  import opened Wrappers
  import opened Strings
  import opened Dicts
  import opened UrlLib

  /** `str(url)` is `value`. */
  datatype Url = Url(value: string)

  /** The conditions `__post_init__` checks, in its order. */
  predicate IsValid(value: string) {
    && |value| > 0
    && UrlParse(value).Ok?
    && |UrlParse(value).value.scheme| > 0
    && |UrlParse(value).value.netloc| > 0
    && UrlParse(value).value.scheme in ["http", "https"]
  }

  /** `Url(value)`, raising ValueError for each failed check. */
  function New(value: string): (r: Result<Url>)
    ensures r.Ok? <==> IsValid(value)
    ensures r.Ok? ==> r.value.value == value
    ensures |value| == 0 ==> r == Fail(ValueError("URL darf nicht leer sein"))
    ensures |value| > 0 && UrlParse(value).Fail? ==> r == Fail(UrlParse(value).error)
    ensures |value| > 0 && UrlParse(value).Ok? && |UrlParse(value).value.scheme| == 0 ==>
              r == Fail(ValueError("URL muss ein Schema haben: " + value))
    ensures |value| > 0 && UrlParse(value).Ok? && |UrlParse(value).value.scheme| > 0
            && |UrlParse(value).value.netloc| == 0 ==>
              r == Fail(ValueError("URL muss einen Host haben: " + value))
    ensures |value| > 0 && UrlParse(value).Ok? && |UrlParse(value).value.scheme| > 0
            && |UrlParse(value).value.netloc| > 0 && UrlParse(value).value.scheme !in ["http", "https"] ==>
              r == Fail(ValueError("URL muss http oder https verwenden: " + value))
  {
    if |value| == 0 then Fail(ValueError("URL darf nicht leer sein"))
    else match UrlParse(value)
      case Fail(e) => Fail(e)
      case Ok(parsed) =>
        if |parsed.scheme| == 0 then Fail(ValueError("URL muss ein Schema haben: " + value))
        else if |parsed.netloc| == 0 then Fail(ValueError("URL muss einen Host haben: " + value))
        else if parsed.scheme !in ["http", "https"] then Fail(ValueError("URL muss http oder https verwenden: " + value))
        else Ok(Url(value))
  }

  /** `Url.from_string`: strips surrounding whitespace first. */
  function FromString(s: string): (r: Result<Url>)
    ensures r.Ok? <==> IsValid(Strip(s))
    ensures r.Ok? ==> r.value.value == Strip(s)
  {
    New(Strip(s))
  }

  /** `Url.from_parts`: "scheme://host" + path, with "?" and the encoded query only for a non-empty query. */
  function FromParts(scheme: string, host: string, path: string, query: Option<Dict<string>>): (r: Result<Url>)
    ensures query.None? || |query.value| == 0 ==> r == New(scheme + "://" + host + path)
    ensures query.Some? && |query.value| > 0 ==> r == New(scheme + "://" + host + path + "?" + UrlEncode(query.value))
  {
    var queryString := if query.Some? && |query.value| > 0 then UrlEncode(query.value) else "";
    var url := scheme + "://" + host + path;
    UrlEncodeEmptyIff(if query.Some? then query.value else []);
    New(if |queryString| > 0 then url + "?" + queryString else url)
  }

  /** The parse of a valid URL. */
  function Parts(u: Url): (p: UrlParts)
    requires IsValid(u.value)
    ensures WellFormed(p) && p.scheme in ["http", "https"]
  {
    UrlParseWellFormed(u.value);
    UrlParse(u.value).value
  }

  /** `get_scheme` */
  function Scheme(u: Url): (r: string)
    requires IsValid(u.value)
    ensures r == "http" || r == "https"
  {
    Parts(u).scheme
  }

  /** `get_host` (the whole network location, port and credentials included) */
  function Host(u: Url): (r: string)
    requires IsValid(u.value)
    ensures |r| > 0 && forall i :: 0 <= i < |r| ==> !IsNetlocDelim(r[i])
  {
    Parts(u).netloc
  }

  /** `get_path`: the parsed path, or "/" when it is empty. */
  function Path(u: Url): (r: string)
    requires IsValid(u.value)
    ensures |r| > 0 && r[0] == '/'
    ensures NoChar(r, '?') && NoChar(r, '#')
    ensures |Parts(u).path| > 0 ==> r == Parts(u).path
  {
    if |Parts(u).path| > 0 then Parts(u).path else "/"
  }

  /** `get_query_params` */
  function QueryParams(u: Url): Dict<seq<string>>
    requires IsValid(u.value)
  {
    ParseQs(Parts(u).query)
  }

  /** `get_base_url` */
  function BaseUrl(u: Url): string
    requires IsValid(u.value)
  {
    Parts(u).scheme + "://" + Parts(u).netloc + Parts(u).path
  }

  /** `is_secure` */
  predicate IsSecure(u: Url)
    requires IsValid(u.value)
  {
    Scheme(u) == "https"
  }

  /** `with_path`: the same parts with a new path, re-validated. */
  function WithPath(u: Url, path: string): Result<Url>
    requires IsValid(u.value)
  {
    New(UrlUnparse(Parts(u).(path := path)))
  }

  /** The path `urlunparse` writes for a non-empty path: a missing leading '/' is added. */
  function Rooted(path: string): string
    requires |path| > 0
  {
    if path[0] == '/' then path else "/" + path
  }

  /** `params` merged into `existing` in order, each key set to a one-element list. */
  function MergeParams(existing: Dict<seq<string>>, params: Dict<string>): Dict<seq<string>>
    decreases |params|
  {
    if |params| == 0 then existing
    else
      var last := params[|params| - 1];
      Set(MergeParams(existing, params[..|params| - 1]), last.0, [last.1])
  }

  /** The query string `with_query_params` builds for `u`. */
  function MergedQuery(u: Url, params: Dict<string>): string
    requires IsValid(u.value)
  {
    UrlEncodeSeq(MergeParams(QueryParams(u), params))
  }

  /** The URL `u` with its query component replaced, re-validated. */
  function WithQuery(u: Url, query: string): Result<Url>
    requires IsValid(u.value)
  {
    New(UrlUnparse(Parts(u).(query := query)))
  }

  /** `with_query_params`: parse the query, override it key by key, encode and re-validate. */
  method WithQueryParams(u: Url, params: Dict<string>) returns (r: Result<Url>)
    requires IsValid(u.value)
    ensures r == WithQuery(u, MergedQuery(u, params))
    ensures r.Ok?
  {
    var parsed := Parts(u);
    var existing := MergeQueryParams(ParseQs(parsed.query), params);
    var newQuery := UrlEncodeSeq(existing);
    r := New(UrlUnparse(parsed.(query := newQuery)));
    WithQueryParamsKeeps(u, params);
  }

  /** The merge loop of `with_query_params`: `existing[key] = [value]` for each new parameter in order. */
  method MergeQueryParams(existing: Dict<seq<string>>, params: Dict<string>) returns (merged: Dict<seq<string>>)
    ensures merged == MergeParams(existing, params)
  {
    merged := existing;
    var i := 0;
    while i < |params|
      invariant 0 <= i <= |params|
      invariant merged == MergeParams(existing, params[..i])
    {
      assert params[..i + 1][..i] == params[..i];
      merged := Set(merged, params[i].0, [params[i].1]);
      i := i + 1;
    }
    assert params[..|params|] == params;
  }

  /** `__eq__` */
  predicate Equals(a: Url, b: Url) {
    a.value == b.value
  }

  /** What `__hash__` hashes. */
  function HashKey(a: Url): string {
    a.value
  }

  // ---------------------------------------------------------------------------------------------
  // Properties

  /**
   * `is_secure` holds exactly when the URL text, once `urlsplit` has cleaned it, starts with
   * "https:" in any letter case.
   */
  lemma IsSecureIff(u: Url)
    requires IsValid(u.value)
    ensures IsSecure(u) <==> StartsWith(Lower(Cleaned(u.value)), "https:")
  {
    UrlParseScheme(u.value);
    SplitSchemePrefix(Cleaned(u.value));
    HttpsPrefix(Lower(Cleaned(u.value)), Scheme(u));
  }

  lemma HttpsPrefix(l: string, s: string)
    requires s == "http" || s == "https"
    requires StartsWith(l, s + ":")
    ensures StartsWith(l, "https:") <==> s == "https"
  {
    if s == "http" {
      assert l[4] == (s + ":")[4] == ':';
      assert "https:"[4] != l[4];
    }
  }

  lemma SchemeHostPath(scheme: string, host: string, path: string, rest: string)
    ensures scheme + ":" + ("//" + host + (path + rest)) == scheme + "://" + host + path + rest
  {
  }

  lemma LowerPrefix(s: string, n: nat)
    requires n <= |s|
    ensures Lower(s[..n]) == Lower(s)[..n]
  {
  }

  /** The base URL is a valid URL with the same scheme, host and path, and nothing else. */
  lemma BaseUrlParts(u: Url)
    requires IsValid(u.value)
    ensures UrlParse(BaseUrl(u)) == Ok(UrlParts(Parts(u).scheme, Parts(u).netloc, Parts(u).path, "", "", ""))
    ensures IsValid(BaseUrl(u))
  {
    var p := Parts(u);
    var b := UrlParts(p.scheme, p.netloc, p.path, "", "", "");
    UnparseShape(b);
    assert PathWithParams(b) == p.path && QueryAndFragment(b) == "";
    assert p.path + "" == p.path;
    SchemeHostPath(p.scheme, p.netloc, p.path, "");
    assert UrlUnparse(b) == BaseUrl(u);
    ParseUnparse(b);
    assert UrlParse(BaseUrl(u)) == Ok(b);
  }

  /** `with_path` replaces the path (adding a leading '/') and keeps every other part. */
  lemma WithPathParts(u: Url, path: string)
    requires IsValid(u.value)
    requires |path| > 0 && NoChar(path, '?') && NoChar(path, '#') && NoParamsInPath(Rooted(path)) && Safe(path)
    ensures WithPath(u, path).Ok?
    ensures Parts(WithPath(u, path).value) == Parts(u).(path := Rooted(path))
    ensures Path(WithPath(u, path).value) == Rooted(path)
  {
    var p := Parts(u);
    RootedWellFormed(p, path);
    RootedUnparse(p, path);
    ParseUnparse(p.(path := Rooted(path)));
    ValidFromParse(UrlUnparse(p.(path := Rooted(path))), p.(path := Rooted(path)));
  }

  /** A rooted path free of '?', '#' and parameters keeps well-formed parts well-formed. */
  lemma RootedWellFormed(p: UrlParts, path: string)
    requires WellFormed(p)
    requires |path| > 0 && NoChar(path, '?') && NoChar(path, '#') && NoParamsInPath(Rooted(path)) && Safe(path)
    ensures WellFormed(p.(path := Rooted(path)))
  {
    NoCharConcat("/", path, '?');
    NoCharConcat("/", path, '#');
    SafeConcat("/", path);
  }

  /** With a network location, `urlunparse` writes a relative path as if it started with '/'. */
  lemma RootedUnparse(p: UrlParts, path: string)
    requires |p.netloc| > 0 && |path| > 0
    ensures UrlUnparse(p.(path := path)) == UrlUnparse(p.(path := Rooted(path)))
  {
    var url := PathWithParams(p.(path := path));
    var url' := PathWithParams(p.(path := Rooted(path)));
    assert url[0] == path[0];
    if path[0] != '/' {
      assert "/" + url == url' by {
        if |p.params| > 0 {
          assert url' == ("/" + path) + ";" + p.params;
        }
      }
    }
  }

  /** A text that parses to well-formed http(s) parts is a valid URL with exactly those parts. */
  lemma ValidFromParse(value: string, p: UrlParts)
    requires UrlParse(value) == Ok(p) && WellFormed(p) && p.scheme in ["http", "https"]
    ensures IsValid(value) && New(value) == Ok(Url(value)) && Parts(Url(value)) == p
  {
    UrlParseScheme(value);
  }

  /** Replacing the query by one without '#' keeps every other part. */
  lemma WithQueryParts(u: Url, query: string)
    requires IsValid(u.value) && NoChar(query, '#') && Safe(query)
    ensures WithQuery(u, query).Ok?
    ensures Parts(WithQuery(u, query).value) == Parts(u).(query := query)
  {
    var p' := Parts(u).(query := query);
    assert WellFormed(p');
    ParseUnparse(p');
    ValidFromParse(UrlUnparse(p'), p');
  }

  /** Merging sets each new key to its one-element list and keeps every other key. */
  lemma {:induction false} MergeParamsGet(existing: Dict<seq<string>>, params: Dict<string>, k: string)
    requires UniqueKeys(params)
    ensures Get(MergeParams(existing, params), k) ==
            if HasKey(params, k) then Some([Get(params, k).value]) else Get(existing, k)
    decreases |params|
  {
    if |params| > 0 {
      var init := params[..|params| - 1];
      var last := params[|params| - 1];
      UniqueInit(params);
      MergeParamsGet(existing, init, k);
      if k == last.0 {
        GetSetSame(MergeParams(existing, init), k, [last.1]);
        GetLast(params, k);
      } else {
        GetSetOther(MergeParams(existing, init), last.0, [last.1], k);
        GetInit(params, k);
        HasKeyInit(params, k);
      }
    }
  }

  /** Dropping the last entry of a dict with unique keys leaves unique keys without the last key. */
  lemma UniqueInit<V>(d: Dict<V>)
    requires |d| > 0 && UniqueKeys(d)
    ensures UniqueKeys(d[..|d| - 1]) && !HasKey(d[..|d| - 1], d[|d| - 1].0)
  {
    var init := d[..|d| - 1];
    forall j | 0 <= j < |init| ensures Keys(init)[j] != d[|d| - 1].0 {
      assert Keys(init)[j] == d[j].0;
    }
  }

  lemma HasKeyInit<V>(d: Dict<V>, k: string)
    requires |d| > 0 && d[|d| - 1].0 != k
    ensures HasKey(d, k) <==> HasKey(d[..|d| - 1], k)
  {
    assert Keys(d) == Keys(d[..|d| - 1]) + [d[|d| - 1].0];
  }

  /** In a dict whose last key is `k` and no earlier key is, `d[k]` is the last value. */
  lemma {:induction false} GetLast<V>(d: Dict<V>, k: string)
    requires |d| > 0 && d[|d| - 1].0 == k && !HasKey(d[..|d| - 1], k)
    ensures Get(d, k) == Some(d[|d| - 1].1)
    decreases |d|
  {
    if |d| > 1 {
      assert d[0].0 != k by { assert Keys(d[..|d| - 1])[0] == d[0].0; }
      assert d[1..][..|d| - 2] == d[..|d| - 1][1..];
      assert Keys(d[..|d| - 1]) == [d[0].0] + Keys(d[..|d| - 1][1..]);
      GetLast(d[1..], k);
    }
  }

  /** A key other than the last one is looked up in the dict without its last entry. */
  lemma {:induction false} GetInit<V>(d: Dict<V>, k: string)
    requires |d| > 0 && d[|d| - 1].0 != k
    ensures Get(d, k) == Get(d[..|d| - 1], k)
    decreases |d|
  {
    if |d| > 1 && d[0].0 != k {
      assert d[1..][..|d| - 2] == d[..|d| - 1][1..];
      GetInit(d[1..], k);
    }
  }

  /** `with_query_params` keeps scheme, host, path, parameters and fragment; only the query changes. */
  lemma WithQueryParamsKeeps(u: Url, params: Dict<string>)
    requires IsValid(u.value)
    ensures WithQuery(u, MergedQuery(u, params)).Ok?
    ensures var r := WithQuery(u, MergedQuery(u, params)).value;
            && Scheme(r) == Scheme(u) && Host(r) == Host(u) && Path(r) == Path(u)
            && Parts(r) == Parts(u).(query := MergedQuery(u, params))
  {
    UrlEncodeSeqNoHash(MergeParams(QueryParams(u), params));
    WithQueryParts(u, MergedQuery(u, params));
  }

  /** Equality and hashing use the text only. */
  lemma EqualsIsValue(a: Url, b: Url)
    ensures Equals(a, b) <==> a == b
    ensures Equals(a, b) ==> HashKey(a) == HashKey(b)
  {
  }

  /** `from_parts` of well-formed pieces gives back the same scheme, host and path, and the encoded query. */
  lemma FromPartsComponents(scheme: string, host: string, path: string, query: Option<Dict<string>>)
    requires scheme in ["http", "https"]
    requires |host| > 0 && (forall i :: 0 <= i < |host| ==> !IsNetlocDelim(host[i])) && !BracketMismatch(host)
    requires TailWellFormed(scheme, path, "", "") && Safe(host) && Safe(path)
    ensures FromParts(scheme, host, path, query).Ok?
    ensures var u := FromParts(scheme, host, path, query).value;
            && Scheme(u) == scheme && Host(u) == host && Path(u) == (if |path| > 0 then path else "/")
            && Parts(u).query == (if query.Some? && |query.value| > 0 then UrlEncode(query.value) else "")
            && Parts(u).fragment == ""
  {
    if query.Some? && |query.value| > 0 {
      UrlEncodeEmptyIff(query.value);
      UrlEncodeNoHash(query.value);
      FromTextParts(scheme, host, path, UrlEncode(query.value));
    } else {
      FromTextParts(scheme, host, path, "");
    }
  }

  /** The two accepted schemes are valid, lower-case schemes that take parameters. */
  lemma HttpScheme(s: string)
    requires s in ["http", "https"]
    ensures ValidScheme(s) && Lower(s) == s && UsesParams(s)
  {
    HttpLower(s);
    HttpUsesParams(s);
  }

  lemma HttpLower(s: string)
    requires s in ["http", "https"]
    ensures ValidScheme(s) && Lower(s) == s
  {
    LowerAscii(s);
  }

  lemma HttpUsesParams(s: string)
    requires s in ["http", "https"]
    ensures UsesParams(s)
  {
  }

  /** The text `from_parts` builds parses back to its pieces. */
  lemma FromTextParts(scheme: string, host: string, path: string, qs: string)
    requires scheme in ["http", "https"]
    requires |host| > 0 && (forall i :: 0 <= i < |host| ==> !IsNetlocDelim(host[i])) && !BracketMismatch(host)
    requires TailWellFormed(scheme, path, "", "") && NoChar(qs, '#') && Safe(host) && Safe(path) && Safe(qs)
    ensures var text := if |qs| > 0 then scheme + "://" + host + path + "?" + qs else scheme + "://" + host + path;
            New(text).Ok? && Parts(New(text).value) == UrlParts(scheme, host, path, "", qs, "")
  {
    var p := UrlParts(scheme, host, path, "", qs, "");
    HttpScheme(scheme);
    FromPartsText(scheme, host, path, qs);
    ParseUnparse(p);
    ValidFromParse(UrlUnparse(p), p);
  }

  /** The text `from_parts` builds is what `urlunparse` writes for the same parts. */
  lemma FromPartsText(scheme: string, host: string, path: string, qs: string)
    requires |scheme| > 0 && |host| > 0 && (|path| == 0 || path[0] == '/')
    ensures UrlUnparse(UrlParts(scheme, host, path, "", qs, "")) ==
            if |qs| > 0 then scheme + "://" + host + path + "?" + qs else scheme + "://" + host + path
  {
    var p := UrlParts(scheme, host, path, "", qs, "");
    UnparseShape(p);
    assert PathWithParams(p) == path;
    if |qs| > 0 {
      assert QueryAndFragment(p) == "?" + qs;
      SchemeHostPath(scheme, host, path, "?" + qs);
    } else {
      assert QueryAndFragment(p) == "";
      assert path + "" == path;
      SchemeHostPath(scheme, host, path, "");
    }
  }
}
