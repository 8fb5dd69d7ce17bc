/**
 * The parts of Python's urllib.parse that the Url value object calls: urlparse, urlunparse,
 * parse_qs, urlencode and quote_plus, as Python 3.11.4 and later define them, for text that is
 * ASCII in its network location.
 */
module UrlLib {
  import opened Wrappers
  import opened Strings
  import opened Dicts

  /** `urlparse(...)` result */
  datatype UrlParts = UrlParts(scheme: string, netloc: string, path: string, params: string, query: string, fragment: string)

  predicate IsAsciiAlpha(c: char) {
    ('a' <= c <= 'z') || ('A' <= c <= 'Z')
  }

  predicate IsAsciiDigit(c: char) {
    '0' <= c <= '9'
  }

  /** `urllib.parse.scheme_chars` */
  predicate IsSchemeChar(c: char) {
    IsAsciiAlpha(c) || IsAsciiDigit(c) || c == '+' || c == '-' || c == '.'
  }

  predicate ValidScheme(s: string) {
    |s| > 0 && IsAsciiAlpha(s[0]) && forall i :: 0 <= i < |s| ==> IsSchemeChar(s[i])
  }

  /** Schemes in `urllib.parse.uses_params` */
  predicate UsesParams(scheme: string) {
    scheme in ["", "ftp", "hdl", "prospero", "http", "imap", "https", "shttp", "rtsp", "rtspu",
               "sip", "sips", "mms", "sftp", "tel"]
  }

  /** Schemes in `urllib.parse.uses_netloc` */
  predicate UsesNetloc(scheme: string) {
    scheme in ["", "ftp", "http", "gopher", "nntp", "telnet", "imap", "wais", "file", "mms", "https",
               "shttp", "snews", "prospero", "rtsp", "rtspu", "rsync", "svn", "svn+ssh", "sftp", "nfs",
               "git", "git+ssh", "ws", "wss", "itms-services"]
  }

  predicate IsNetlocDelim(c: char) {
    c == '/' || c == '?' || c == '#'
  }

  predicate NoChar(s: string, c: char) {
    forall i :: 0 <= i < |s| ==> s[i] != c
  }

  /** Index of the first of '/', '?', '#' (or the length). */
  function FirstDelim(s: string): (k: nat)
    ensures k <= |s|
    ensures forall j :: 0 <= j < k ==> !IsNetlocDelim(s[j])
    ensures k < |s| ==> IsNetlocDelim(s[k])
  {
    if |s| == 0 || IsNetlocDelim(s[0]) then 0 else 1 + FirstDelim(s[1..])
  }

  /** The scheme detection of `urlsplit`: the text before the first ':' when it is a valid scheme, lower-cased. */
  function SplitScheme(url: string): (string, string) {
    match IndexOf(url, ':')
    case Some(i) => if i > 0 && ValidScheme(url[..i]) then (Lower(url[..i]), url[i + 1..]) else ("", url)
    case None => ("", url)
  }

  /** `_splitnetloc(url, 2)` when the rest starts with "//" */
  function SplitNetloc(url: string): (string, string) {
    if StartsWith(url, "//") then
      var r := url[2..];
      var k := FirstDelim(r);
      (r[..k], r[k..])
    else ("", url)
  }

  /** The "Invalid IPv6 URL" condition: exactly one of '[' and ']' occurs. */
  predicate BracketMismatch(netloc: string) {
    NoChar(netloc, '[') != NoChar(netloc, ']')
  }

  /** `url.split(c, 1)` when `c in url`, else `(url, '')` */
  function SplitAt(url: string, c: char): (string, string) {
    match IndexOf(url, c)
    case Some(i) => (url[..i], url[i + 1..])
    case None => (url, "")
  }

  /** `_splitparams`: the parameters start at the first ';' after the last '/'. */
  function SplitParams(url: string): (string, string) {
    match LastIndexOf(url, '/')
    case Some(j) =>
      (match IndexOf(url[j..], ';')
       case Some(k) => (url[..j + k], url[j + k + 1..])
       case None => (url, ""))
    case None =>
      (match IndexOf(url, ';')
       case Some(k) => (url[..k], url[k + 1..])
       case None => (url, ""))
  }

  /** Fragment, query and parameters of what follows the network location. */
  function SplitTail(scheme: string, rest: string): (string, string, string, string) {
    var (r3, fragment) := SplitAt(rest, '#');
    var (r4, query) := SplitAt(r3, '?');
    var (path, params) := if UsesParams(scheme) && !NoChar(r4, ';') then SplitParams(r4) else (r4, "");
    (path, params, query, fragment)
  }

  /** `_WHATWG_C0_CONTROL_OR_SPACE`: the characters up to and including the space. */
  predicate IsC0OrSpace(c: char) {
    c <= ' '
  }

  /** Text without the characters of `_UNSAFE_URL_BYTES_TO_REMOVE`: tab, carriage return and line feed. */
  predicate Safe(s: string) {
    NoChar(s, '\t') && NoChar(s, '\r') && NoChar(s, '\n')
  }

  /** `s.lstrip(_WHATWG_C0_CONTROL_OR_SPACE)` */
  function LStripC0(s: string): (r: string)
    ensures |r| == 0 || !IsC0OrSpace(r[0])
  {
    if |s| > 0 && IsC0OrSpace(s[0]) then LStripC0(s[1..]) else s
  }

  /** Every tab, carriage return and line feed removed, the other characters kept in order. */
  function RemoveUnsafe(s: string): string {
    if |s| == 0 then ""
    else if s[0] == '\t' || s[0] == '\r' || s[0] == '\n' then RemoveUnsafe(s[1..])
    else [s[0]] + RemoveUnsafe(s[1..])
  }

  /**
   * What `urlsplit` goes on to split: the text with its leading controls and spaces stripped and
   * every tab, carriage return and line feed removed.
   */
  function Cleaned(url: string): string {
    RemoveUnsafe(LStripC0(url))
  }

  /** The removal leaves no tab, carriage return or line feed, and leaves text without them alone. */
  lemma {:induction false} RemoveUnsafeSafe(s: string)
    ensures Safe(RemoveUnsafe(s))
    ensures Safe(s) ==> RemoveUnsafe(s) == s
    ensures |s| > 0 && !IsC0OrSpace(s[0]) ==> |RemoveUnsafe(s)| > 0 && RemoveUnsafe(s)[0] == s[0]
  {
    if |s| > 0 {
      RemoveUnsafeSafe(s[1..]);
      var rest := RemoveUnsafe(s[1..]);
      SafeConcat([s[0]], rest);
      if Safe(s) {
        assert s == [s[0]] + s[1..];
        SafeConcat([s[0]], s[1..]);
      }
    }
  }

  /**
   * Cleaning leaves neither a tab, a carriage return nor a line feed, nor a leading control or
   * space, and changes nothing in a text that has none of them.
   */
  lemma CleanedClean(url: string)
    ensures Safe(Cleaned(url)) && (|Cleaned(url)| == 0 || !IsC0OrSpace(Cleaned(url)[0]))
    ensures Safe(url) && (|url| == 0 || !IsC0OrSpace(url[0])) ==> Cleaned(url) == url
  {
    RemoveUnsafeSafe(LStripC0(url));
  }

  /** `urlparse(url)`: the cleaned text split into its parts. */
  function UrlParse(url: string): Result<UrlParts> {
    SplitParts(Cleaned(url))
  }

  /** The split of a cleaned text; the only error is the unbalanced-bracket check on the network location. */
  function SplitParts(url: string): Result<UrlParts> {
    var (scheme, r1) := SplitScheme(url);
    var (netloc, r2) := SplitNetloc(r1);
    if BracketMismatch(netloc) then Fail(ValueError("Invalid IPv6 URL"))
    else
      var t := SplitTail(scheme, r2);
      Ok(UrlParts(scheme, netloc, t.0, t.1, t.2, t.3))
  }

  /** The path with its parameters, as `urlunparse` first joins them. */
  function PathWithParams(p: UrlParts): string {
    if |p.params| > 0 then p.path + ";" + p.params else p.path
  }

  /** What `urlunparse` appends after the network location: path, query and fragment. */
  function QueryAndFragment(p: UrlParts): string {
    (if |p.query| > 0 then "?" + p.query else "") + (if |p.fragment| > 0 then "#" + p.fragment else "")
  }

  /** `urlunparse(parts)` */
  function UrlUnparse(p: UrlParts): string {
    var url := PathWithParams(p);
    var url2 :=
      if |p.netloc| > 0 || (|p.scheme| > 0 && UsesNetloc(p.scheme) && !StartsWith(url, "//")) then
        "//" + p.netloc + (if |url| > 0 && url[0] != '/' then "/" + url else url)
      else url;
    var url3 := if |p.scheme| > 0 then p.scheme + ":" + url2 else url2;
    var url4 := if |p.query| > 0 then url3 + "?" + p.query else url3;
    if |p.fragment| > 0 then url4 + "#" + p.fragment else url4
  }

  /** A path with no ';' after its last '/' (so no parameters can be split off). */
  predicate NoParamsInPath(path: string) {
    match LastIndexOf(path, '/')
    case Some(j) => NoChar(path[j..], ';')
    case None => NoChar(path, ';')
  }

  /** The shape of path, parameters and query in every `urlparse` result with a network location. */
  predicate TailWellFormed(scheme: string, path: string, params: string, query: string) {
    && (|path| == 0 || path[0] == '/')
    && NoChar(path, '?') && NoChar(path, '#') && NoChar(params, '?') && NoChar(params, '#')
    && NoChar(query, '#')
    && (|params| > 0 ==> |path| > 0)
    && (UsesParams(scheme) ==> NoParamsInPath(path) && NoChar(params, '/'))
    && (!UsesParams(scheme) ==> params == "")
  }

  /** The shape of every `urlparse` result that has a scheme and a network location. */
  predicate WellFormed(p: UrlParts) {
    && ValidScheme(p.scheme) && Lower(p.scheme) == p.scheme
    && |p.netloc| > 0 && (forall i :: 0 <= i < |p.netloc| ==> !IsNetlocDelim(p.netloc[i]))
    && !BracketMismatch(p.netloc)
    && TailWellFormed(p.scheme, p.path, p.params, p.query)
    && Safe(p.netloc) && Safe(p.path) && Safe(p.params) && Safe(p.query) && Safe(p.fragment)
  }

  // ---------------------------------------------------------------------------------------------
  // Round trip: urlparse(urlunparse(p)) == p for well-formed parts

  lemma LowerIdempotent(s: string)
    requires ValidScheme(s)
    ensures ValidScheme(Lower(s)) && Lower(Lower(s)) == Lower(s)
  {
  }

  lemma {:induction false} SplitSchemeOf(s: string, rest: string)
    requires ValidScheme(s) && Lower(s) == s
    ensures SplitScheme(s + ":" + rest) == (s, rest)
  {
    var u := s + ":" + rest;
    assert u[|s|] == ':';
    assert forall j :: 0 <= j < |s| ==> u[j] == s[j] && u[j] != ':';
    assert IndexOf(u, ':') == Some(|s|);
    assert u[..|s|] == s;
    assert u[|s| + 1..] == rest;
  }

  lemma {:induction false} FirstDelimOf(n: string, x: string)
    requires forall i :: 0 <= i < |n| ==> !IsNetlocDelim(n[i])
    requires |x| == 0 || IsNetlocDelim(x[0])
    ensures FirstDelim(n + x) == |n|
    decreases |n|
  {
    if |n| > 0 {
      assert (n + x)[1..] == n[1..] + x;
      FirstDelimOf(n[1..], x);
    } else {
      assert n + x == x;
    }
  }

  lemma SplitNetlocOf(n: string, x: string)
    requires forall i :: 0 <= i < |n| ==> !IsNetlocDelim(n[i])
    requires |x| == 0 || IsNetlocDelim(x[0])
    ensures SplitNetloc("//" + n + x) == (n, x)
  {
    var u := "//" + n + x;
    assert u[..2] == "//";
    assert u[2..] == n + x;
    FirstDelimOf(n, x);
    assert (n + x)[..|n|] == n;
    assert (n + x)[|n|..] == x;
  }

  lemma SplitAtPresent(a: string, c: char, b: string)
    requires NoChar(a, c)
    ensures SplitAt(a + [c] + b, c) == (a, b)
  {
    var u := a + [c] + b;
    assert u[|a|] == c;
    assert forall j :: 0 <= j < |a| ==> u[j] == a[j];
    assert IndexOf(u, c) == Some(|a|);
    assert u[..|a|] == a;
    assert u[|a| + 1..] == b;
  }

  lemma SplitAtAbsent(a: string, c: char)
    requires NoChar(a, c)
    ensures SplitAt(a, c) == (a, "")
  {
  }

  lemma NoCharConcat(a: string, b: string, c: char)
    ensures NoChar(a + b, c) <==> NoChar(a, c) && NoChar(b, c)
  {
    if NoChar(a + b, c) {
      assert forall i :: 0 <= i < |a| ==> a[i] == (a + b)[i];
      assert forall i :: 0 <= i < |b| ==> b[i] == (a + b)[|a| + i];
    }
  }

  /** Appending text without `c` keeps the last occurrence of `c`. */
  lemma {:induction false} LastIndexOfAppend(a: string, b: string, c: char)
    requires NoChar(b, c)
    ensures LastIndexOf(a + b, c) == LastIndexOf(a, c)
    decreases |b|
  {
    if |b| > 0 {
      var u := a + b;
      assert u[|u| - 1] == b[|b| - 1];
      assert u[..|u| - 1] == a + b[..|b| - 1];
      LastIndexOfAppend(a, b[..|b| - 1], c);
    } else {
      assert a + b == a;
    }
  }

  /** Splitting `path;params` with parameters that hold no '/' gives back both parts. */
  lemma SplitParamsOf(path: string, params: string)
    requires |path| > 0 && path[0] == '/'
    requires NoParamsInPath(path) && NoChar(params, '/')
    ensures SplitParams(path + ";" + params) == (path, params)
  {
    var u := path + ";" + params;
    assert u == path + (";" + params);
    var lp := LastIndexOf(path, '/');
    assert lp.Some? by { assert path[0] == '/'; }
    var j := lp.value;
    NoCharConcat(";", params, '/');
    LastIndexOfAppend(path, ";" + params, '/');
    var t := u[j..];
    var a := path[j..];
    assert t == a + [';'] + params;
    assert NoChar(a, ';');
    SplitAtPresent(a, ';', params);
    assert IndexOf(t, ';') == Some(|a|);
    assert u[..j + |a|] == path;
    assert u[j + |a| + 1..] == params;
  }

  /** A path with no parameters is left alone by the parameter split. */
  lemma SplitParamsNone(path: string)
    requires |path| > 0 && path[0] == '/'
    requires NoParamsInPath(path)
    ensures SplitParams(path) == (path, "")
  {
    var j := LastIndexOf(path, '/').value;
    assert path[j] == '/';
    assert NoChar(path[j..], ';');
  }

  /** Well-formed parts render as scheme, "://", network location and the rest. */
  lemma UnparseShape(p: UrlParts)
    requires |p.scheme| > 0 && |p.netloc| > 0
    requires |PathWithParams(p)| == 0 || PathWithParams(p)[0] == '/'
    ensures UrlUnparse(p) == p.scheme + ":" + ("//" + p.netloc + (PathWithParams(p) + QueryAndFragment(p)))
  {
    var url := PathWithParams(p);
    var url2 := "//" + p.netloc + (if |url| > 0 && url[0] != '/' then "/" + url else url);
    assert url2 == "//" + p.netloc + url;
    var url3 := p.scheme + ":" + url2;
    var q' := if |p.query| > 0 then "?" + p.query else "";
    var f' := if |p.fragment| > 0 then "#" + p.fragment else "";
    assert UrlUnparse(p) == url3 + q' + f';
    assert QueryAndFragment(p) == q' + f';
  }

  lemma PathWithParamsChars(p: UrlParts)
    requires WellFormed(p)
    ensures NoChar(PathWithParams(p), '?') && NoChar(PathWithParams(p), '#')
    ensures |PathWithParams(p)| == 0 || PathWithParams(p)[0] == '/'
  {
    if |p.params| > 0 {
      NoCharConcat(p.path, ";" + p.params, '?');
      NoCharConcat(p.path, ";" + p.params, '#');
      NoCharConcat(";", p.params, '?');
      NoCharConcat(";", p.params, '#');
    }
  }

  /** Fragment and query come off a tail whose path part holds neither '?' nor '#'. */
  lemma SplitQueryFragment(url: string, query: string, fragment: string)
    requires NoChar(url, '?') && NoChar(url, '#') && NoChar(query, '#')
    ensures var q' := if |query| > 0 then "?" + query else "";
            var f' := if |fragment| > 0 then "#" + fragment else "";
            SplitAt(url + (q' + f'), '#') == (url + q', fragment) && SplitAt(url + q', '?') == (url, query)
  {
    var q' := if |query| > 0 then "?" + query else "";
    var f' := if |fragment| > 0 then "#" + fragment else "";
    var x := url + (q' + f');
    assert NoChar(q', '#') by { NoCharConcat("?", query, '#'); }
    NoCharConcat(url, q', '#');
    if |fragment| > 0 {
      assert x == (url + q') + ['#'] + fragment;
      SplitAtPresent(url + q', '#', fragment);
    } else {
      assert x == url + q';
      SplitAtAbsent(url + q', '#');
    }
    if |query| > 0 {
      assert url + q' == url + ['?'] + query;
      SplitAtPresent(url, '?', query);
    } else {
      assert url + q' == url;
      SplitAtAbsent(url, '?');
    }
  }

  /** The parameter split recovers path and parameters. */
  lemma SplitPathParams(p: UrlParts)
    requires WellFormed(p)
    ensures (if UsesParams(p.scheme) && !NoChar(PathWithParams(p), ';') then SplitParams(PathWithParams(p))
             else (PathWithParams(p), "")) == (p.path, p.params)
  {
    var url := PathWithParams(p);
    if |p.params| > 0 {
      assert url[|p.path|] == ';';
      SplitParamsOf(p.path, p.params);
    } else if UsesParams(p.scheme) && !NoChar(url, ';') {
      SplitParamsNone(p.path);
    }
  }

  /** The tail after the network location splits back into path, parameters, query and fragment. */
  lemma SplitTailOf(p: UrlParts)
    requires WellFormed(p)
    ensures SplitTail(p.scheme, PathWithParams(p) + QueryAndFragment(p)) == (p.path, p.params, p.query, p.fragment)
  {
    var url := PathWithParams(p);
    PathWithParamsChars(p);
    SplitQueryFragment(url, p.query, p.fragment);
    SplitPathParams(p);
  }

  /** `urlunparse` followed by `urlparse` gives back well-formed parts unchanged. */
  lemma ParseUnparse(p: UrlParts)
    requires WellFormed(p)
    ensures UrlParse(UrlUnparse(p)) == Ok(p)
  {
    UnparseClean(p);
    SplitUnparse(p);
  }

  lemma SplitUnparse(p: UrlParts)
    requires WellFormed(p)
    ensures SplitParts(UrlUnparse(p)) == Ok(p)
  {
    var x := PathWithParams(p) + QueryAndFragment(p);
    PathWithParamsChars(p);
    UnparseShape(p);
    SplitSchemeOf(p.scheme, "//" + p.netloc + x);
    assert |x| == 0 || IsNetlocDelim(x[0]);
    SplitNetlocOf(p.netloc, x);
    SplitTailOf(p);
  }

  lemma SafeConcat(a: string, b: string)
    ensures Safe(a + b) <==> Safe(a) && Safe(b)
  {
    NoCharConcat(a, b, '\t');
    NoCharConcat(a, b, '\r');
    NoCharConcat(a, b, '\n');
  }

  /** The text of well-formed parts has nothing for `urlsplit` to clean. */
  lemma UnparseClean(p: UrlParts)
    requires WellFormed(p)
    ensures Cleaned(UrlUnparse(p)) == UrlUnparse(p)
  {
    PathWithParamsChars(p);
    UnparseShape(p);
    PathParamsSafe(p);
    QueryFragmentSafe(p);
    SchemeSafe(p.scheme);
    RenderedClean(p.scheme, p.netloc, PathWithParams(p), QueryAndFragment(p));
  }

  lemma RenderedClean(scheme: string, netloc: string, pp: string, qf: string)
    requires |scheme| > 0 && !IsC0OrSpace(scheme[0])
    requires Safe(scheme) && Safe(netloc) && Safe(pp) && Safe(qf)
    ensures Cleaned(scheme + ":" + ("//" + netloc + (pp + qf))) == scheme + ":" + ("//" + netloc + (pp + qf))
  {
    var tail := "//" + netloc + (pp + qf);
    SafeConcat(pp, qf);
    SafeConcat(netloc, pp + qf);
    SafeConcat("//", netloc + (pp + qf));
    assert tail == "//" + (netloc + (pp + qf));
    SafeConcat(":", tail);
    SafeConcat(scheme, ":" + tail);
    assert scheme + ":" + tail == scheme + (":" + tail);
    assert (scheme + ":" + tail)[0] == scheme[0];
    CleanedClean(scheme + ":" + tail);
  }

  lemma SchemeSafe(scheme: string)
    requires ValidScheme(scheme)
    ensures Safe(scheme) && !IsC0OrSpace(scheme[0])
  {
    assert forall i :: 0 <= i < |scheme| ==> IsSchemeChar(scheme[i]);
  }

  lemma PathParamsSafe(p: UrlParts)
    requires Safe(p.path) && Safe(p.params)
    ensures Safe(PathWithParams(p))
  {
    if |p.params| > 0 {
      SafeConcat(";", p.params);
      SafeConcat(p.path, ";" + p.params);
      assert PathWithParams(p) == p.path + (";" + p.params);
    }
  }


  lemma QueryFragmentSafe(p: UrlParts)
    requires Safe(p.query) && Safe(p.fragment)
    ensures Safe(QueryAndFragment(p))
  {
    var q' := if |p.query| > 0 then "?" + p.query else "";
    var f' := if |p.fragment| > 0 then "#" + p.fragment else "";
    assert Safe(q') by { SafeConcat("?", p.query); }
    assert Safe(f') by { SafeConcat("#", p.fragment); }
    SafeConcat(q', f');
    assert QueryAndFragment(p) == q' + f';
  }


  // ---------------------------------------------------------------------------------------------
  // Every parse with a scheme and a network location is well formed

  lemma SplitSchemeShape(url: string)
    ensures var s := SplitScheme(url).0; |s| > 0 ==> ValidScheme(s) && Lower(s) == s
  {
    match IndexOf(url, ':')
    case Some(i) =>
      if i > 0 && ValidScheme(url[..i]) {
        LowerIdempotent(url[..i]);
      }
    case None =>
  }

  lemma SplitNetlocShape(r1: string)
    ensures var (n, r2) := SplitNetloc(r1);
            (forall i :: 0 <= i < |n| ==> !IsNetlocDelim(n[i]))
            && (|n| > 0 ==> |r2| == 0 || IsNetlocDelim(r2[0]))
  {
  }

  lemma SplitAtShape(url: string, c: char)
    ensures var (a, b) := SplitAt(url, c);
            NoChar(a, c) && url == (if |a| == |url| then a else a + [c] + b)
  {
    match IndexOf(url, c)
    case Some(i) =>
      assert url == url[..i] + [c] + url[i + 1..];
    case None =>
  }

  /** Slices keep the absence of a character. */
  lemma NoCharSlice(s: string, c: char, i: nat, j: nat)
    requires i <= j <= |s| && NoChar(s, c)
    ensures NoChar(s[i..j], c)
  {
    assert forall k :: 0 <= k < j - i ==> s[i..j][k] == s[i + k];
  }

  /** Cutting at the first ';' after the last '/' leaves a path without parameters. */
  lemma CutParamsShape(url: string, j: nat, k: nat)
    requires j < |url| && url[j] == '/' && forall m :: j < m < |url| ==> url[m] != '/'
    requires 0 < k < |url| - j && url[j + k] == ';' && forall m :: j <= m < j + k ==> url[m] != ';'
    ensures NoParamsInPath(url[..j + k]) && NoChar(url[j + k + 1..], '/')
  {
    var path := url[..j + k];
    assert path[j] == '/';
    assert forall m :: j < m < |path| ==> path[m] == url[m];
    assert LastIndexOf(path, '/') == Some(j);
    assert forall m :: 0 <= m < k ==> path[j..][m] == url[j + m];
    assert NoChar(path[j..], ';');
    var params := url[j + k + 1..];
    assert forall m :: 0 <= m < |params| ==> params[m] == url[j + k + 1 + m];
  }

  lemma SplitParamsShape(url: string)
    requires |url| > 0 && url[0] == '/' && NoChar(url, '?') && NoChar(url, '#')
    ensures var (path, params) := SplitParams(url);
            && |path| > 0 && path[0] == '/'
            && NoChar(path, '?') && NoChar(path, '#') && NoChar(params, '?') && NoChar(params, '#')
            && NoParamsInPath(path) && NoChar(params, '/')
  {
    var j := LastIndexOf(url, '/').value;
    assert url[0] == '/';
    var t := url[j..];
    match IndexOf(t, ';')
    case Some(k) =>
      SplitParamsCut(url, j, k);
    case None =>
      assert NoParamsInPath(url);
  }

  lemma SplitParamsCut(url: string, j: nat, k: nat)
    requires |url| > 0 && url[0] == '/' && NoChar(url, '?') && NoChar(url, '#')
    requires LastIndexOf(url, '/') == Some(j) && IndexOf(url[j..], ';') == Some(k)
    ensures SplitParams(url) == (url[..j + k], url[j + k + 1..])
    ensures var (path, params) := SplitParams(url);
            && |path| > 0 && path[0] == '/'
            && NoChar(path, '?') && NoChar(path, '#') && NoChar(params, '?') && NoChar(params, '#')
            && NoParamsInPath(path) && NoChar(params, '/')
  {
    SplitParamsAt(url, j, k);
    CutSlices(url, j, k);
  }

  lemma SplitParamsAt(url: string, j: nat, k: nat)
    requires LastIndexOf(url, '/') == Some(j) && IndexOf(url[j..], ';') == Some(k)
    ensures SplitParams(url) == (url[..j + k], url[j + k + 1..])
  {
  }


  /** The two sides of the cut at the first ';' after the last '/'. */
  lemma CutSlices(url: string, j: nat, k: nat)
    requires |url| > 0 && url[0] == '/' && NoChar(url, '?') && NoChar(url, '#')
    requires LastIndexOf(url, '/') == Some(j) && IndexOf(url[j..], ';') == Some(k)
    ensures j + k < |url|
    ensures var path := url[..j + k];
            && |path| > 0 && path[0] == '/' && NoChar(path, '?') && NoChar(path, '#') && NoParamsInPath(path)
    ensures var params := url[j + k + 1..];
            NoChar(params, '?') && NoChar(params, '#') && NoChar(params, '/')
  {
    var t := url[j..];
    assert k > 0 by { assert t[0] == '/'; }
    assert forall m :: j <= m < j + k ==> url[m] == t[m - j];
    CutParamsShape(url, j, k);
    NoCharSlice(url, '?', 0, j + k);
    NoCharSlice(url, '#', 0, j + k);
    NoCharSlice(url, '?', j + k + 1, |url|);
    NoCharSlice(url, '#', j + k + 1, |url|);
  }

  /** What follows the network location splits into a well-formed tail. */
  lemma SplitTailShape(scheme: string, r2: string)
    requires |r2| == 0 || IsNetlocDelim(r2[0])
    ensures var t := SplitTail(scheme, r2); TailWellFormed(scheme, t.0, t.1, t.2)
  {
    var (r3, fragment) := SplitAt(r2, '#');
    SplitAtShape(r2, '#');
    var (r4, query) := SplitAt(r3, '?');
    SplitAtShape(r3, '?');
    assert NoChar(query, '#') by {
      if |r4| < |r3| {
        NoCharConcat(r4 + ['?'], query, '#');
      }
    }
    assert NoChar(r4, '#') by {
      if |r4| < |r3| {
        NoCharConcat(r4 + ['?'], query, '#');
        NoCharConcat(r4, ['?'], '#');
      }
    }
    assert |r4| == 0 || r4[0] == '/' by {
      if |r4| > 0 {
        assert r4[0] == r3[0] && r3[0] == r2[0];
      }
    }
    if UsesParams(scheme) && !NoChar(r4, ';') {
      SplitParamsShape(r4);
    }
  }

  /** Every `urlparse` result with a scheme and a network location is well formed. */
  lemma UrlParseWellFormed(url: string)
    requires UrlParse(url).Ok?
    requires |UrlParse(url).value.scheme| > 0 && |UrlParse(url).value.netloc| > 0
    ensures WellFormed(UrlParse(url).value)
  {
    var x := Cleaned(url);
    CleanedClean(url);
    var (scheme, r1) := SplitScheme(x);
    SplitSchemeShape(x);
    var (netloc, r2) := SplitNetloc(r1);
    SplitNetlocShape(r1);
    SplitTailShape(scheme, r2);
    SplitPartsSafe(x, '\t');
    SplitPartsSafe(x, '\r');
    SplitPartsSafe(x, '\n');
  }

  /** The parts of a text without `c` hold no `c` either. */
  lemma SplitPartsSafe(x: string, c: char)
    requires NoChar(x, c) && SplitParts(x).Ok?
    ensures var p := SplitParts(x).value;
            NoChar(p.netloc, c) && NoChar(p.path, c) && NoChar(p.params, c) && NoChar(p.query, c) && NoChar(p.fragment, c)
  {
    var (scheme, r1) := SplitScheme(x);
    SplitSchemeNoChar(x, c);
    var (netloc, r2) := SplitNetloc(r1);
    SplitNetlocNoChar(r1, c);
    SplitTailNoChar(scheme, r2, c);
  }

  lemma SplitSchemeNoChar(x: string, c: char)
    requires NoChar(x, c)
    ensures NoChar(SplitScheme(x).1, c)
  {
    match IndexOf(x, ':')
    case Some(i) => if i > 0 && ValidScheme(x[..i]) { NoCharSlice(x, c, i + 1, |x|); }
    case None =>
  }

  lemma SplitNetlocNoChar(r1: string, c: char)
    requires NoChar(r1, c)
    ensures NoChar(SplitNetloc(r1).0, c) && NoChar(SplitNetloc(r1).1, c)
  {
    if StartsWith(r1, "//") {
      var r := r1[2..];
      NoCharSlice(r1, c, 2, |r1|);
      var k := FirstDelim(r);
      NoCharSlice(r, c, 0, k);
      NoCharSlice(r, c, k, |r|);
      assert r[..k] == r[0..k];
    }
  }

  lemma SplitTailNoChar(scheme: string, r2: string, c: char)
    requires NoChar(r2, c)
    ensures var t := SplitTail(scheme, r2);
            NoChar(t.0, c) && NoChar(t.1, c) && NoChar(t.2, c) && NoChar(t.3, c)
  {
    var (r3, fragment) := SplitAt(r2, '#');
    SplitAtNoChar(r2, '#', c);
    var (r4, query) := SplitAt(r3, '?');
    SplitAtNoChar(r3, '?', c);
    if UsesParams(scheme) && !NoChar(r4, ';') {
      SplitParamsNoChar(r4, c);
    }
  }


  lemma SplitAtNoChar(url: string, d: char, c: char)
    requires NoChar(url, c)
    ensures NoChar(SplitAt(url, d).0, c) && NoChar(SplitAt(url, d).1, c)
  {
    match IndexOf(url, d)
    case Some(i) =>
      NoCharSlice(url, c, 0, i);
      NoCharSlice(url, c, i + 1, |url|);
      assert url[..i] == url[0..i];
    case None =>
  }

  lemma SplitParamsNoChar(url: string, c: char)
    requires NoChar(url, c)
    ensures NoChar(SplitParams(url).0, c) && NoChar(SplitParams(url).1, c)
  {
    match LastIndexOf(url, '/')
    case Some(j) => {
      match IndexOf(url[j..], ';')
      case Some(k) =>
        NoCharSlice(url, c, 0, j + k);
        NoCharSlice(url, c, j + k + 1, |url|);
        assert url[..j + k] == url[0..j + k];
      case None =>
    }
    case None =>
      match IndexOf(url, ';')
      case Some(k) =>
        NoCharSlice(url, c, 0, k);
        NoCharSlice(url, c, k + 1, |url|);
        assert url[..k] == url[0..k];
      case None =>
  }

  /** The scheme of a parse is the one detected in the cleaned text. */
  lemma UrlParseScheme(url: string)
    requires UrlParse(url).Ok?
    ensures UrlParse(url).value.scheme == SplitScheme(Cleaned(url)).0
  {
  }

  /** A non-empty scheme is the lower-cased text before the first ':'. */
  lemma SplitSchemePrefix(url: string)
    requires |SplitScheme(url).0| > 0
    ensures StartsWith(Lower(url), SplitScheme(url).0 + ":")
  {
    var i := IndexOf(url, ':').value;
    var s := SplitScheme(url).0;
    assert s == Lower(url[..i]);
    assert Lower(url)[..i + 1] == s + ":" by {
      assert forall k :: 0 <= k < i ==> Lower(url)[k] == Lower(url[..i])[k];
    }
  }

  // ---------------------------------------------------------------------------------------------
  // Query strings

  /** `%XX` with upper-case hex digits */
  function PercentByte(b: nat): string
    requires b < 256
  {
    ['%', "0123456789ABCDEF"[b / 16], "0123456789ABCDEF"[b % 16]]
  }

  /** The UTF-8 bytes of one character. */
  function Utf8(c: char): (bs: seq<nat>)
    ensures 1 <= |bs| <= 4 && forall i :: 0 <= i < |bs| ==> bs[i] < 256
  {
    var n := c as int;
    if n < 0x80 then [n]
    else if n < 0x800 then [0xC0 + n / 64, 0x80 + n % 64]
    else if n < 0x10000 then [0xE0 + n / 4096, 0x80 + (n / 64) % 64, 0x80 + n % 64]
    else [0xF0 + n / 262144, 0x80 + (n / 4096) % 64, 0x80 + (n / 64) % 64, 0x80 + n % 64]
  }

  function PercentAll(bs: seq<nat>): string
    requires forall i :: 0 <= i < |bs| ==> bs[i] < 256
  {
    if |bs| == 0 then "" else PercentByte(bs[0]) + PercentAll(bs[1..])
  }

  /** Characters `quote` never escapes. */
  predicate AlwaysSafe(c: char) {
    IsAsciiAlpha(c) || IsAsciiDigit(c) || c == '_' || c == '.' || c == '-' || c == '~'
  }

  /** `quote_plus(s, safe='')` */
  function QuotePlus(s: string): string {
    if |s| == 0 then ""
    else (if s[0] == ' ' then "+" else if AlwaysSafe(s[0]) then [s[0]] else PercentAll(Utf8(s[0])))
         + QuotePlus(s[1..])
  }

  function HexValue(c: char): Option<nat> {
    if '0' <= c <= '9' then Some(c as int - '0' as int)
    else if 'a' <= c <= 'f' then Some(c as int - 'a' as int + 10)
    else if 'A' <= c <= 'F' then Some(c as int - 'A' as int + 10)
    else None
  }

  /** `unquote(s)`: each `%XX` becomes the character with that code. */
  function Unquote(s: string): string {
    if |s| >= 3 && s[0] == '%' && HexValue(s[1]).Some? && HexValue(s[2]).Some? then
      [(HexValue(s[1]).value * 16 + HexValue(s[2]).value) as char] + Unquote(s[3..])
    else if |s| == 0 then ""
    else [s[0]] + Unquote(s[1..])
  }

  /** One `name=value` field of `parse_qsl`, after '+' becomes ' ' and unquoting. */
  function ParseField(field: string): Option<(string, string)> {
    match IndexOf(field, '=')
    case None => None
    case Some(i) =>
      if i + 1 == |field| then None
      else Some((Unquote(ReplaceChar(field[..i], '+', ' ')), Unquote(ReplaceChar(field[i + 1..], '+', ' '))))
  }

  /** `parse_qsl(qs)`: empty fields, fields without '=' and fields with an empty value are dropped. */
  function ParseQsl(qs: string): seq<(string, string)> {
    FieldsToPairs(Split(qs, '&'))
  }

  function FieldsToPairs(fields: seq<string>): seq<(string, string)> {
    if |fields| == 0 then []
    else
      (match ParseField(fields[0]) case Some(nv) => [nv] case None => []) + FieldsToPairs(fields[1..])
  }

  /** `parse_qs(qs)`: the values of each name, in order, keyed in first-occurrence order. */
  function ParseQs(qs: string): Dict<seq<string>> {
    GroupPairs([], ParseQsl(qs))
  }

  function GroupPairs(acc: Dict<seq<string>>, pairs: seq<(string, string)>): Dict<seq<string>>
    decreases |pairs|
  {
    if |pairs| == 0 then acc
    else
      var (k, v) := pairs[0];
      GroupPairs(Set(acc, k, GetOr(acc, k, []) + [v]), pairs[1..])
  }

  /** `urlencode(query)` for a dict of strings */
  function UrlEncode(query: Dict<string>): string {
    Join("&", EncodePairs(query))
  }

  function EncodePairs(query: Dict<string>): (r: seq<string>)
    ensures |r| == |query|
  {
    if |query| == 0 then [] else [QuotePlus(query[0].0) + "=" + QuotePlus(query[0].1)] + EncodePairs(query[1..])
  }

  /** `urlencode(query, doseq=True)` for a dict of lists of strings */
  function UrlEncodeSeq(query: Dict<seq<string>>): string {
    Join("&", EncodeSeqPairs(query))
  }

  function EncodeSeqPairs(query: Dict<seq<string>>): seq<string> {
    if |query| == 0 then []
    else EncodeValues(QuotePlus(query[0].0), query[0].1) + EncodeSeqPairs(query[1..])
  }

  function EncodeValues(k: string, vs: seq<string>): seq<string> {
    if |vs| == 0 then [] else [k + "=" + QuotePlus(vs[0])] + EncodeValues(k, vs[1..])
  }

  // ---------------------------------------------------------------------------------------------
  // Facts about encoded query strings

  /** The characters `quote_plus` always escapes that `urlsplit` cares about: '#', tab, CR and LF. */
  predicate Escaped(c: char) {
    c == '#' || c == '\t' || c == '\r' || c == '\n'
  }

  lemma {:induction false} PercentAllNoChar(bs: seq<nat>, c: char)
    requires forall i :: 0 <= i < |bs| ==> bs[i] < 256
    requires Escaped(c)
    ensures NoChar(PercentAll(bs), c)
  {
    if |bs| > 0 {
      PercentAllNoChar(bs[1..], c);
      NoCharConcat(PercentByte(bs[0]), PercentAll(bs[1..]), c);
    }
  }

  /** `quote_plus` never produces '#', tab, CR or LF. */
  lemma {:induction false} QuotePlusNoChar(s: string, c: char)
    requires Escaped(c)
    ensures NoChar(QuotePlus(s), c)
  {
    if |s| > 0 {
      QuotePlusNoChar(s[1..], c);
      PercentAllNoChar(Utf8(s[0]), c);
      var head := if s[0] == ' ' then "+" else if AlwaysSafe(s[0]) then [s[0]] else PercentAll(Utf8(s[0]));
      NoCharConcat(head, QuotePlus(s[1..]), c);
    }
  }

  lemma {:induction false} JoinNoChar(sep: string, parts: seq<string>, c: char)
    requires NoChar(sep, c) && forall i :: 0 <= i < |parts| ==> NoChar(parts[i], c)
    ensures NoChar(Join(sep, parts), c)
  {
    if |parts| > 1 {
      JoinNoChar(sep, parts[1..], c);
      NoCharConcat(parts[0], sep, c);
      NoCharConcat(parts[0] + sep, Join(sep, parts[1..]), c);
    }
  }

  lemma {:induction false} EncodeValuesNoChar(k: string, vs: seq<string>, c: char)
    requires Escaped(c) && NoChar(k, c)
    ensures forall i :: 0 <= i < |EncodeValues(k, vs)| ==> NoChar(EncodeValues(k, vs)[i], c)
  {
    if |vs| > 0 {
      EncodeValuesNoChar(k, vs[1..], c);
      QuotePlusNoChar(vs[0], c);
      NoCharConcat(k, "=", c);
      NoCharConcat(k + "=", QuotePlus(vs[0]), c);
    }
  }

  lemma {:induction false} EncodeSeqPairsNoChar(query: Dict<seq<string>>, c: char)
    requires Escaped(c)
    ensures forall i :: 0 <= i < |EncodeSeqPairs(query)| ==> NoChar(EncodeSeqPairs(query)[i], c)
  {
    if |query| > 0 {
      QuotePlusNoChar(query[0].0, c);
      EncodeValuesNoChar(QuotePlus(query[0].0), query[0].1, c);
      EncodeSeqPairsNoChar(query[1..], c);
    }
  }

  lemma UrlEncodeSeqNoChar(query: Dict<seq<string>>, c: char)
    requires Escaped(c)
    ensures NoChar(UrlEncodeSeq(query), c)
  {
    EncodeSeqPairsNoChar(query, c);
    JoinNoChar("&", EncodeSeqPairs(query), c);
  }

  /**
   * A `doseq` query string never contains '#', so it cannot spill into the fragment, nor anything
   * `urlsplit` removes.
   */
  lemma UrlEncodeSeqNoHash(query: Dict<seq<string>>)
    ensures NoChar(UrlEncodeSeq(query), '#') && Safe(UrlEncodeSeq(query))
  {
    UrlEncodeSeqNoChar(query, '#');
    UrlEncodeSeqNoChar(query, '\t');
    UrlEncodeSeqNoChar(query, '\r');
    UrlEncodeSeqNoChar(query, '\n');
  }

  lemma {:induction false} EncodePairsNoChar(query: Dict<string>, c: char)
    requires Escaped(c)
    ensures forall i :: 0 <= i < |EncodePairs(query)| ==> NoChar(EncodePairs(query)[i], c)
  {
    if |query| > 0 {
      QuotePlusNoChar(query[0].0, c);
      QuotePlusNoChar(query[0].1, c);
      NoCharConcat(QuotePlus(query[0].0), "=", c);
      NoCharConcat(QuotePlus(query[0].0) + "=", QuotePlus(query[0].1), c);
      EncodePairsNoChar(query[1..], c);
    }
  }

  lemma UrlEncodeNoChar(query: Dict<string>, c: char)
    requires Escaped(c)
    ensures NoChar(UrlEncode(query), c)
  {
    EncodePairsNoChar(query, c);
    JoinNoChar("&", EncodePairs(query), c);
  }

  /** An encoded query string never contains '#', nor anything `urlsplit` removes. */
  lemma UrlEncodeNoHash(query: Dict<string>)
    ensures NoChar(UrlEncode(query), '#') && Safe(UrlEncode(query))
  {
    UrlEncodeNoChar(query, '#');
    UrlEncodeNoChar(query, '\t');
    UrlEncodeNoChar(query, '\r');
    UrlEncodeNoChar(query, '\n');
  }

  lemma {:induction false} JoinNonEmpty(sep: string, parts: seq<string>)
    requires |parts| > 0 && |parts[0]| > 0
    ensures |Join(sep, parts)| > 0
  {
  }

  /** `urlencode` of a non-empty dict is non-empty (each field holds '='), of an empty one empty. */
  lemma UrlEncodeEmptyIff(query: Dict<string>)
    ensures UrlEncode(query) == "" <==> |query| == 0
  {
    if |query| > 0 {
      JoinNonEmpty("&", EncodePairs(query));
    }
  }
}
